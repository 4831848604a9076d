/** src/file-processors/FileProcessorFactory.js, and the dispatch of a hook
    call on the instance it returns: a class either overrides a hook or
    inherits the throwing one of the base class. */
module Factory {
  import opened Wrappers
  import opened Strings
  import opened FileProcessor
  import opened GeoTiffProcessor

  /** The three classes that extend the base class; the factory holds one
      instance of the first two. */
  datatype Kind = ShapefileKind | GeopackageKind | GeoTiffKind

  /** Lines 10-17: dispatch on a case-sensitive suffix. */
  function ProcessorFor(file: string): (r: Option<Kind>)
    ensures r == Some(ShapefileKind) <==> EndsWith(file, ".shp")
    ensures r == Some(GeopackageKind) <==> EndsWith(file, ".gpkg") && !EndsWith(file, ".shp")
    ensures r != Some(GeoTiffKind)
  {
    if EndsWith(file, ".shp") then Some(ShapefileKind)
    else if EndsWith(file, ".gpkg") then Some(GeopackageKind)
    else None
  }

  /** Every other name yields no processor: upper-case extensions, the
      sidecar files and archives among them. */
  lemma NoProcessorExamples()
    ensures ProcessorFor("A.SHP") == None
    ensures ProcessorFor("a.dbf") == None && ProcessorFor("a.sld") == None
    ensures ProcessorFor("a.zip") == None && ProcessorFor("a.tif") == None
    ensures ProcessorFor("shp") == None
  {
    assert "A.SHP"[1..] != ".shp";
  }

  /** The hooks each class overrides (ShapefileProcessor.js,
      GeopackageProcessor.js, GeoTiffProcessor.js). */
  predicate Overrides(k: Kind, h: Hook) {
    match k
    case ShapefileKind => h == Process
    case GeopackageKind => h in {Open, GetSchemaFields, GetGeographicInfo}
    case GeoTiffKind => h in {Open, GetSchemaFields, GetGeographicInfo, GetFileType, ShouldZip}
  }

  /** `processor.shouldZip()` on an instance of class `k`: only the GeoTIFF
      processor overrides it, returning false; the others inherit the
      throwing base hook. */
  function ShouldZipOf(k: Kind): (r: Result<bool>)
    ensures r.Err? <==> !Overrides(k, ShouldZip)
    ensures r.Err? ==> r.message == BaseHook(ShouldZip).message
  {
    if k == GeoTiffKind then Ok(GeoTiffShouldZip()) else Err(BaseHook(ShouldZip).message)
  }

  /** `processor.getFileType()` on an instance of class `k`. */
  function FileTypeOf(k: Kind): (r: Result<string>)
    ensures r.Err? <==> !Overrides(k, GetFileType)
    ensures r.Err? ==> r.message == BaseHook(GetFileType).message
  {
    if k == GeoTiffKind then Ok(GeoTiffFileType()) else Err(BaseHook(GetFileType).message)
  }

  /** No processor asks for its output to be regrouped: the only class
      that answers `shouldZip` answers false. */
  lemma NoProcessorZips(k: Kind)
    ensures ShouldZipOf(k) != Ok(true)
    ensures ShouldZipOf(k).Ok? <==> k == GeoTiffKind
  {
  }

  /** A hook a class does not override throws the base error on its
      instances; `process` is overridden by the shapefile processor only. */
  lemma ProcessInherited(k: Kind)
    ensures !Overrides(k, Process) <==> k != ShapefileKind
  {
  }
}
