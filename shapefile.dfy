/** src/file-processors/ShapefileProcessor.js: `process` reads the first
    feature of a `.shp`, looks for the `.sld` sidecar, derives a schema from
    the `.dbf` field list, and assembles one record. The shapefile library
    and the encoding detector are foreign code, given as functions. */
module ShapefileProcessor {
  import opened Wrappers
  import opened Strings
  import opened Files
  import opened FileProcessor

  /** One field of the `.dbf` header: its name, its one-letter type code
      and its length. */
  datatype DbfField = DbfField(name: string, fieldType: string, length: int)

  /** What the first `source.read()` yields: `done`, and the feature when
      there is one; of the feature only the type of its geometry matters
      here. */
  datatype ReadResult = ReadResult(done: bool, value: Option<Feature>)
  datatype Feature = Feature(geometry: Option<Geometry>)
  datatype Geometry = Geometry(geometryType: Option<string>)

  /** The shapefile library and `detectEncoding`: `open` is
      `shapefile.open(path, undefined, {encoding})` followed by one
      `source.read()`, `openDbf` yields the `_fields` of `shapefile.openDbf`;
      both may throw. */
  datatype ShapefileLib = ShapefileLib(
    detectEncoding: string -> string,
    open: (string, Option<string>) -> Result<ReadResult>,
    openDbf: string -> Result<seq<DbfField>>)

  /** The record `process` returns; `geographicInfo` is `None` when the key
      was deleted. */
  datatype ShapefileRecord = ShapefileRecord(
    name: string,
    fileName: string,
    hasSld: bool,
    schema: seq<SchemaField>,
    geographicInfo: Option<ReadResult>)

  predicate SameKey(a: DbfField, b: DbfField) {
    a.name == b.name && a.fieldType == b.fieldType
  }

  /** `fields.findIndex(t => t.name === x.name && t.type === x.type)`. */
  function FindIndex(fields: seq<DbfField>, x: DbfField): (r: int)
    ensures -1 <= r < |fields|
    ensures r >= 0 ==> SameKey(fields[r], x)
    ensures forall j | 0 <= j < |fields| && (r < 0 || j < r) :: !SameKey(fields[j], x)
  {
    if fields == [] then -1
    else if SameKey(fields[0], x) then 0
    else
      var k := FindIndex(fields[1..], x);
      if k < 0 then -1 else k + 1
  }

  /** Lines 47-52: the fields at indices `< n` that are the first of their
      `(name, type)` pair, in order. */
  function KeepFirst(fields: seq<DbfField>, n: nat): (r: seq<DbfField>)
    requires n <= |fields|
    ensures forall y | y in r :: exists i | 0 <= i < n :: y == fields[i] && FindIndex(fields, y) == i
  {
    if n == 0 then []
    else
      var x := fields[n - 1];
      KeepFirst(fields, n - 1) + (if FindIndex(fields, x) == n - 1 then [x] else [])
  }

  function Dedup(fields: seq<DbfField>): seq<DbfField> {
    KeepFirst(fields, |fields|)
  }

  /** `a` is `b` with some elements left out, order kept. */
  predicate Subsequence(a: seq<DbfField>, b: seq<DbfField>)
    decreases |b|
  {
    if a == [] then true
    else if b == [] then false
    else (a[|a| - 1] == b[|b| - 1] && Subsequence(a[..|a| - 1], b[..|b| - 1])) || Subsequence(a, b[..|b| - 1])
  }

  /** The dedup keeps listing order: its result is a subsequence of the
      fields. */
  lemma {:induction false} DedupKeepsOrder(fields: seq<DbfField>, n: nat)
    requires n <= |fields|
    ensures Subsequence(KeepFirst(fields, n), fields[..n])
  {
    if n > 0 {
      DedupKeepsOrder(fields, n - 1);
      var r, x := KeepFirst(fields, n - 1), fields[n - 1];
      assert fields[..n][..n - 1] == fields[..n - 1];
      if FindIndex(fields, x) == n - 1 {
        var r' := r + [x];
        assert r'[..|r'| - 1] == r;
      } else {
        assert KeepFirst(fields, n) == r;
        if r != [] {
          assert fields[..n] != [];
        }
      }
    }
  }

  /** No two kept fields share their `(name, type)` pair. */
  lemma {:induction false} DedupUnique(fields: seq<DbfField>, n: nat)
    requires n <= |fields|
    ensures forall i, j | 0 <= i < j < |KeepFirst(fields, n)| :: !SameKey(KeepFirst(fields, n)[i], KeepFirst(fields, n)[j])
  {
    if n > 0 {
      DedupUnique(fields, n - 1);
      var prev, x := KeepFirst(fields, n - 1), fields[n - 1];
      var cur := KeepFirst(fields, n);
      if FindIndex(fields, x) == n - 1 {
        forall y | y in prev ensures !SameKey(y, x) {
          var i :| 0 <= i < n - 1 && y == fields[i] && FindIndex(fields, y) == i;
        }
        assert cur == prev + [x];
        forall i, j | 0 <= i < j < |cur| ensures !SameKey(cur[i], cur[j]) {
          assert cur[i] == prev[i] && prev[i] in prev;
          if j < |prev| {
            assert cur[j] == prev[j];
          }
        }
      } else {
        assert cur == prev;
      }
    }
  }

  /** Every `(name, type)` pair of the fields survives, as its first
      occurrence. */
  lemma {:induction false} DedupComplete(fields: seq<DbfField>, n: nat, x: DbfField)
    requires n <= |fields| && x in fields[..n]
    ensures 0 <= FindIndex(fields, x) < n
    ensures fields[FindIndex(fields, x)] in KeepFirst(fields, n)
  {
    var k := FindIndex(fields, x);
    var i :| 0 <= i < n && fields[i] == x;
    assert 0 <= k <= i;
    var y := fields[k];
    assert FindIndex(fields, y) == k;
    KeepFirstContains(fields, n, k);
  }

  lemma {:induction false} KeepFirstContains(fields: seq<DbfField>, n: nat, k: nat)
    requires k < n <= |fields| && FindIndex(fields, fields[k]) == k
    ensures fields[k] in KeepFirst(fields, n)
  {
    var x := fields[n - 1];
    var last := if FindIndex(fields, x) == n - 1 then [x] else [];
    assert KeepFirst(fields, n) == KeepFirst(fields, n - 1) + last;
    if k < n - 1 {
      KeepFirstContains(fields, n - 1, k);
    } else {
      assert last == [fields[k]];
    }
  }

  /** Lines 53-58: the type code "N" becomes "Number", every other code
      "String"; name and length are copied. */
  function FieldOf(f: DbfField): (r: SchemaField)
    ensures r.name == f.name && r.length == Some(f.length)
    ensures r.fieldType == Some("Number") <==> f.fieldType == "N"
    ensures r.fieldType == Some("Number") || r.fieldType == Some("String")
  {
    SchemaField(f.name, Some(if f.fieldType == "N" then "Number" else "String"), Some(f.length))
  }

  function MapFields(fields: seq<DbfField>): (r: seq<SchemaField>)
    ensures |r| == |fields| && forall i | 0 <= i < |fields| :: r[i] == FieldOf(fields[i])
  {
    if fields == [] then [] else [FieldOf(fields[0])] + MapFields(fields[1..])
  }

  /** Lines 61-68: the table that folds single geometries into their
      multi-part kind. */
  const Types: map<string, string> := map[
    "Point" := "Point", "MultiPoint" := "MultiPoint",
    "Polygon" := "MultiPolygon", "MultiPolygon" := "MultiPolygon",
    "LineString" := "MultiLineString", "MultiLineString" := "MultiLineString"]

  /** Line 74: the table's entry for the geometry type, or "Geometry" when
      the type is missing or not in the table. */
  function GeometryTypeName(t: Option<string>): (r: string)
    ensures r in {"Point", "MultiPoint", "MultiPolygon", "MultiLineString", "Geometry"}
    ensures r != "Geometry" <==> t.Some? && t.value in Types
  {
    if t.Some? && t.value in Types then Types[t.value] else "Geometry"
  }

  /** The table is a normal form: looking up its own output changes
      nothing. */
  lemma GeometryTypeNameIdempotent(t: Option<string>)
    ensures GeometryTypeName(Some(GeometryTypeName(t))) == GeometryTypeName(t)
  {
  }

  /** `value?.geometry?.type` of the first read. */
  function FirstGeometryType(rr: ReadResult): Option<string> {
    if rr.value.Some? && rr.value.value.geometry.Some? then rr.value.value.geometry.value.geometryType else None
  }

  /** Lines 47-75: the deduplicated, mapped fields followed by the
      geometry field. */
  function Schema(fields: seq<DbfField>, t: Option<string>): (r: seq<SchemaField>)
    ensures |r| == |Dedup(fields)| + 1
    ensures r[|r| - 1] == SchemaField("geometry", Some(GeometryTypeName(t)), None)
    ensures forall i | 0 <= i < |r| - 1 :: r[i] == FieldOf(Dedup(fields)[i])
  {
    MapFields(Dedup(fields)) + [SchemaField("geometry", Some(GeometryTypeName(t)), None)]
  }

  /** The dedup looks at the raw pair before mapping, so two fields of one
      name whose codes differ but are both not "N" end up as two identical
      schema entries. */
  lemma DuplicateStringFields()
    ensures var s := Schema([DbfField("a", "C", 10), DbfField("a", "D", 8)], None);
      && |s| == 3
      && s[0].name == s[1].name == "a"
      && s[0].fieldType == s[1].fieldType == Some("String")
  {
    var fields := [DbfField("a", "C", 10), DbfField("a", "D", 8)];
    assert FindIndex(fields, fields[0]) == 0;
    assert FindIndex(fields[1..], fields[1]) == 0;
    assert FindIndex(fields, fields[1]) == 1;
    assert KeepFirst(fields, 1) == [fields[0]];
    assert KeepFirst(fields, 2) == [fields[0]] + [fields[1]];
    assert Dedup(fields) == fields;
  }

  /** Lines 23-24: the detected encoding iff the option is "auto". */
  function Encoding(options: Options, filePath: string, lib: ShapefileLib): Option<string> {
    if options.encoding == Some("auto") then Some(lib.detectEncoding(filePath)) else options.encoding
  }

  lemma {:induction false} BaseNameHasNoSep(p: string)
    ensures Sep !in BaseName(p)
  {
    var k := LastIndexOf(p, Sep);
    assert forall j | 0 <= j < |BaseName(p)| :: BaseName(p)[j] == p[k + 1 + j];
  }

  lemma {:induction false} FirstSegmentHasNoDot(s: string)
    ensures '.' !in FirstSegment(s)
  {
    var k := IndexOf(s, '.');
    if k >= 0 {
      assert forall j | 0 <= j < k :: FirstSegment(s)[j] == s[j];
    }
  }

  /** `name` is cut at the FIRST dot while the grouping stem is cut at the
      last one. */
  lemma NameIsNotStem()
    ensures FirstSegment("a.b.shp") == "a"
    ensures Stem("a.b.shp") == "a.b"
  {
    var s := "a.b.shp";
    assert s[0] == 'a' && s[1] == '.' && s[3] == '.';
    assert s[4] == 's' && s[5] == 'h' && s[6] == 'p';
    assert IndexOf(s, '.') == 1;
    assert LastIndexOf(s, '.') == 3;
    assert s[..3] == "a.b";
  }

  /** The sidecar paths swap the first ".shp" of the whole path, which is
      the extension only when no folder name holds ".shp". */
  lemma {:induction false} SidecarPath(filePath: string, ext: string)
    requires EndsWith(filePath, ".shp")
    requires forall j | 0 <= j < |filePath| - 4 :: !OccursAt(filePath, ".shp", j)
    ensures ReplaceFirst(filePath, ".shp", ext) == filePath[..|filePath| - 4] + ext
  {
    assert OccursAt(filePath, ".shp", |filePath| - 4);
  }

  lemma SidecarInFolderName()
    ensures ReplaceFirst("d.shp/a.shp", ".shp", ".sld") == "d.sld/a.shp"
  {
    var s := "d.shp/a.shp";
    assert s[1..5] == ".shp";
    assert s[0] == 'd' && s[0..4][0] == 'd';
    assert OccursAt(s, ".shp", 1);
    assert !OccursAt(s, ".shp", 0);
    assert IndexOfSub(s, ".shp") == 1;
    assert s[..1] + ".sld" + s[5..] == "d.sld/a.shp";
  }

  /** The record `process` yields once it knows whether the `.sld` sidecar
      exists. A failing `open` or `openDbf` throws; otherwise the record
      holds the last path component, its text up to the first dot, the
      sidecar flag, the derived schema, and the first read unless
      `options.geographicInfo` is falsy. */
  function Record(filePath: string, options: Options, lib: ShapefileLib, hasSld: bool): (r: Result<ShapefileRecord>)
    ensures var src := lib.open(filePath, Encoding(options, filePath, lib));
      var dbf := lib.openDbf(ReplaceFirst(filePath, ".shp", ".dbf"));
      && (src.Err? ==> r == Err(src.message))
      && (src.Ok? && dbf.Err? ==> r == Err(dbf.message))
      && (src.Ok? && dbf.Ok? ==> (r.Ok?
          && r.value.fileName == BaseName(filePath) && Sep !in r.value.fileName
          && r.value.name == FirstSegment(r.value.fileName) && '.' !in r.value.name
          && r.value.hasSld == hasSld
          && r.value.schema == Schema(dbf.value, FirstGeometryType(src.value))
          && (r.value.geographicInfo.Some? <==> options.geographicInfo == Some(true))
          && (r.value.geographicInfo.Some? ==> r.value.geographicInfo.value == src.value)))
  {
    var src :- lib.open(filePath, Encoding(options, filePath, lib));
    var dbf :- lib.openDbf(ReplaceFirst(filePath, ".shp", ".dbf"));
    var fileName := BaseName(filePath);
    BaseNameHasNoSep(filePath);
    FirstSegmentHasNoDot(fileName);
    Ok(ShapefileRecord(
      FirstSegment(fileName), fileName, hasSld,
      Schema(dbf, FirstGeometryType(src)),
      if options.geographicInfo == Some(true) then Some(src) else None))
  }

  /** `ShapefileProcessor.process(filePath, options)` (lines 18-89): the
      record above, with the sidecar looked up in the file system. */
  method Process(fs: FileSystem, filePath: string, options: Options, lib: ShapefileLib)
      returns (r: Result<ShapefileRecord>)
    ensures r == Record(filePath, options, lib, fs.Exists(ReplaceFirst(filePath, ".shp", ".sld")))
  {
    var fileName := BaseName(filePath);
    var encoding := Encoding(options, filePath, lib);
    var source := lib.open(filePath, encoding);
    if source.Err? {
      return Err(source.message);
    }
    var geographicInfo := source.value;
    var sldFilePath := ReplaceFirst(filePath, ".shp", ".sld");
    var hasSld := false;
    if fs.Exists(sldFilePath) {
      hasSld := true;
    }
    var dbfFilePath := ReplaceFirst(filePath, ".shp", ".dbf");
    var dbfData := lib.openDbf(dbfFilePath);
    if dbfData.Err? {
      return Err(dbfData.message);
    }
    var schemaFields := MapFields(Dedup(dbfData.value));
    schemaFields := schemaFields + [SchemaField("geometry", Some(GeometryTypeName(FirstGeometryType(geographicInfo))), None)];
    var res := ShapefileRecord(FirstSegment(fileName), fileName, hasSld, schemaFields, Some(geographicInfo));
    if options.geographicInfo != Some(true) {
      res := res.(geographicInfo := None);
    }
    r := Ok(res);
  }
}
