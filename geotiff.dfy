/** src/file-processors/GeoTiffProcessor.js: every hook it overrides
    returns a constant; `process` is not overridden. */
module GeoTiffProcessor {
  import opened Wrappers
  import opened FileProcessor

  /** Lines 4-6 and 12-14: `open` and `getGeographicInfo` return
      `undefined` whatever they are given. */
  function GeoTiffOpen(filePath: string, encoding: Option<string>, options: Options): (r: Option<()>)
    ensures r.None?
  {
    None
  }

  function GeoTiffGeographicInfo<T>(fileData: T): (r: Option<()>)
    ensures r.None?
  {
    None
  }

  /** Lines 8-10: no schema fields, whatever the file data. */
  function GeoTiffSchemaFields<T>(fileData: T): (r: seq<SchemaField>)
    ensures |r| == 0
  {
    []
  }

  /** Lines 16-18. */
  function GeoTiffFileType(): (r: string)
    ensures r == "geoTIFF"
  {
    "geoTIFF"
  }

  /** Lines 20-22. */
  function GeoTiffShouldZip(): (r: bool)
    ensures !r
  {
    false
  }
}
