/** src/file-processors/GeopackageProcessor.js over an abstract GeoPackage:
    the schema and the features of its first feature table. The GeoPackage
    library and `toGeoJSON` are foreign code; a table carries its columns,
    the name of its geometry column and its rows, and a row carries the
    GeoJSON of its geometry and its cells. */
module GeopackageProcessor {
  import opened Wrappers
  import opened FileProcessor
  import ShapefileProcessor

  /** A column of a feature table, as `getColumnForIndex` describes it. */
  datatype Column = Column(name: string, isGeometry: bool, geometryType: int, dataType: int, max: Option<int>)

  /** One cell of a feature row: its column's name and its value. */
  datatype Cell = Cell(column: string, value: string)

  /** A feature row: the GeoJSON of its geometry when it has one. */
  datatype Row = Row(geometry: Option<string>, cells: seq<Cell>)

  datatype FeatureTable = FeatureTable(columns: seq<Column>, geometryColumn: string, rows: seq<Row>)

  /** The feature tables of a GeoPackage, in `getFeatureTables()` order. */
  datatype GeoPackage = GeoPackage(tables: seq<FeatureTable>)

  /** One GeoJSON feature built at lines 79-83. */
  datatype GeoFeature = GeoFeature(featureType: string, geometry: Option<string>, properties: map<string, string>)

  /** Line 5. */
  const NumericDataTypes: seq<int> := [7, 6, 4, 5, 3, 8, 2, 1]

  /** Lines 6-14. */
  const GeometryTypes: seq<string> :=
    ["Geometry", "Point", "MultiLineString", "MultiPolygon", "MultiPoint", "MultiLineString", "MultiPolygon"]

  /** Lines 91-93: the listed data-type codes are exactly 1 to 8. */
  function TypeForDataType(code: int): (r: string)
    ensures r == "Number" <==> 1 <= code <= 8
    ensures r == "Number" || r == "String"
  {
    if code in NumericDataTypes then "Number" else "String"
  }

  /** Lines 95-97: the table entry at `index`, undefined (`None`) outside
      the table. */
  function GeometryTypeForIndex(index: int): (r: Option<string>)
    ensures r.Some? <==> 0 <= index <= 6
  {
    if 0 <= index < |GeometryTypes| then Some(GeometryTypes[index]) else None
  }

  /** The geometry-type names of the integer codes 0 to 7 in section 8.2.3
      of OGC 06-103r4 (Simple Feature Access, part 1). */
  function WkbGeometryName(code: int): Option<string> {
    match code
    case 0 => Some("Geometry")
    case 1 => Some("Point")
    case 2 => Some("LineString")
    case 3 => Some("Polygon")
    case 4 => Some("MultiPoint")
    case 5 => Some("MultiLineString")
    case 6 => Some("MultiPolygon")
    case 7 => Some("GeometryCollection")
    case _ => None
  }

  /** The table is the WKB code's name folded into its multi-part kind by
      the same table the shapefile processor uses; GeometryCollection (7)
      and every other code have no entry. */
  lemma GeometryTypesFollowWkb(index: int)
    ensures 0 <= index <= 6 ==>
      GeometryTypeForIndex(index) == Some(ShapefileProcessor.GeometryTypeName(WkbGeometryName(index)))
    ensures !(0 <= index <= 6) ==> GeometryTypeForIndex(index) == None
  {
  }

  /** Lines 35-46: a geometry column gives its name and geometry type and
      no length; any other column gives its name, data type and maximum. */
  function ColumnField(c: Column): (r: SchemaField)
    ensures r.name == c.name
    ensures c.isGeometry ==> r.length.None? && r.fieldType == GeometryTypeForIndex(c.geometryType)
    ensures !c.isGeometry ==> r.length == c.max && r.fieldType == Some(TypeForDataType(c.dataType))
  {
    if c.isGeometry then SchemaField(c.name, GeometryTypeForIndex(c.geometryType), None)
    else SchemaField(c.name, Some(TypeForDataType(c.dataType)), c.max)
  }

  /** `getSchemaFields(fileData)` (lines 22-50): one entry per column of the
      first feature table, in column order, none without a table. */
  method GetSchemaFields(pkg: GeoPackage) returns (fields: seq<SchemaField>)
    ensures pkg.tables == [] ==> fields == []
    ensures pkg.tables != [] ==>
      var cols := pkg.tables[0].columns;
      |fields| == |cols| && forall i | 0 <= i < |cols| :: fields[i] == ColumnField(cols[i])
  {
    fields := [];
    if |pkg.tables| > 0 {
      var columns := pkg.tables[0].columns;
      var index := 0;
      while index < |columns|
        invariant 0 <= index <= |columns|
        invariant |fields| == index
        invariant forall i | 0 <= i < index :: fields[i] == ColumnField(columns[i])
      {
        var column := columns[index];
        if column.isGeometry {
          fields := fields + [SchemaField(column.name, GeometryTypeForIndex(column.geometryType), None)];
        } else {
          fields := fields + [SchemaField(column.name, Some(TypeForDataType(column.dataType)), column.max)];
        }
        index := index + 1;
      }
    }
  }

  /** Lines 71-77 as a function: the cells assigned in order, each to the
      key of its column, the geometry column's name skipped. */
  function PropertiesOf(cells: seq<Cell>, geometryColumn: string): map<string, string>
  {
    if cells == [] then map[]
    else
      var c := cells[|cells| - 1];
      var p := PropertiesOf(cells[..|cells| - 1], geometryColumn);
      if c.column != geometryColumn then p[c.column := c.value] else p
  }

  /** The properties hold every column name but the geometry column's,
      and under each the value of the LAST cell of that name. */
  lemma {:induction false} PropertiesContents(cells: seq<Cell>, geometryColumn: string)
    ensures PropertiesOf(cells, geometryColumn).Keys == set c | c in cells && c.column != geometryColumn :: c.column
    ensures forall i | 0 <= i < |cells| && cells[i].column != geometryColumn
                      && (forall j | i < j < |cells| :: cells[j].column != cells[i].column) ::
              PropertiesOf(cells, geometryColumn)[cells[i].column] == cells[i].value
  {
    if cells != [] {
      var init := cells[..|cells| - 1];
      PropertiesContents(init, geometryColumn);
      assert cells == init + [cells[|cells| - 1]];
      forall i | 0 <= i < |cells| - 1 && cells[i].column != geometryColumn
                && (forall j | i < j < |cells| :: cells[j].column != cells[i].column)
        ensures PropertiesOf(cells, geometryColumn)[cells[i].column] == cells[i].value
      {
        assert init[i] == cells[i];
        assert forall j | i < j < |init| :: init[j] == cells[j];
      }
    }
  }

  /** Lines 71-77: the properties of one row. */
  method RowProperties(row: Row, geometryColumn: string) returns (properties: map<string, string>)
    ensures properties == PropertiesOf(row.cells, geometryColumn)
  {
    properties := map[];
    var index := 0;
    while index < |row.cells|
      invariant 0 <= index <= |row.cells|
      invariant properties == PropertiesOf(row.cells[..index], geometryColumn)
    {
      var cell := row.cells[index];
      assert row.cells[..index + 1][..index] == row.cells[..index];
      if cell.column != geometryColumn {
        properties := properties[cell.column := cell.value];
      }
      index := index + 1;
    }
    assert row.cells[..index] == row.cells;
  }

  /** The feature lines 62-85 build for one row. */
  function FeatureOf(row: Row, geometryColumn: string): GeoFeature {
    GeoFeature("Feature", row.geometry, PropertiesOf(row.cells, geometryColumn))
  }

  /** `getGeographicInfo(fileData)` (lines 52-89): one feature per row of
      the first feature table, in row order, none without a table. */
  method GetGeographicInfo(pkg: GeoPackage) returns (features: seq<GeoFeature>)
    ensures pkg.tables == [] ==> features == []
    ensures pkg.tables != [] ==>
      var rows := pkg.tables[0].rows;
      |features| == |rows| && forall i | 0 <= i < |rows| ::
        && features[i].featureType == "Feature"
        && features[i].geometry == rows[i].geometry
        && features[i].properties == PropertiesOf(rows[i].cells, pkg.tables[0].geometryColumn)
  {
    features := [];
    if |pkg.tables| > 0 {
      var table := pkg.tables[0];
      var index := 0;
      while index < |table.rows|
        invariant 0 <= index <= |table.rows|
        invariant |features| == index
        invariant forall i | 0 <= i < index :: features[i] == FeatureOf(table.rows[i], table.geometryColumn)
      {
        var row := table.rows[index];
        var properties := RowProperties(row, table.geometryColumn);
        features := features + [GeoFeature("Feature", row.geometry, properties)];
        index := index + 1;
      }
    }
  }
}
