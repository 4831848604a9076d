# geographic-info-reader: the folder-ingestion pipeline in Dafny

This project models the folder-ingestion pipeline of geographic-info-reader.
It is written in Dafny and proved with Dafny's verifier.

- The entry point `Processor` turns every shapefile of a folder into a record. A record holds the file's name, whether an `.sld` style sidecar exists, a schema derived from the `.dbf` header, and optionally the first feature.
- Each file name is dispatched by its suffix to a per-format processor (shapefile, GeoPackage, GeoTIFF). Every hook a processor does not override throws.
- `unzipFiles` expands every `.zip` archive of a folder, over and over, until none is left pending. It then copies the non-archive files to an output folder and restores the source folder's listing.
- `zipFilesGroupByShapefile` packs the files of a folder into one archive per file-name stem.
- `clearFolder` and `getAbsolutePath` are the small helpers the pipeline uses.

The file system is a flat, in-memory map from folder path to folder. A folder (`Files.Dir`) is a listing in creation order plus the bytes of each entry. A `Files.FileSystem` object holds that map, and its methods update it in place.

An archive codec (`Archives.Codec`) is a pair of functions:
- `read` turns bytes into members, each a name, a folder flag and bytes;
- `build` turns members into bytes.

Where the archive contents are described, the round trip `read(build(es)) == es` is assumed for plain member lists: file members whose names come from a universe `u`, hold no separator, and occur once each (`Archives.Plain`, `Archives.RoundTrips`). These are the lists `zipFilesGroupByShapefile` builds. JSZip keeps one member per name and turns a name containing `/` into folder entries, so no wider round trip holds. The same universe `u` bounds the names the reader can produce (`Unzip.Closed`), and `Unzip.ClosedAndRoundTrips` shows a codec for which both assumptions hold together.

The libraries are parameters of the model:
- `shapefile.open`/`read`, `openDbf` and `detectEncoding` form `ShapefileProcessor.ShapefileLib`;
- the GeoPackage library is replaced by an abstract table, column and row model;
- `process.cwd()` is an argument.

The path separator is `/`.

Termination of the repeated expansion is proved under an explicit finite universe `u` of entry names. `u` is closed under extraction (`Unzip.Closed`), and the set of base names of the recorded archive paths grows strictly with every recursive call.

The shapefile schema is de-duplicated on the raw `(name, type code)` pair before the code is mapped to "Number"/"String". Two fields `a` with codes `C` and `D` therefore both survive as `a`/"String" (`ShapefileProcessor.DuplicateStringFields`).

Three further behaviours of the code are kept as written, and proved:
- A file stem that names an `Object.prototype` member (`constructor`, `toString`, `__proto__`, …) makes `zipFilesGroupByShapefile` throw. The grouping dictionary is a plain object, so the inherited member is truthy and has no `push`.
- Every archive is re-extracted on every pass. The skip test compares bare names with the full paths that were recorded.
- Phase 2 of `processFolder` never regroups. Neither processor the factory returns overrides `shouldZip`, so it throws for `.shp` and `.gpkg` files.

## Model

| member | source | states |
|---|---|---|
| Strings.LastIndexOf | src/utils/zipUtils.js:51 | the index of the last occurrence of the character, or -1; no later index holds it |
| Strings.IndexOf | src/file-processors/ShapefileProcessor.js:78 | the index of the first occurrence of the character, or -1; no earlier index holds it |
| Strings.IndexOfSub | src/file-processors/ShapefileProcessor.js:36 | the first position where the pattern occurs, or -1 when it occurs nowhere |
| Strings.StemOfSuffixed | src/utils/zipUtils.js:51 | the stem (text before the last dot) of `t + ext`, for a one-dot extension `ext`, is `t` |
| Strings.BaseNameOfJoin | src/utils/zipUtils.js:134 | the base name of `dir/name` is `name` and its folder is `dir`, for a separator-free name |
| Strings.JoinHasSep | src/utils/zipUtils.js:100 | a joined path contains a separator, so it never equals a bare name |
| Files.Filter | src/utils/utils.js:29-33 | the listing names that are in the keep-list, in listing order |
| Files.FilterDistinct | src/utils/utils.js:29-33 | filtering a listing without repeats gives a listing without repeats |
| Files.Without | src/utils/utils.js:32 | unlinking one name removes exactly that name from the listing |
| Files.FilterTwice | src/utils/utils.js:29-33 | filtering twice by the same keep-list equals filtering once |
| Files.ClearStep | src/utils/utils.js:29-37 | one iteration of the deletion loop turns the listing prefix into its filtered form and drops exactly the visited name when it is not kept |
| Files.Dir.Write | src/utils/zipUtils.js:119 | writing an entry sets its bytes; a new name is appended to the listing, an existing one keeps its place |
| Files.Dir.Remove | src/utils/utils.js:32 | unlinking removes exactly that entry's bytes and keeps the folder well formed |
| Files.Dir.Keep | src/utils/utils.js:22-40 | the folder left once every unkept entry is deleted stays well formed |
| Files.FileSystem.ReadDir | src/utils/zipUtils.js:24 | the listing of an existing folder, and for a missing one the ENOENT error with `readdir`'s `scandir '<path>'` message |
| Files.FileSystem.ClearFolder | src/utils/utils.js:22-40 | succeeds iff the folder exists; then the folder becomes its listing filtered to the keep-list and nothing else changes; otherwise ENOENT and no change |
| Files.ClearedPrefix | src/utils/utils.js:29-37 | the loop state before the first iteration is the folder, and after the last it is the cleared folder |
| Files.ClearedStep | src/utils/utils.js:29-37 | a kept name leaves the loop state alone, an unkept one is removed from it |
| Files.KeepAgain | src/utils/utils.js:29-33 | clearing twice with the same keep-list deletes nothing the second time |
| Files.KeepContents | src/utils/utils.js:26-36 | kept entries keep their bytes, every other entry is deleted, absent kept names are not created, and the listing is the original filtered in order |
| Files.KeepNothing | src/utils/utils.js:22 | with the default empty keep-list the folder ends empty |
| Files.FilterNothing | src/utils/utils.js:22 | filtering by an empty keep-list leaves no name |
| Files.KeepExample | test/utils.test.js:45-50 | keeping `file1.txt` and `file2.txt` of three files leaves exactly those two, in order |
| Files.AbsolutePathIsStable | src/utils/utils.js:42-47 | an absolute path is returned unchanged, a relative one is joined onto the working directory, and the result is absolute and stable under a second resolution |
| Unzip.ClosedAndRoundTrips | src/utils/zipUtils.js:59-71 | the archive codec assumptions of expansion (a closed universe) and of regrouping (plain members read back as built) are satisfiable together, by a one-name codec |
| Unzip.ExtractEntries | src/utils/zipUtils.js:104-121 | extracting members into a folder keeps it well formed, only appends to its listing, and adds exactly the file members' names |
| Unzip.ExtractedBytes | src/utils/zipUtils.js:104-121 | after extraction an entry holds the bytes of the last member of its name, or its old bytes when no member has that name |
| Unzip.ExtractStep | src/utils/zipUtils.js:100-125 | one loop iteration only grows the folder and keeps it well formed |
| Unzip.Pass | src/utils/zipUtils.js:97-126 | a pass only grows the folder and keeps it well formed |
| Unzip.PendingZips | src/utils/zipUtils.js:129-136 | the listed `.zip` names whose name is not among the base names of the recorded paths |
| Unzip.RecordJoin | src/utils/zipUtils.js:124-134 | recording `src/f` adds exactly `f` to the recorded base names, and the recorded path contains a separator |
| Unzip.ExtractWithin | src/utils/zipUtils.js:104-121 | extraction keeps the folder's names inside the closed universe |
| Unzip.ExtractStepRecords | src/utils/zipUtils.js:100-125 | a listed name is never among the recorded full paths, so every listed `.zip` is extracted and its path recorded, and the pass invariant is kept |
| Unzip.PassRecords | src/utils/zipUtils.js:99-126 | a pass records the full paths of exactly the listed `.zip` names, in listing order, and keeps the invariant |
| Unzip.PassRecordsEveryZip | src/utils/zipUtils.js:99-125 | every `.zip` of the listing is extracted and recorded on every pass, extracted before or not |
| Unzip.ZipPathsCount | src/utils/zipUtils.js:124-134 | the recorded paths of a pass are one per listed `.zip`, and their base names are exactly the listed `.zip` names |
| Unzip.SeenNamesAppend | src/utils/zipUtils.js:133-135 | the base names of two appended path lists are the union of their base names |
| Unzip.GrowthCard | src/utils/zipUtils.js:139-145 | adding new names inside the universe strictly shrinks what is left of it, and adding no new name changes nothing |
| Unzip.PendingIsZipSetMinus | src/utils/zipUtils.js:130-139 | a `.zip` is pending iff some listed `.zip` name is not yet among the recorded base names |
| Unzip.PassSeenNames | src/utils/zipUtils.js:99-136 | after a pass the recorded base names are the previous ones plus the listed `.zip` names |
| Unzip.SeenGrows | src/utils/zipUtils.js:129-145 | when a `.zip` is pending the recursion measure strictly decreases; otherwise the recorded base names stay put |
| Unzip.Expand | src/utils/zipUtils.js:91-145 | the repeated passes terminate in a state where no listed `.zip` is pending, keep the invariant, and only grow the listing |
| Unzip.CopyNonZip | src/utils/zipUtils.js:149-159 | copying the non-`.zip` entries keeps the output folder well formed |
| Unzip.NonZip | src/utils/zipUtils.js:149-151 | exactly the names that do not end in `.zip`, in order |
| Unzip.CopyIntoEmpty | src/utils/zipUtils.js:146-160 | copying into an empty folder gives exactly the non-`.zip` entries, in listing order, with their bytes |
| Files.FilterOwnPrefix | src/utils/zipUtils.js:24-30 | keeping the original listing of a folder whose listing only grew gives back exactly the original listing |
| Files.FilterAll | src/utils/utils.js:29-33 | a listing whose names are all kept is left as it is |
| Unzip.UnzippedOutput | src/utils/zipUtils.js:146-160 | the output folder ends with exactly the non-`.zip` entries of the fully expanded source folder, in order, with their bytes, and never a `.zip` |
| Unzip.UnzippedSource | src/utils/zipUtils.js:24-30 | the source folder ends with exactly the names it listed at the start; an original file overwritten by a member keeps the member's bytes |
| Unzip.UnzippedFrame | src/utils/zipUtils.js:10-33 | no folder other than the source and output folders changes |
| Unzip.ExtractInto | src/utils/zipUtils.js:104-121 | writes the members into the folder one after the other and changes nothing else |
| Unzip.ExtractPass | src/utils/zipUtils.js:97-126 | the folder and the recorded paths after one pass over the listing, as `Pass` gives them |
| Unzip.CopyFiles | src/utils/zipUtils.js:149-159 | copies the non-`.zip` names into the output folder and changes nothing else |
| Unzip.UnzipRecursive | src/utils/zipUtils.js:91-161 | the source folder ends fully expanded, the output folder receives its non-`.zip` entries only once, after the last pass, and the recorded paths are those of the expansion |
| Unzip.PrepareOutput | src/utils/zipUtils.js:16-21 | a missing output folder is created, an existing one is emptied, and a path naming a file throws with no change |
| Unzip.ExpandAndRestore | src/utils/zipUtils.js:24-30 | the source is expanded into the empty output folder, then cleared back to its first listing |
| Unzip.UnzipFiles | src/utils/zipUtils.js:10-33 | the output folder is prepared before the source is read, so it exists even when the source is missing (ENOENT); otherwise the result is the expanded-copied-restored state |
| Regroup.StemFiles | src/utils/zipUtils.js:47-56 | the non-`.sld` files whose stem is `k` |
| Regroup.NoStemNoFiles | src/utils/zipUtils.js:47-56 | with no file of stem `k`, the group of `k` is empty |
| Regroup.GroupedFails | src/utils/zipUtils.js:51-55 | grouping throws iff a non-`.sld` file's stem names an inherited object member |
| Regroup.GroupedKeys | src/utils/zipUtils.js:52-54 | the stems are distinct and are exactly the keys that have a group |
| Regroup.GroupedStems | src/utils/zipUtils.js:47-56 | the stems are exactly the stems of the non-`.sld` files |
| Regroup.GroupedMembers | src/utils/zipUtils.js:47-56 | each stem's group is its files in listing order |
| Regroup.MembersOf | src/utils/zipUtils.js:63-67 | one archive member per file, carrying its name and its bytes |
| Regroup.WriteGroups | src/utils/zipUtils.js:59-72 | writing the archives keeps the folder well formed and loses no entry |
| Regroup.Suffixed | src/utils/zipUtils.js:76-77 | the names with the given suffix |
| Regroup.Regrouped | src/utils/zipUtils.js:39-82 | a successful regrouping leaves a well-formed folder |
| Regroup.GroupedConsistent | src/utils/zipUtils.js:46-60 | the grouping of a folder's listing refers only to files of that folder |
| Regroup.ArchiveNameStem | src/utils/zipUtils.js:69 | the stem of `k.zip` is `k`, and `k.zip` is an archive name and not an `.sld` |
| Regroup.ZipNameIsArchiveName | src/utils/zipUtils.js:69-76 | every `.zip` name is the archive name of its own stem |
| Regroup.ArchiveNamesDiffer | src/utils/zipUtils.js:69 | distinct stems give distinct archive names |
| Regroup.WrittenKeys | src/utils/zipUtils.js:59-72 | after writing, the folder holds its old entries plus one archive per stem written |
| Regroup.WrittenUnchanged | src/utils/zipUtils.js:59-72 | an entry that no archive is named after keeps its bytes |
| Regroup.MembersAgree | src/utils/zipUtils.js:63-67 | the members read from two folders agree when the files agree |
| Regroup.LastWrittenArchive | src/utils/zipUtils.js:63-71 | the archive written for a stem holds that group's files with their bytes from before the call |
| Regroup.WrittenArchive | src/utils/zipUtils.js:59-72 | no later archive overwrites an earlier one |
| Regroup.RegroupedFails | src/utils/zipUtils.js:39-82 | regrouping throws iff a non-`.sld` file's stem names an inherited object member |
| Regroup.RegroupedKeysRaw | src/utils/zipUtils.js:59-81 | the final names are the old entries and the written archives, cut down to `.zip` and `.sld` names |
| Regroup.ArchivesAndSlds | src/utils/zipUtils.js:74-81 | old entries plus archives of the stems, cut down to `.zip` and `.sld` names, are exactly the archives of the stems plus the `.sld` entries |
| Regroup.RegroupedNames | src/utils/zipUtils.js:48-81 | the final names are one `S.zip` per stem `S` of a non-`.sld` file, plus the `.sld` files; everything else is deleted |
| Regroup.RegroupedContents | src/utils/zipUtils.js:47-71 | for a codec that round-trips plain members over a separator-free universe holding the folder's names, reading back `S.zip` gives exactly the files of stem `S`, in listing order, with their original bytes |
| Regroup.MembersPlain | src/utils/zipUtils.js:63-67 | the members added for a group are files with distinct, separator-free names from the universe, so the round trip applies to them |
| Regroup.StemFilesDistinct | src/utils/zipUtils.js:47-56 | a group of a listing without repeats has no repeats |
| Regroup.RegroupedSld | src/utils/zipUtils.js:48-81 | every `.sld` file survives with its bytes |
| Regroup.StemFilesSingle | src/utils/zipUtils.js:47-56 | in a listing without repeats, a name that is the only file of its stem forms that stem's group alone |
| Regroup.RegroupedArchives | src/utils/zipUtils.js:69-81 | a regrouped folder holds only archives and `.sld` files, each archive named after an earlier stem |
| Regroup.RegroupNamesStable | src/utils/zipUtils.js:39-82 | regrouping a regrouped folder succeeds and leaves the same names |
| Regroup.ArchiveOnly | src/utils/zipUtils.js:51-69 | in a folder of archives and `.sld` files, `k.zip` is the only file of stem `k` |
| Regroup.RegroupNests | src/utils/zipUtils.js:47-71 | re-running is not idempotent on contents: when the universe also holds the archive names, the new `k.zip` holds the previous `k.zip` as its only member |
| Regroup.GroupByStem | src/utils/zipUtils.js:46-56 | the grouping loop computes `Grouped` |
| Regroup.GroupedStaysFailed | src/utils/zipUtils.js:52-55 | once grouping a prefix throws, grouping the whole listing throws the same error |
| Regroup.CollectMembers | src/utils/zipUtils.js:63-67 | reads the group's files into archive members |
| Regroup.WriteStep | src/utils/zipUtils.js:69-71 | writing one more archive extends the written state by that archive |
| Regroup.WriteArchives | src/utils/zipUtils.js:59-72 | the folder after the archive loop is the written state |
| Regroup.ZipFilesGroupByShapefile | src/utils/zipUtils.js:39-82 | a missing folder throws ENOENT; a throwing grouping changes nothing; otherwise the folder becomes its regrouped form and nothing else changes |
| FileProcessor.BaseHook | src/file-processors/FileProcessor.js:1-25 | every base hook throws, with a message that starts with the hook's name |
| FileProcessor.BaseHookMessagesDiffer | src/file-processors/FileProcessor.js:1-25 | the six base errors carry six different messages |
| GeoTiffProcessor.GeoTiffOpen | src/file-processors/GeoTiffProcessor.js:4-6 | returns nothing, whatever its arguments |
| GeoTiffProcessor.GeoTiffGeographicInfo | src/file-processors/GeoTiffProcessor.js:12-14 | returns nothing, whatever the file data |
| GeoTiffProcessor.GeoTiffSchemaFields | src/file-processors/GeoTiffProcessor.js:8-10 | an empty schema, whatever the file data |
| GeoTiffProcessor.GeoTiffFileType | src/file-processors/GeoTiffProcessor.js:16-18 | "geoTIFF" |
| GeoTiffProcessor.GeoTiffShouldZip | src/file-processors/GeoTiffProcessor.js:20-22 | false |
| Factory.ProcessorFor | src/file-processors/FileProcessorFactory.js:10-17 | the shapefile processor iff the name ends in `.shp`; the GeoPackage processor iff it ends in `.gpkg` (and not `.shp`); never the GeoTIFF processor |
| Factory.NoProcessorExamples | src/file-processors/FileProcessorFactory.js:11-16 | `A.SHP`, `.dbf`, `.sld`, `.zip`, `.tif` and extension-less names get no processor (the test is case-sensitive) |
| Factory.ShouldZipOf | src/file-processors/FileProcessor.js:22-24 | `shouldZip` throws the base error exactly on the classes that do not override it |
| Factory.FileTypeOf | src/file-processors/FileProcessor.js:18-20 | `getFileType` throws the base error exactly on the classes that do not override it |
| Factory.NoProcessorZips | src/file-processors/GeoTiffProcessor.js:20-22 | no class answers `shouldZip` with true; only the GeoTIFF class answers at all |
| Factory.ProcessInherited | src/file-processors/FileProcessor.js:2-4 | `process` is inherited, and so throws, on every class but the shapefile processor |
| ShapefileProcessor.FindIndex | src/file-processors/ShapefileProcessor.js:51 | the first index holding the same `(name, type)` pair, or -1 |
| ShapefileProcessor.KeepFirst | src/file-processors/ShapefileProcessor.js:47-52 | every kept field sits at the first index of its `(name, type)` pair |
| ShapefileProcessor.DedupKeepsOrder | src/file-processors/ShapefileProcessor.js:47-52 | the deduplicated fields are a subsequence of the header: order is kept |
| ShapefileProcessor.DedupUnique | src/file-processors/ShapefileProcessor.js:47-52 | no two kept fields share a `(name, type)` pair |
| ShapefileProcessor.DedupComplete | src/file-processors/ShapefileProcessor.js:47-52 | the first field of every pair in the header is kept |
| ShapefileProcessor.KeepFirstContains | src/file-processors/ShapefileProcessor.js:47-52 | a field at the first index of its pair is kept |
| ShapefileProcessor.FieldOf | src/file-processors/ShapefileProcessor.js:53-58 | name and length are copied; the type is "Number" iff the code is "N", "String" otherwise |
| ShapefileProcessor.MapFields | src/file-processors/ShapefileProcessor.js:53-59 | one schema entry per field, in order |
| ShapefileProcessor.GeometryTypeName | src/file-processors/ShapefileProcessor.js:61-75 | the table's entry, or "Geometry" exactly when the type is missing or not in the table |
| ShapefileProcessor.GeometryTypeNameIdempotent | src/file-processors/ShapefileProcessor.js:61-68 | looking up the table's own output changes nothing |
| ShapefileProcessor.Schema | src/file-processors/ShapefileProcessor.js:47-75 | the deduplicated fields, mapped and in order, followed by exactly one `geometry` field; length is the deduplicated count plus one |
| ShapefileProcessor.DuplicateStringFields | src/file-processors/ShapefileProcessor.js:47-59 | two fields `a` with codes `C` and `D` both survive as `a`/"String" |
| ShapefileProcessor.BaseNameHasNoSep | src/file-processors/ShapefileProcessor.js:20 | the file name is separator-free |
| ShapefileProcessor.FirstSegmentHasNoDot | src/file-processors/ShapefileProcessor.js:78 | the record name is dot-free |
| ShapefileProcessor.NameIsNotStem | src/file-processors/ShapefileProcessor.js:78 | the record name of `a.b.shp` is `a` while its grouping stem is `a.b` |
| ShapefileProcessor.SidecarPath | src/file-processors/ShapefileProcessor.js:36-43 | when `.shp` occurs only at the end, the sidecar path swaps the extension |
| ShapefileProcessor.SidecarInFolderName | src/file-processors/ShapefileProcessor.js:36 | for `d.shp/a.shp` the sidecar path is `d.sld/a.shp`: the first `.shp` of the whole path is replaced |
| ShapefileProcessor.Record | src/file-processors/ShapefileProcessor.js:18-89 | `open` and then `openDbf` errors propagate; otherwise the file name is the last path component, the name its text before the first dot, `hasSld` the sidecar flag, the schema the derived one, and the first read is present iff `options.geographicInfo` is true |
| ShapefileProcessor.Process | src/file-processors/ShapefileProcessor.js:18-89 | the record, with `hasSld` true iff the `.sld` path (first `.shp` replaced) exists |
| GeopackageProcessor.TypeForDataType | src/file-processors/GeopackageProcessor.js:91-93 | "Number" iff the data-type code is 1 to 8, "String" otherwise |
| GeopackageProcessor.GeometryTypeForIndex | src/file-processors/GeopackageProcessor.js:95-97 | defined iff the index is 0 to 6 |
| GeopackageProcessor.GeometryTypesFollowWkb | src/file-processors/GeopackageProcessor.js:6-14 | for codes 0 to 6 the table gives the name of section 8.2.3 of OGC 06-103r4 folded to its multi-part kind; other codes give nothing |
| GeopackageProcessor.ColumnField | src/file-processors/GeopackageProcessor.js:35-46 | a geometry column gives its geometry type and no length; any other column gives its data type and its maximum as length |
| GeopackageProcessor.GetSchemaFields | src/file-processors/GeopackageProcessor.js:22-50 | one entry per column of the first table, in column order, with no dedup; empty without a table |
| GeopackageProcessor.PropertiesContents | src/file-processors/GeopackageProcessor.js:71-77 | the properties hold every column name except the geometry column's, each with the value of the last cell of that name |
| GeopackageProcessor.RowProperties | src/file-processors/GeopackageProcessor.js:71-77 | the inner loop builds the row's properties |
| GeopackageProcessor.GetGeographicInfo | src/file-processors/GeopackageProcessor.js:52-89 | one "Feature" per row of the first table, in row order, with the row's geometry (none when absent) and its properties; empty without a table |
| Processor.OutputFolder | src/Processor.js:22-24 | the path ends in `output`, under the configured output path when it is set and non-empty, else under the input path |
| Processor.Shapefiles | src/Processor.js:67-73 | the listed names ending in `.shp`, in listing order |
| Processor.FolderInfoFails | src/Processor.js:64-76 | the folder's records fail iff some listed file's processing fails |
| Processor.GeopackageFolderFails | src/Processor.js:71 | any `.gpkg` in the folder makes phase 1 throw, since `process` is inherited |
| Processor.FolderInfoRecords | src/Processor.js:64-76 | on success, one record per listed shapefile, in listing order; other files are skipped |
| Processor.Phase2FirstTrueRegroups | src/Processor.js:38-47 | when the first `shouldZip` answer that is not false is true, the folder is regrouped |
| Processor.Phase2RegroupsOnFirstTrue | src/Processor.js:38-47 | the folder is regrouped only on the first `shouldZip` answer that is not false, and only when it is true, so at most once |
| Processor.Phase2NeverRegroups | src/Processor.js:40-41 | with the classes as written phase 2 never regroups; it passes iff no output file has a processor, and otherwise throws the base `shouldZip` error |
| Processor.Processor.constructor | src/Processor.js:10-17 | the given options as they are, the defaults only when none are given |
| Processor.Processor.GetFolderInfo | src/Processor.js:59-77 | ENOENT for a missing folder, otherwise the records of its listing or the first error |
| Processor.Processor.ProcessFile | src/Processor.js:68-72 | dispatches one listed file and processes it |
| Processor.Processor.ProcessFolder | src/Processor.js:19-52 | phase 1 reads the input folder itself and its errors propagate; phase 2 throws iff the output listing holds a file with a processor; the result is the phase-1 records; no folder changes, so `unzipFiles` is never called |
| Processor.ReorderOutput | src/Processor.js:37-49 | with the classes as written, lists the output folder (ENOENT if missing) and changes nothing |
| Processor.FolderInfoStaysFailed | src/Processor.js:67-74 | once a prefix of the listing fails, the whole listing fails with the same error |
| Processor.Phase2 | src/Processor.js:38-49 | for any `shouldZip`: a throwing answer ends phase 2 with its error; a first true answer regroups the folder once; otherwise nothing changes |

## Left out

- Sub-folders. Folders are flat, so:
  - folder members of an archive (src/utils/zipUtils.js:111-115) create nothing;
  - the `lstat` directory test of the final copy always holds;
  - Unzip.UnzipFiles: an output folder inside the source folder is not listed in the source folder. In the program, `mkdirSync` at src/utils/zipUtils.js:17 lists the output folder (by default `<input>/output`) in the source folder, where the `lstat` test keeps it from being copied and `firstFiles` keeps it from being deleted. The model's listings of the source folder lack that one name;
  - `unlinkSync` on a folder, and member names containing `/`, are outside the model.
- Unzip.UnzipFiles requires the source and output folders to differ; the call with one folder for both is not modelled.
- Errors are simplified:
  - Errors are message strings. The error class (`Error` with code `ENOENT`, `TypeError`) and the stack are not modelled.
  - A file where a folder is expected gives ENOENT instead of ENOTDIR.
  - Only the failure of `readdir` on a missing folder is modelled. Errors of `readFileSync`, `writeFileSync` and `copyFileSync` are not.
  - Unzip.Pass, Unzip.Expand, Unzip.UnzipFiles: `Archives.Codec.read` is total, so the rejection of a `.zip` whose bytes are not a valid archive (`JSZip.loadAsync` at src/utils/zipUtils.js:102) is not modelled. The program then throws in the middle of a pass: the output folder is already cleared or created, earlier extractions stay in the source folder, and the source folder is never cleared back to its first listing. `Unzip.UnzipFiles` promises `Ok` and the restored source folder for every archive content.
- Listing order:
  - A folder's listing is its initial order followed by the names created since, in creation order (`Files.Dir.Write` appends). Node's `readdir` sorts names by byte value on POSIX systems, so a name created during a call is listed in an order the program never sees.
  - Unzip.Pass, Unzip.Expand and Unzip.UnzippedOutput: from the second pass of `_unzipFilesRecursive` on, the model re-extracts the archives created during the run in creation order, not sorted order. That order decides which member's bytes win a name clash, and which bytes a partly overwritten archive holds when it is re-read, so these results can differ from the program's.
  - Unzip.CopyIntoEmpty, Unzip.UnzippedOutput, Regroup.RegroupedNames and Processor.FolderInfoRecords: the order of the final listings, and so of the output copies and the phase-1 records, follows creation order, not sorted order. The sets of names and their bytes do not depend on it.
  - `Object.keys` lists integer-like stems first; the model writes the archives in first-occurrence order. This only changes the order of archives in the listing.
- Object prototype keys in lookups other than the grouping dictionary:
  - The TYPES lookup of ShapefileProcessor.js:74 with a geometry type such as `constructor`.
  - A GeoPackage column named `__proto__` when properties are filled (GeopackageProcessor.js:75).
- Options are `Option` values. A non-boolean `geographicInfo` or a non-string `outputPath` (JavaScript truthiness) is not modelled.
- Feature data passes through `JSON.stringify` and `JSON.parse`. The model treats this as the identity.
- The shapefile library, `detectEncoding`, the GeoPackage library and `toGeoJSON` are parameters, or abstract tables and rows.
  - Only the first `read()` of a shapefile is taken, as in the code.
- JSZip compression is left out. Archive contents are stated only under `Archives.RoundTrips`, which covers plain member lists only.
- `async`/`await` is modelled as sequential execution. Logging is left out.
- `path.join` normalisation in `getAbsolutePath` is left out: a relative path is joined with a separator.
- `copyFile` and `detectEncoding` of src/utils/utils.js are I/O wrappers and are not part of this model.
- `Processor._processShapefile` (src/Processor.js:84-157) is not modelled separately. It repeats `ShapefileProcessor.process` with `this.options`, and nothing calls it.
- The factory's processors are shared singletons. This identity is not modelled because the processors hold no state.
- Dispatch of a hook to its class:
  - `Factory.ShouldZipOf` and `Factory.FileTypeOf` model the `shouldZip` and `getFileType` calls.
  - Inside `Processor.Processor.ProcessFile`, `process` is dispatched by an explicit test.
  - `open`, `getSchemaFields` and `getGeographicInfo` of the GeoPackage processor are not reachable from `processFolder`, because phase 1 throws first. They are modelled on their own (`GeopackageProcessor.GetSchemaFields`, `GeopackageProcessor.GetGeographicInfo`).
  - The GeoPackage processor's `open`, a file read followed by a foreign library call, is left out.
