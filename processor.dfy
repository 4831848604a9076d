/** src/Processor.js: the entry point. Phase 1 turns every file of the
    input folder that has a processor into a record, in listing order;
    phase 2 asks each file of the output folder's processor whether the
    folder should be regrouped into archives. */
module Processor {
  import opened Wrappers
  import opened Strings
  import opened Files
  import opened Archives
  import opened FileProcessor
  import opened Factory
  import opened ShapefileProcessor
  import Regroup

  /** Lines 11-16: the options used when the constructor gets none. */
  const DefaultOptions: Options := Options(Some("auto"), Some(true), Some(true), None)

  /** Lines 22-24: the folder the output is looked for in, `output` under
      the configured output path when it is set and non-empty, else under
      the input path. */
  function OutputFolder(inputPath: Path, options: Options): (r: Path)
    ensures BaseName(r) == "output"
    ensures options.outputPath.None? || options.outputPath == Some("") ==> DirName(r) == inputPath
    ensures options.outputPath.Some? && options.outputPath != Some("") ==> DirName(r) == options.outputPath.value
  {
    var base := if options.outputPath.Some? && options.outputPath.value != "" then options.outputPath.value else inputPath;
    BaseNameOfJoin(base, "output");
    Join(base, "output")
  }

  /** What lines 68-72 add to the records for one listed file: nothing
      without a processor, the shapefile record, or the inherited `process`
      hook's error for a GeoPackage. */
  function FileRecords(dirs: map<Path, Dir>, folder: Path, file: Name, options: Options, lib: ShapefileLib)
    : Result<seq<ShapefileRecord>>
  {
    match ProcessorFor(file)
    case None => Ok([])
    case Some(k) =>
      if k == ShapefileKind then
        var rec :- ShapefileAt(dirs, folder, file, options, lib);
        Ok([rec])
      else Err(BaseHook(Process).message)
  }

  /** `process` of the shapefile processor on `folder/file`. */
  function ShapefileAt(dirs: map<Path, Dir>, folder: Path, file: Name, options: Options, lib: ShapefileLib)
    : Result<ShapefileRecord>
  {
    var path := Join(folder, file);
    Record(path, options, lib, PathExists(dirs, ReplaceFirst(path, ".shp", ".sld")))
  }

  /** Lines 64-76 as a function of the listing: the records of the files in
      order, or the first error. */
  function FolderInfo(dirs: map<Path, Dir>, folder: Path, files: seq<Name>, options: Options, lib: ShapefileLib)
    : Result<seq<ShapefileRecord>>
  {
    if files == [] then Ok([])
    else
      var prev :- FolderInfo(dirs, folder, files[..|files| - 1], options, lib);
      var more :- FileRecords(dirs, folder, files[|files| - 1], options, lib);
      Ok(prev + more)
  }

  /** The listed shapefiles, in listing order. */
  function Shapefiles(files: seq<Name>): (r: seq<Name>)
    ensures forall n :: n in r <==> n in files && EndsWith(n, ".shp")
  {
    if files == [] then []
    else
      var last := files[|files| - 1];
      Shapefiles(files[..|files| - 1]) + (if EndsWith(last, ".shp") then [last] else [])
  }

  /** A folder fails exactly when one of its files does. */
  lemma {:induction false} FolderInfoFails(dirs: map<Path, Dir>, folder: Path, files: seq<Name>, options: Options, lib: ShapefileLib)
    ensures FolderInfo(dirs, folder, files, options, lib).Ok? <==>
      forall i | 0 <= i < |files| :: FileRecords(dirs, folder, files[i], options, lib).Ok?
  {
    if files != [] {
      var init := files[..|files| - 1];
      FolderInfoFails(dirs, folder, init, options, lib);
      assert forall i | 0 <= i < |init| :: init[i] == files[i];
    }
  }

  /** A folder holding a GeoPackage fails, since its processor inherits
      `process`. */
  lemma GeopackageFolderFails(dirs: map<Path, Dir>, folder: Path, files: seq<Name>, options: Options, lib: ShapefileLib)
    requires exists i | 0 <= i < |files| :: EndsWith(files[i], ".gpkg")
    ensures FolderInfo(dirs, folder, files, options, lib).Err?
  {
    var i :| 0 <= i < |files| && EndsWith(files[i], ".gpkg");
    assert FileRecords(dirs, folder, files[i], options, lib).Err?;
    FolderInfoFails(dirs, folder, files, options, lib);
  }

  /** On success the records are those of the listed shapefiles, one each,
      in listing order. */
  lemma {:induction false} FolderInfoRecords(dirs: map<Path, Dir>, folder: Path, files: seq<Name>, options: Options, lib: ShapefileLib)
    requires FolderInfo(dirs, folder, files, options, lib).Ok?
    ensures var rs := FolderInfo(dirs, folder, files, options, lib).value;
      var shps := Shapefiles(files);
      |rs| == |shps| && forall j | 0 <= j < |rs| :: Ok(rs[j]) == ShapefileAt(dirs, folder, shps[j], options, lib)
  {
    if files != [] {
      var init, f := files[..|files| - 1], files[|files| - 1];
      FolderInfoRecords(dirs, folder, init, options, lib);
      var rs := FolderInfo(dirs, folder, files, options, lib).value;
      var prev := FolderInfo(dirs, folder, init, options, lib).value;
      var more := FileRecords(dirs, folder, f, options, lib).value;
      assert rs == prev + more;
      FileRecordsOfName(dirs, folder, f, options, lib);
      var shps, shps0 := Shapefiles(files), Shapefiles(init);
      assert shps == shps0 + (if EndsWith(f, ".shp") then [f] else []);
      forall j | 0 <= j < |rs|
        ensures Ok(rs[j]) == ShapefileAt(dirs, folder, shps[j], options, lib)
      {
        if j < |prev| {
          assert rs[j] == prev[j] && shps[j] == shps0[j];
        }
      }
    }
  }

  /** The records of one listed file: its shapefile record, or none. */
  lemma FileRecordsOfName(dirs: map<Path, Dir>, folder: Path, f: Name, options: Options, lib: ShapefileLib)
    requires FileRecords(dirs, folder, f, options, lib).Ok?
    ensures EndsWith(f, ".shp") ==>
      FileRecords(dirs, folder, f, options, lib).value == [ShapefileAt(dirs, folder, f, options, lib).value]
    ensures !EndsWith(f, ".shp") ==> FileRecords(dirs, folder, f, options, lib).value == []
  {
  }

  /** What one output file's processor answers to `shouldZip()`: a file
      without a processor is skipped (`Ok(false)`). */
  function Answer(file: Name, shouldZip: Kind -> Result<bool>): Result<bool> {
    match ProcessorFor(file)
    case None => Ok(false)
    case Some(k) => shouldZip(k)
  }

  /** Lines 38-49 as a function of the listing and of the `shouldZip`
      method each class provides: the first answer that is not `false`,
      where `Ok(true)` means the folder is regrouped and the loop ends. */
  function Phase2Decision(files: seq<Name>, shouldZip: Kind -> Result<bool>): Result<bool> {
    if files == [] then Ok(false)
    else
      var a := Answer(files[0], shouldZip);
      if a == Ok(false) then Phase2Decision(files[1..], shouldZip) else a
  }

  /** A first answer that is not `false` and is `true` regroups the
      folder... */
  lemma {:induction false} Phase2FirstTrueRegroups(files: seq<Name>, shouldZip: Kind -> Result<bool>, i: nat)
    requires i < |files| && Answer(files[i], shouldZip) == Ok(true)
    requires forall k | 0 <= k < i :: Answer(files[k], shouldZip) == Ok(false)
    ensures Phase2Decision(files, shouldZip) == Ok(true)
  {
    if i > 0 {
      assert forall k | 0 <= k < i - 1 :: files[1..][k] == files[k + 1];
      Phase2FirstTrueRegroups(files[1..], shouldZip, i - 1);
    }
  }

  /** ... and a regrouping has such an answer: the folder is regrouped
      only on the first answer that is not `false`, when it is `true`. */
  lemma {:induction false} Phase2RegroupsOnFirstTrue(files: seq<Name>, shouldZip: Kind -> Result<bool>)
    requires Phase2Decision(files, shouldZip) == Ok(true)
    ensures exists i | 0 <= i < |files| ::
      (Answer(files[i], shouldZip) == Ok(true) && forall k | 0 <= k < i :: Answer(files[k], shouldZip) == Ok(false))
  {
    if Answer(files[0], shouldZip) == Ok(false) {
      Phase2RegroupsOnFirstTrue(files[1..], shouldZip);
      var i :| 0 <= i < |files[1..]| && Answer(files[1..][i], shouldZip) == Ok(true)
        && forall k | 0 <= k < i :: Answer(files[1..][k], shouldZip) == Ok(false);
      assert files[1..][i] == files[i + 1];
      assert forall k | 1 <= k < i + 1 :: files[k] == files[1..][k - 1];
    } else {
      assert Answer(files[0], shouldZip) == Ok(true);
    }
  }

  /** With the classes as written, phase 2 never regroups: it ends without
      error exactly when no output file has a processor, and otherwise
      fails with the inherited `shouldZip` hook's error. */
  lemma {:induction false} Phase2NeverRegroups(files: seq<Name>)
    ensures Phase2Decision(files, ShouldZipOf) != Ok(true)
    ensures Phase2Decision(files, ShouldZipOf) == Ok(false) <==>
      forall i | 0 <= i < |files| :: ProcessorFor(files[i]).None?
    ensures Phase2Decision(files, ShouldZipOf).Err? ==>
      Phase2Decision(files, ShouldZipOf).message == BaseHook(ShouldZip).message
  {
    if files != [] {
      Phase2NeverRegroups(files[1..]);
      assert forall i | 1 <= i < |files| :: files[i] == files[1..][i - 1];
    }
  }

  /** The entry point: a processor holds the options it was built with. */
  class Processor {
    var options: Options

    /** Lines 10-17: the given options as they are, the defaults when none
        are given. */
    constructor (given: Option<Options>)
      ensures given.Some? ==> options == given.value
      ensures given.None? ==> options == DefaultOptions
    {
      if given.Some? {
        options := given.value;
      } else {
        options := DefaultOptions;
      }
    }

    /** `getFolderInfo(folderPath)` (lines 59-77): a missing folder fails
        to be read; otherwise the records of its listing, or the first
        error a file's processor throws. */
    method GetFolderInfo(fs: FileSystem, folderPath: Path, cwd: Path, lib: ShapefileLib)
        returns (r: Result<seq<ShapefileRecord>>)
      ensures var abs := GetAbsolutePath(folderPath, cwd);
        && (abs !in fs.dirs ==> r == Err(NoSuchEntry(abs)))
        && (abs in fs.dirs ==> r == FolderInfo(fs.dirs, abs, fs.dirs[abs].names, options, lib))
    {
      var absolutePath := GetAbsolutePath(folderPath, cwd);
      var content: seq<ShapefileRecord> := [];
      var listing := fs.ReadDir(absolutePath);
      if listing.Err? {
        return Err(listing.message);
      }
      var files := listing.value;
      var i := 0;
      while i < |files|
        invariant 0 <= i <= |files|
        invariant FolderInfo(fs.dirs, absolutePath, files[..i], options, lib) == Ok(content)
      {
        var file := files[i];
        assert files[..i + 1][..i] == files[..i] && files[..i + 1][i] == file;
        var fileContent := ProcessFile(fs, absolutePath, file, lib);
        if fileContent.Err? {
          FolderInfoStaysFailed(fs.dirs, absolutePath, files, i + 1, options, lib);
          return Err(fileContent.message);
        }
        content := content + fileContent.value;
        i := i + 1;
      }
      assert files[..i] == files;
      r := Ok(content);
    }

    /** Lines 68-72 for one listed file: dispatch on its name, then call
        `process` on the processor found. */
    method ProcessFile(fs: FileSystem, folder: Path, file: Name, lib: ShapefileLib)
        returns (r: Result<seq<ShapefileRecord>>)
      ensures r == FileRecords(fs.dirs, folder, file, options, lib)
    {
      r := Ok([]);
      var fileProcessor := ProcessorFor(file);
      if fileProcessor.Some? {
        var filePath := Join(folder, file);
        if fileProcessor.value == ShapefileKind {
          var fileContent := ShapefileProcessor.Process(fs, filePath, options, lib);
          if fileContent.Err? {
            return Err(fileContent.message);
          }
          r := Ok([fileContent.value]);
        } else {
          r := Err(BaseHook(Process).message);
        }
      }
    }

    /** `processFolder(inputPath)` (lines 19-52). Phase 1 reads the input
        folder itself; phase 2 lists the output folder and, with the
        classes as written, either fails on the first file that has a
        processor or leaves the output folder alone. The folders are never
        changed and the result is the phase-1 records. */
    method ProcessFolder(fs: FileSystem, inputPath: Path, cwd: Path, lib: ShapefileLib, c: Codec)
        returns (r: Result<seq<ShapefileRecord>>)
      requires IsAbsolute(cwd) && fs.Valid()
      modifies fs
      ensures fs.dirs == old(fs.dirs)
      ensures var input := GetAbsolutePath(inputPath, cwd);
        var output := GetAbsolutePath(OutputFolder(inputPath, options), cwd);
        && (input !in fs.dirs ==> r == Err(NoSuchEntry(input)))
        && (input in fs.dirs ==>
          var res := FolderInfo(fs.dirs, input, fs.dirs[input].names, options, lib);
          && (res.Err? ==> r == res)
          && (res.Ok? && output !in fs.dirs ==> r == Err(NoSuchEntry(output)))
          && (res.Ok? && output in fs.dirs ==>
            (if forall i | 0 <= i < |fs.dirs[output].names| :: ProcessorFor(fs.dirs[output].names[i]).None?
             then r == res
             else r == Err(BaseHook(ShouldZip).message))))
    {
      var inputPathAbsolute := GetAbsolutePath(inputPath, cwd);
      var outCalc := OutputFolder(inputPath, options);
      var outputPathAbsolute := GetAbsolutePath(outCalc, cwd);
      AbsolutePathIsStable(inputPath, cwd);
      var res := GetFolderInfo(fs, inputPathAbsolute, cwd, lib);
      if res.Err? {
        return res;
      }
      var phase2 := ReorderOutput(fs, outputPathAbsolute, c);
      if phase2.Err? {
        return Err(phase2.message);
      }
      r := res;
    }
  }

  /** Lines 37-49 with the classes as written: list the output folder and
      run phase 2 over it with each class's own `shouldZip`. */
  method ReorderOutput(fs: FileSystem, out: Path, c: Codec) returns (r: Result<()>)
    requires fs.Valid()
    modifies fs
    ensures fs.dirs == old(fs.dirs)
    ensures out !in fs.dirs ==> r == Err(NoSuchEntry(out))
    ensures out in fs.dirs ==>
      if forall i | 0 <= i < |fs.dirs[out].names| :: ProcessorFor(fs.dirs[out].names[i]).None?
      then r == Ok(())
      else r == Err(BaseHook(ShouldZip).message)
  {
    var files := fs.ReadDir(out);
    if files.Err? {
      return Err(files.message);
    }
    Phase2NeverRegroups(files.value);
    ghost var d := Phase2Decision(files.value, ShouldZipOf);
    assert d.Ok? ==> d == Ok(d.value) && !d.value;
    r := Phase2(fs, out, files.value, ShouldZipOf, c);
  }

  /** Once the records of a prefix fail, the records of the whole listing
      fail with the same error. */
  lemma {:induction false} FolderInfoStaysFailed(dirs: map<Path, Dir>, folder: Path, files: seq<Name>, n: nat, options: Options, lib: ShapefileLib)
    requires n <= |files| && FolderInfo(dirs, folder, files[..n], options, lib).Err?
    ensures FolderInfo(dirs, folder, files, options, lib) == FolderInfo(dirs, folder, files[..n], options, lib)
    decreases |files| - n
  {
    if n < |files| {
      assert files[..n + 1][..n] == files[..n];
      FolderInfoStaysFailed(dirs, folder, files, n + 1, options, lib);
    } else {
      assert files[..n] == files;
    }
  }

  /** Lines 37-49 after the listing: ask each file's processor, through
      `shouldZip`, in order; regroup the folder and stop at the first
      `true`; a throwing `shouldZip` ends phase 2 with its error. */
  method Phase2(fs: FileSystem, out: Path, files: seq<Name>, shouldZip: Kind -> Result<bool>, c: Codec)
      returns (r: Result<()>)
    requires out in fs.dirs ==> fs.dirs[out].Valid()
    modifies fs
    ensures var d := Phase2Decision(files, shouldZip);
      && (d.Err? ==> r == Err(d.message) && fs.dirs == old(fs.dirs))
      && (d == Ok(false) ==> r == Ok(()) && fs.dirs == old(fs.dirs))
    ensures Phase2Decision(files, shouldZip) == Ok(true) ==>
      && (out !in old(fs.dirs) ==> r == Err(NoSuchEntry(out)) && fs.dirs == old(fs.dirs))
      && (out in old(fs.dirs) ==>
        var g := Regroup.Regrouped(old(fs.dirs)[out], c);
        && (g.Err? ==> r == Err(g.message) && fs.dirs == old(fs.dirs))
        && (g.Ok? ==> r == Ok(()) && fs.dirs == old(fs.dirs)[out := g.value]))
  {
    var i := 0;
    while i < |files|
      invariant 0 <= i <= |files|
      invariant Phase2Decision(files, shouldZip) == Phase2Decision(files[i..], shouldZip)
      invariant fs.dirs == old(fs.dirs)
    {
      var file := files[i];
      assert files[i..][0] == file && files[i..][1..] == files[i + 1..];
      var fileProcessor := ProcessorFor(file);
      if fileProcessor.Some? {
        var answer := shouldZip(fileProcessor.value);
        if answer.Err? {
          return Err(answer.message);
        }
        if answer.value {
          var zipped := Regroup.ZipFilesGroupByShapefile(fs, out, c);
          if zipped.Err? {
            return Err(zipped.message);
          }
          return Ok(());
        }
      }
      i := i + 1;
    }
    r := Ok(());
  }
}
