/** Archive expansion: `unzipFiles` and `_unzipFilesRecursive` of
    src/utils/zipUtils.js over the flat file system of module Files.

    Each pass reads the source folder, extracts every `.zip` it lists INTO
    THE SOURCE FOLDER ITSELF, and records the archive's full path. A new pass
    starts while the source folder lists a `.zip` whose name is not the base
    name of a recorded path. The terminating pass copies every non-`.zip`
    entry to the output folder, and `unzipFiles` finally deletes from the
    source folder every name it did not list at the start.

    The skip test of a pass compares a bare listed name with the recorded
    FULL paths, which always contain a separator, so it never skips: every
    `.zip` is extracted again on every pass (PassRecordsEveryZip). Only the
    stop test compares base names. Termination is shown over a finite
    universe `u` of names that holds every listed name and every member name
    the codec can produce. */
module Unzip {
  import opened Wrappers
  import opened Strings
  import opened Files
  import opened Archives

  predicate IsZip(n: Name) {
    EndsWith(n, ".zip")
  }

  /** Lines 104-121: the members of one archive written into folder `d` in
      order; a later member overwrites an earlier one of the same name.
      Folder members create sub-folders, which a flat folder does not hold. */
  function ExtractEntries(d: Dir, es: seq<Entry>): (r: Dir)
    ensures d.Valid() ==> r.Valid()
    ensures d.names <= r.names
    ensures r.files.Keys == d.files.Keys + FileNames(es)
    decreases |es|
  {
    if es == [] then d
    else
      var e := es[|es| - 1];
      assert es == es[..|es| - 1] + [e];
      var r0 := ExtractEntries(d, es[..|es| - 1]);
      if e.isDir then r0 else r0.Write(e.name, e.data)
  }

  /** The bytes of the last file member of `es` named `n`, if any. */
  function LastFile(es: seq<Entry>, n: Name): Option<Bytes>
  {
    if es == [] then None
    else
      var e := es[|es| - 1];
      if !e.isDir && e.name == n then Some(e.data) else LastFile(es[..|es| - 1], n)
  }

  /** After an extraction every entry holds the bytes of the last member of
      that name, or, if no member has that name, the bytes it had before. */
  lemma {:induction false} ExtractedBytes(d: Dir, es: seq<Entry>, n: Name)
    requires n in ExtractEntries(d, es).files
    ensures LastFile(es, n).Some? ==> ExtractEntries(d, es).files[n] == LastFile(es, n).value
    ensures LastFile(es, n).None? ==> n in d.files && ExtractEntries(d, es).files[n] == d.files[n]
  {
    if es != [] {
      var e := es[|es| - 1];
      var init := es[..|es| - 1];
      if e.isDir || e.name != n {
        ExtractedBytes(d, init, n);
      }
    }
  }

  /** The body of the loop of lines 99-126 for one listed name `f`: a
      `.zip` whose name is not among the recorded paths is extracted and its
      full path recorded. */
  function ExtractStep(d: Dir, seen: seq<Path>, f: Name, src: Path, c: Codec): (r: (Dir, seq<Path>))
    requires IsZip(f) && f !in seen ==> f in d.files
    ensures d.files.Keys <= r.0.files.Keys && d.names <= r.0.names
    ensures d.Valid() ==> r.0.Valid()
  {
    if IsZip(f) && f !in seen then (ExtractEntries(d, c.read(d.files[f])), seen + [Join(src, f)])
    else (d, seen)
  }

  /** One pass (lines 97-126) over the listing `files` taken at its start. */
  function Pass(d: Dir, files: seq<Name>, seen: seq<Path>, src: Path, c: Codec): (r: (Dir, seq<Path>))
    requires forall f | f in files :: f in d.files
    ensures d.files.Keys <= r.0.files.Keys && d.names <= r.0.names
    ensures d.Valid() ==> r.0.Valid()
    decreases |files|
  {
    if files == [] then (d, seen)
    else
      var p := Pass(d, files[..|files| - 1], seen, src, c);
      ExtractStep(p.0, p.1, files[|files| - 1], src, c)
  }

  /** The full paths of the `.zip` names of `files`, in listing order. */
  function ZipPaths(src: Path, files: seq<Name>): seq<Path>
  {
    if files == [] then []
    else
      var f := files[|files| - 1];
      ZipPaths(src, files[..|files| - 1]) + (if IsZip(f) then [Join(src, f)] else [])
  }

  function ZipSet(files: seq<Name>): set<Name> {
    set f | f in files && IsZip(f)
  }

  /** Lines 133-135: the base names of the recorded paths. */
  function SeenNames(seen: seq<Path>): set<Name> {
    set p | p in seen :: BaseName(p)
  }

  /** Lines 130-136: the listed `.zip` names not among the recorded base
      names, in listing order. */
  function PendingZips(names: seq<Name>, seen: seq<Path>): (r: seq<Name>)
    ensures forall f :: f in r <==> f in names && IsZip(f) && f !in SeenNames(seen)
  {
    if names == [] then []
    else
      var f := names[|names| - 1];
      PendingZips(names[..|names| - 1], seen) + (if IsZip(f) && f !in SeenNames(seen) then [f] else [])
  }

  /** The universe `u`: names without a separator, closed under extraction. */
  ghost predicate Closed(c: Codec, u: set<Name>) {
    && (forall n | n in u :: Sep !in n)
    && (forall b: Bytes, e | e in c.read(b) && !e.isDir :: e.name in u)
  }

  /** A codec over the one-name universe {"a.shp"}: an archive is empty, or
      the marker byte 1 followed by the bytes of its one member. */
  function OneFileCodec(): Codec {
    Codec((b: Bytes) => if b == [] then [] else [Entry("a.shp", false, b[1..])],
          (es: seq<Entry>) => if es == [] then [] else [1 as byte] + es[0].data)
  }

  lemma PlainNames(es: seq<Entry>, u: set<Name>, i: nat, j: nat)
    requires Plain(es, u) && i < j < |es|
    ensures es[i].name in u && es[j].name in u && es[i].name != es[j].name
  {
    assert es[i] in es && es[j] in es;
  }

  /** The assumption of expansion (a closed universe) and that of
      regrouping (plain members read back as built) hold together. */
  lemma ClosedAndRoundTrips()
    ensures Closed(OneFileCodec(), {"a.shp"}) && RoundTrips(OneFileCodec(), {"a.shp"})
  {
    var c, u := OneFileCodec(), {"a.shp"};
    forall es: seq<Entry> | Plain(es, u) ensures c.read(c.build(es)) == es {
      if |es| >= 2 {
        PlainNames(es, u, 0, 1);
        assert false;
      }
      if es != [] {
        assert es == [Entry("a.shp", false, es[0].data)];
      }
    }
  }

  /** The state a pass starts from: a well-formed source folder whose names
      lie in `u`, and recorded paths that are full paths with base names in
      `u`. */
  ghost predicate Inv(d: Dir, seen: seq<Path>, c: Codec, u: set<Name>) {
    && d.Valid()
    && Closed(c, u)
    && d.files.Keys <= u
    && (forall p | p in seen :: Sep in p)
    && SeenNames(seen) <= u
  }

  /** Recording the full path of a listed name adds exactly that name to
      the recorded base names. */
  lemma RecordJoin(seen: seq<Path>, src: Path, f: Name)
    requires Sep !in f
    ensures SeenNames(seen + [Join(src, f)]) == SeenNames(seen) + {f}
    ensures Sep in Join(src, f)
  {
    JoinHasSep(src, f);
    BaseNameOfJoin(src, f);
    SeenNamesAppend(seen, [Join(src, f)]);
  }

  /** Extracting an archive keeps the folder's names inside a closed
      universe. */
  lemma ExtractWithin(d: Dir, b: Bytes, c: Codec, u: set<Name>)
    requires Closed(c, u) && d.files.Keys <= u
    ensures ExtractEntries(d, c.read(b)).files.Keys <= u
  {
    assert FileNames(c.read(b)) <= u;
  }

  /** One step of a pass keeps the invariant and records exactly the
      listed name when it is a `.zip`. */
  lemma ExtractStepRecords(d: Dir, seen: seq<Path>, f: Name, src: Path, c: Codec, u: set<Name>)
    requires Inv(d, seen, c, u) && f in d.files
    ensures f !in seen
    ensures ExtractStep(d, seen, f, src, c).1 == seen + (if IsZip(f) then [Join(src, f)] else [])
    ensures Inv(ExtractStep(d, seen, f, src, c).0, ExtractStep(d, seen, f, src, c).1, c, u)
  {
    assert Sep !in f;
    if IsZip(f) {
      ExtractWithin(d, d.files[f], c, u);
      RecordJoin(seen, src, f);
    }
  }

  lemma {:induction false} PassRecords(d: Dir, files: seq<Name>, seen: seq<Path>, src: Path, c: Codec, u: set<Name>)
    requires Inv(d, seen, c, u)
    requires forall f | f in files :: f in d.files
    ensures Pass(d, files, seen, src, c).1 == seen + ZipPaths(src, files)
    ensures Inv(Pass(d, files, seen, src, c).0, Pass(d, files, seen, src, c).1, c, u)
    decreases |files|
  {
    if files != [] {
      var init, f := files[..|files| - 1], files[|files| - 1];
      PassRecords(d, init, seen, src, c, u);
      var p := Pass(d, init, seen, src, c);
      assert f in p.0.files;
      ExtractStepRecords(p.0, p.1, f, src, c, u);
      ZipPathsSnoc(src, files);
    }
  }

  lemma ZipPathsSnoc(src: Path, files: seq<Name>)
    requires files != []
    ensures var f := files[|files| - 1];
      ZipPaths(src, files) == ZipPaths(src, files[..|files| - 1]) + (if IsZip(f) then [Join(src, f)] else [])
  {
  }

  /** Every `.zip` of the listing is extracted and recorded on every pass,
      whether or not it was extracted before: the skip test of line 100
      never holds. */
  lemma PassRecordsEveryZip(d: Dir, seen: seq<Path>, src: Path, c: Codec, u: set<Name>)
    requires Inv(d, seen, c, u)
    ensures Pass(d, d.names, seen, src, c).1 == seen + ZipPaths(src, d.names)
    ensures |ZipPaths(src, d.names)| == |ZipSet(d.names)|
  {
    PassRecords(d, d.names, seen, src, c, u);
    ZipPathsCount(src, d.names, u);
  }

  lemma {:induction false} ZipPathsCount(src: Path, files: seq<Name>, u: set<Name>)
    requires Distinct(files) && (forall f | f in files :: f in u) && (forall n | n in u :: Sep !in n)
    ensures |ZipPaths(src, files)| == |ZipSet(files)|
    ensures SeenNames(ZipPaths(src, files)) == ZipSet(files)
  {
    if files != [] {
      var init, f := files[..|files| - 1], files[|files| - 1];
      assert Distinct(init);
      ZipPathsCount(src, init, u);
      assert f !in init;
      if IsZip(f) {
        assert ZipSet(files) == ZipSet(init) + {f};
        assert f !in ZipSet(init);
        RecordJoin(ZipPaths(src, init), src, f);
      } else {
        assert ZipSet(files) == ZipSet(init);
      }
    } else {
      assert ZipSet(files) == {};
    }
  }

  lemma SeenNamesAppend(a: seq<Path>, b: seq<Path>)
    ensures SeenNames(a + b) == SeenNames(a) + SeenNames(b)
  {
  }

  /** Adding `z` to `a` inside `u` shrinks what is left of `u` exactly when
      `z` brings something new. */
  lemma GrowthCard(a: set<Name>, z: set<Name>, u: set<Name>)
    requires a <= u && z <= u
    ensures z - a != {} ==> |u - (a + z)| < |u - a|
    ensures z - a == {} ==> a + z == a
  {
    if z - a != {} {
      assert u - a == (u - (a + z)) + (z - a);
      assert (u - (a + z)) * (z - a) == {};
    } else {
      forall x | x in z ensures x in a {
        assert x !in z - a;
      }
    }
  }

  /** The pending `.zip` names are the listed `.zip` names not yet recorded. */
  lemma PendingIsZipSetMinus(names: seq<Name>, seen: seq<Path>)
    ensures PendingZips(names, seen) != [] <==> ZipSet(names) - SeenNames(seen) != {}
  {
    if PendingZips(names, seen) != [] {
      assert PendingZips(names, seen)[0] in ZipSet(names) - SeenNames(seen);
    } else {
      assert forall f | f in ZipSet(names) :: f in SeenNames(seen);
    }
  }

  /** A pass records the base names of exactly the listed `.zip` names. */
  lemma PassSeenNames(d: Dir, seen: seq<Path>, src: Path, c: Codec, u: set<Name>)
    requires Inv(d, seen, c, u)
    ensures Inv(Pass(d, d.names, seen, src, c).0, Pass(d, d.names, seen, src, c).1, c, u)
    ensures SeenNames(Pass(d, d.names, seen, src, c).1) == SeenNames(seen) + ZipSet(d.names)
  {
    PassRecords(d, d.names, seen, src, c, u);
    ZipPathsCount(src, d.names, u);
    SeenNamesAppend(seen, ZipPaths(src, d.names));
  }

  /** What a pass does to the measure of the recursion: the recorded base
      names grow by exactly the listed `.zip` names, so they grow strictly
      whenever a listed `.zip` was pending, and stay put otherwise. */
  lemma SeenGrows(d: Dir, seen: seq<Path>, src: Path, c: Codec, u: set<Name>)
    requires Inv(d, seen, c, u)
    ensures var p := Pass(d, d.names, seen, src, c);
      && Inv(p.0, p.1, c, u)
      && (PendingZips(d.names, seen) != [] ==> |u - SeenNames(p.1)| < |u - SeenNames(seen)|)
      && (PendingZips(d.names, seen) == [] ==> SeenNames(p.1) == SeenNames(seen))
  {
    PassSeenNames(d, seen, src, c, u);
    PendingIsZipSetMinus(d.names, seen);
    GrowthCard(SeenNames(seen), ZipSet(d.names), u);
  }

  /** `_unzipFilesRecursive` (lines 91-145) as a function of the source
      folder: passes repeat while a listed `.zip` is pending. Returns the
      source folder after the last pass and the recorded paths. */
  ghost function Expand(d: Dir, seen: seq<Path>, src: Path, c: Codec, u: set<Name>): (r: (Dir, seq<Path>))
    requires Inv(d, seen, c, u)
    ensures Inv(r.0, r.1, c, u)
    ensures PendingZips(r.0.names, r.1) == []
    ensures d.names <= r.0.names
    decreases |u - SeenNames(seen)|, if PendingZips(d.names, seen) == [] then 1 else 0
  {
    SeenGrows(d, seen, src, c, u);
    var p := Pass(d, d.names, seen, src, c);
    if PendingZips(p.0.names, p.1) != [] then Expand(p.0, p.1, src, c, u) else p
  }

  /** Lines 149-159: every non-`.zip` name of `names` copied from folder
      `d` into folder `out`, in order. */
  function CopyNonZip(out: Dir, names: seq<Name>, d: Dir): (r: Dir)
    requires forall n | n in names :: n in d.files
    ensures out.Valid() ==> r.Valid()
    decreases |names|
  {
    if names == [] then out
    else
      var o := CopyNonZip(out, names[..|names| - 1], d);
      var f := names[|names| - 1];
      if IsZip(f) then o else o.Write(f, d.files[f])
  }

  /** The non-`.zip` names of `names`, in order. */
  function NonZip(names: seq<Name>): (r: seq<Name>)
    ensures forall n :: n in r <==> n in names && !IsZip(n)
  {
    if names == [] then []
    else
      var f := names[|names| - 1];
      NonZip(names[..|names| - 1]) + (if IsZip(f) then [] else [f])
  }

  /** Copying into an empty output folder yields exactly the non-`.zip`
      entries of the source, in listing order, with their bytes; no `.zip`
      is ever copied. */
  lemma {:induction false} CopyIntoEmpty(names: seq<Name>, d: Dir)
    requires Distinct(names) && forall n | n in names :: n in d.files
    ensures CopyNonZip(EmptyDir, names, d).names == NonZip(names)
    ensures CopyNonZip(EmptyDir, names, d).files == map n | n in names && !IsZip(n) :: d.files[n]
  {
    if names != [] {
      var init, f := names[..|names| - 1], names[|names| - 1];
      assert Distinct(init);
      CopyIntoEmpty(init, d);
      assert f !in init;
    }
  }

  /** `unzipFiles` (lines 10-33) once the output folder is empty and the
      source folder `dirs[src]` was read: the expanded source folder's
      non-`.zip` entries are copied to the output folder, then the source
      folder is cleared of every name it did not list at the start. */
  ghost function Unzipped(dirs: map<Path, Dir>, src: Path, out: Path, c: Codec, u: set<Name>): map<Path, Dir>
    requires src in dirs && Inv(dirs[src], [], c, u)
  {
    var e := Expand(dirs[src], [], src, c, u);
    dirs[out := CopyNonZip(EmptyDir, e.0.names, e.0)][src := e.0.Keep(dirs[src].names)]
  }

  /** What `unzipFiles` leaves in the output folder: exactly the non-`.zip`
      entries of the fully expanded source folder, in listing order and
      with their bytes, and never a `.zip`. */
  lemma UnzippedOutput(dirs: map<Path, Dir>, src: Path, out: Path, c: Codec, u: set<Name>)
    requires src in dirs && Inv(dirs[src], [], c, u) && src != out
    ensures var e := Expand(dirs[src], [], src, c, u);
      var r := Unzipped(dirs, src, out, c, u);
      && PendingZips(e.0.names, e.1) == []
      && r[out].names == NonZip(e.0.names)
      && r[out].files == (map n | n in e.0.names && !IsZip(n) :: e.0.files[n])
      && (forall n | n in r[out].files :: !IsZip(n))
  {
    var e := Expand(dirs[src], [], src, c, u);
    CopyIntoEmpty(e.0.names, e.0);
  }

  /** What `unzipFiles` leaves in the source folder: exactly the listing it
      had at the start. The entries keep the bytes they had after
      expansion, so an original file that an archive member of the same
      name overwrote keeps the member's bytes. */
  lemma UnzippedSource(dirs: map<Path, Dir>, src: Path, out: Path, c: Codec, u: set<Name>)
    requires src in dirs && Inv(dirs[src], [], c, u) && src != out
    ensures var e := Expand(dirs[src], [], src, c, u);
      var r := Unzipped(dirs, src, out, c, u);
      && r[src].names == dirs[src].names
      && r[src].files.Keys == dirs[src].files.Keys
      && (forall n | n in r[src].files :: r[src].files[n] == e.0.files[n])
  {
    var d := dirs[src];
    var e := Expand(d, [], src, c, u);
    assert Unzipped(dirs, src, out, c, u)[src] == e.0.Keep(d.names);
    KeepOwnPrefix(e.0, d);
  }

  /** Clearing a grown folder back to its first listing leaves exactly
      that listing, with the grown folder's bytes. */
  lemma KeepOwnPrefix(e: Dir, d: Dir)
    requires e.Valid() && d.Valid() && d.names <= e.names
    ensures e.Keep(d.names).names == d.names
    ensures e.Keep(d.names).files.Keys == d.files.Keys
    ensures forall n | n in e.Keep(d.names).files :: e.Keep(d.names).files[n] == e.files[n]
  {
    var rest := e.names[|d.names|..];
    assert e.names == d.names + rest;
    FilterOwnPrefix(d.names, rest);
    KeepContents(e, d.names);
  }

  /** `unzipFiles` changes no folder but the source and the output folder. */
  lemma UnzippedFrame(dirs: map<Path, Dir>, src: Path, out: Path, c: Codec, u: set<Name>)
    requires src in dirs && Inv(dirs[src], [], c, u)
    ensures var r := Unzipped(dirs, src, out, c, u);
      && r.Keys == dirs.Keys + {out}
      && (forall p | p in dirs && p != src && p != out :: r[p] == dirs[p])
  {
  }

  /** What the output folder held before does not matter. */
  lemma UnzippedIgnoresOut(dirs: map<Path, Dir>, src: Path, out: Path, c: Codec, u: set<Name>, x: Dir)
    requires src in dirs && Inv(dirs[src], [], c, u) && src != out
    ensures Unzipped(dirs[out := x], src, out, c, u) == Unzipped(dirs, src, out, c, u)
  {
    assert dirs[out := x][src] == dirs[src];
  }

  lemma UpdateSwap<K, V>(m: map<K, V>, a: K, b: K, x: V, y: V, z: V)
    requires a != b
    ensures m[a := x][b := y][a := z] == m[b := y][a := z]
  {
  }

  /** Lines 104-121 on the live file system: the members of one archive are
      written into folder `dir` one after the other. */
  method ExtractInto(fs: FileSystem, dir: Path, es: seq<Entry>)
    requires dir in fs.dirs
    modifies fs
    ensures fs.dirs == old(fs.dirs)[dir := ExtractEntries(old(fs.dirs)[dir], es)]
  {
    ghost var d0 := fs.dirs[dir];
    var i := 0;
    while i < |es|
      invariant 0 <= i <= |es|
      invariant fs.dirs == old(fs.dirs)[dir := ExtractEntries(d0, es[..i])]
    {
      var e := es[i];
      assert es[..i + 1][..i] == es[..i];
      if !e.isDir {
        UpdateTwice(old(fs.dirs), dir, ExtractEntries(d0, es[..i]), ExtractEntries(d0, es[..i + 1]));
        fs.dirs := fs.dirs[dir := fs.dirs[dir].Write(e.name, e.data)];
      }
      i := i + 1;
    }
    assert es[..i] == es;
  }

  /** Lines 97-126: one pass over the listing `files` of folder `src`,
      extracting every `.zip` not yet recorded and recording its full
      path. */
  method ExtractPass(fs: FileSystem, src: Path, files: seq<Name>, prev: seq<Path>, c: Codec) returns (seen: seq<Path>)
    requires src in fs.dirs && forall f | f in files :: f in fs.dirs[src].files
    modifies fs
    ensures fs.dirs == old(fs.dirs)[src := Pass(old(fs.dirs)[src], files, prev, src, c).0]
    ensures seen == Pass(old(fs.dirs)[src], files, prev, src, c).1
  {
    ghost var d0 := fs.dirs[src];
    seen := prev;
    var i := 0;
    while i < |files|
      invariant 0 <= i <= |files|
      invariant fs.dirs == old(fs.dirs)[src := Pass(d0, files[..i], prev, src, c).0]
      invariant seen == Pass(d0, files[..i], prev, src, c).1
    {
      var f := files[i];
      assert files[..i + 1][..i] == files[..i];
      if IsZip(f) && f !in seen {
        var zipped := fs.dirs[src].files[f];
        ExtractInto(fs, src, c.read(zipped));
        UpdateTwice(old(fs.dirs), src, Pass(d0, files[..i], prev, src, c).0, Pass(d0, files[..i + 1], prev, src, c).0);
        seen := seen + [Join(src, f)];
      }
      i := i + 1;
    }
    assert files[..i] == files;
  }

  /** Lines 149-159: the non-`.zip` names of `names` copied from folder
      `src` to folder `out`. */
  method CopyFiles(fs: FileSystem, src: Path, out: Path, names: seq<Name>)
    requires src in fs.dirs && out in fs.dirs && src != out
    requires forall n | n in names :: n in fs.dirs[src].files
    modifies fs
    ensures fs.dirs == old(fs.dirs)[out := CopyNonZip(old(fs.dirs)[out], names, old(fs.dirs)[src])]
  {
    ghost var o0, d := fs.dirs[out], fs.dirs[src];
    var i := 0;
    while i < |names|
      invariant 0 <= i <= |names|
      invariant fs.dirs == old(fs.dirs)[out := CopyNonZip(o0, names[..i], d)]
    {
      var f := names[i];
      assert names[..i + 1][..i] == names[..i];
      if !IsZip(f) {
        UpdateTwice(old(fs.dirs), out, CopyNonZip(o0, names[..i], d), CopyNonZip(o0, names[..i + 1], d));
        fs.dirs := fs.dirs[out := fs.dirs[out].Write(f, fs.dirs[src].files[f])];
      }
      i := i + 1;
    }
    assert names[..i] == names;
  }

  /** `_unzipFilesRecursive` (lines 91-161): passes until no listed `.zip`
      is pending, then the final listing's non-`.zip` entries are copied to
      the output folder. Returns the recorded paths. */
  method UnzipRecursive(fs: FileSystem, src: Path, out: Path, prev: seq<Path>, c: Codec, ghost u: set<Name>)
      returns (seen: seq<Path>)
    requires src in fs.dirs && out in fs.dirs && src != out
    requires Inv(fs.dirs[src], prev, c, u)
    modifies fs
    ensures var e := Expand(old(fs.dirs)[src], prev, src, c, u);
      && fs.dirs == old(fs.dirs)[src := e.0][out := CopyNonZip(old(fs.dirs)[out], e.0.names, e.0)]
      && seen == e.1
    decreases |u - SeenNames(prev)|, if PendingZips(fs.dirs[src].names, prev) == [] then 1 else 0
  {
    ghost var d := fs.dirs[src];
    var listing := fs.ReadDir(src);
    var files := listing.value;
    SeenGrows(d, prev, src, c, u);
    seen := ExtractPass(fs, src, files, prev, c);
    ghost var mid := fs.dirs;
    var after := fs.ReadDir(src);
    var filesAfter := after.value;
    if PendingZips(filesAfter, seen) != [] {
      seen := UnzipRecursive(fs, src, out, seen, c, u);
      UpdateTwice(old(fs.dirs), src, mid[src], fs.dirs[src]);
    } else {
      CopyFiles(fs, src, out, filesAfter);
    }
  }

  /** Lines 16-21: a missing output folder is created; an existing one is
      emptied, which throws when the path names a file. */
  method PrepareOutput(fs: FileSystem, out: Path) returns (r: Result<()>)
    requires out in fs.dirs ==> fs.dirs[out].Valid()
    modifies fs
    ensures old(fs.Exists(out)) && out !in old(fs.dirs) ==>
      r == Err(NoSuchEntry(out)) && fs.dirs == old(fs.dirs)
    ensures !old(fs.Exists(out)) || out in old(fs.dirs) ==>
      r.Ok? && fs.dirs == old(fs.dirs)[out := EmptyDir]
  {
    if !fs.Exists(out) {
      fs.dirs := fs.dirs[out := EmptyDir];
      r := Ok(());
    } else {
      KeepNothing(if out in fs.dirs then fs.dirs[out] else EmptyDir);
      r := fs.ClearFolder(out, []);
    }
  }

  /** Lines 27-30: the source folder listing `firstFiles` is expanded into
      the empty output folder and then cleared back to that listing. */
  method ExpandAndRestore(fs: FileSystem, src: Path, out: Path, firstFiles: seq<Name>, c: Codec, ghost u: set<Name>)
    requires src in fs.dirs && out in fs.dirs && src != out
    requires fs.dirs[out] == EmptyDir && firstFiles == fs.dirs[src].names
    requires Closed(c, u) && fs.dirs[src].Valid() && fs.dirs[src].files.Keys <= u
    modifies fs
    ensures Inv(old(fs.dirs)[src], [], c, u)
    ensures fs.dirs == Unzipped(old(fs.dirs), src, out, c, u)
  {
    assert SeenNames([]) == {};
    ghost var e := Expand(fs.dirs[src], [], src, c, u);
    var _ := UnzipRecursive(fs, src, out, [], c, u);
    var _ := fs.ClearFolder(src, firstFiles);
    UpdateSwap(old(fs.dirs), src, out, e.0, CopyNonZip(EmptyDir, e.0.names, e.0), e.0.Keep(firstFiles));
  }

  /** `unzipFiles(folderPath, outputFolder)` (lines 10-33): the output
      folder is created, or emptied when it exists; the source folder is
      read, expanded and copied out, and finally cleared of everything it
      did not list at the start. A missing source folder throws after the
      output folder was prepared. */
  method UnzipFiles(fs: FileSystem, src: Path, out: Path, c: Codec, ghost u: set<Name>) returns (r: Result<()>)
    requires src != out && Closed(c, u)
    requires src in fs.dirs ==> fs.dirs[src].Valid() && fs.dirs[src].files.Keys <= u
    requires out in fs.dirs ==> fs.dirs[out].Valid()
    modifies fs
    ensures old(fs.Exists(out)) && out !in old(fs.dirs) ==>
      r == Err(NoSuchEntry(out)) && fs.dirs == old(fs.dirs)
    ensures (!old(fs.Exists(out)) || out in old(fs.dirs)) && src !in old(fs.dirs) ==>
      r == Err(NoSuchEntry(src)) && fs.dirs == old(fs.dirs)[out := EmptyDir]
    ensures (!old(fs.Exists(out)) || out in old(fs.dirs)) && src in old(fs.dirs) ==>
      r == Ok(()) && Inv(old(fs.dirs)[src], [], c, u) && fs.dirs == Unzipped(old(fs.dirs), src, out, c, u)
  {
    ghost var d0 := fs.dirs;
    r := PrepareOutput(fs, out);
    if r.Err? {
      return;
    }
    assert fs.dirs == d0[out := EmptyDir];
    var first := fs.ReadDir(src);
    if first.Err? {
      return Err(first.message);
    }
    assert fs.dirs[src] == d0[src];
    ExpandAndRestore(fs, src, out, first.value, c, u);
    UnzippedIgnoresOut(d0, src, out, c, u, EmptyDir);
    r := Ok(());
  }
}
