/** A flat, in-memory file system: every folder is a listing of entry names
    (in listing order) together with the bytes of each entry. Models the
    `fs` calls of the pipeline and the helpers of src/utils/utils.js. */
module Files {
  import opened Wrappers
  import opened Strings

  newtype byte = x: int | 0 <= x < 256
  type Bytes = seq<byte>
  type Name = string
  type Path = string

  predicate Distinct<T(==)>(s: seq<T>) {
    forall i, j :: 0 <= i < j < |s| ==> s[i] != s[j]
  }

  /** The names of `names` that also occur in `keep`, in listing order. */
  function Filter(names: seq<Name>, keep: seq<Name>): (r: seq<Name>)
    ensures forall n :: n in r <==> n in names && n in keep
  {
    if names == [] then []
    else
      var last := names[|names| - 1];
      Filter(names[..|names| - 1], keep) + (if last in keep then [last] else [])
  }

  lemma DistinctAppend(s: seq<Name>, x: Name)
    requires Distinct(s) && x !in s
    ensures Distinct(s + [x])
  {
  }

  lemma DistinctCons(x: Name, s: seq<Name>)
    requires Distinct(s) && x !in s
    ensures Distinct([x] + s)
  {
  }

  lemma {:induction false} FilterDistinct(names: seq<Name>, keep: seq<Name>)
    requires Distinct(names)
    ensures Distinct(Filter(names, keep))
  {
    if names != [] {
      var init := names[..|names| - 1];
      var last := names[|names| - 1];
      assert Distinct(init);
      FilterDistinct(init, keep);
      if last in keep {
        assert last !in init;
        DistinctAppend(Filter(init, keep), last);
      } else {
        assert Filter(names, keep) == Filter(init, keep) + [];
      }
    }
  }

  /** `names` without `n`. */
  function Without(names: seq<Name>, n: Name): (r: seq<Name>)
    ensures forall m :: m in r <==> m in names && m != n
  {
    if names == [] then []
    else (if names[0] == n then [] else [names[0]]) + Without(names[1..], n)
  }

  lemma {:induction false} WithoutDistinct(names: seq<Name>, n: Name)
    requires Distinct(names)
    ensures Distinct(Without(names, n))
  {
    if names != [] {
      assert Distinct(names[1..]);
      WithoutDistinct(names[1..], n);
      if names[0] != n {
        assert names[0] !in names[1..];
        DistinctCons(names[0], Without(names[1..], n));
      } else {
        assert Without(names, n) == [] + Without(names[1..], n);
      }
    }
  }

  lemma {:induction false} FilterTwice(names: seq<Name>, keep: seq<Name>)
    ensures Filter(Filter(names, keep), keep) == Filter(names, keep)
  {
    if names != [] {
      var init := names[..|names| - 1];
      var last := names[|names| - 1];
      FilterTwice(init, keep);
      if last in keep {
        var f := Filter(init, keep) + [last];
        assert Filter(names, keep) == f;
        assert f[..|f| - 1] == Filter(init, keep);
        assert f[|f| - 1] == last;
        assert Filter(f, keep) == Filter(f[..|f| - 1], keep) + [last];
      } else {
        assert Filter(names, keep) == Filter(init, keep) + [];
        assert Filter(names, keep) == Filter(init, keep);
      }
    }
  }

  lemma {:induction false} WithoutSplit(a: seq<Name>, n: Name, b: seq<Name>)
    requires n !in a && n !in b
    ensures Without(a + [n] + b, n) == a + b
  {
    if a == [] {
      assert (a + [n] + b)[1..] == b;
      WithoutAbsent(b, n);
    } else {
      assert (a + [n] + b)[1..] == a[1..] + [n] + b;
      WithoutSplit(a[1..], n, b);
      assert a == [a[0]] + a[1..];
    }
  }

  lemma {:induction false} WithoutAbsent(s: seq<Name>, n: Name)
    requires n !in s
    ensures Without(s, n) == s
  {
    if s != [] {
      WithoutAbsent(s[1..], n);
      assert s == [s[0]] + s[1..];
    }
  }

  /** One step of the deletion loop of `clearFolder`. */
  lemma ClearStep(files: seq<Name>, i: nat, keep: seq<Name>)
    requires Distinct(files) && i < |files|
    ensures var x := files[i];
      && (x !in keep ==> Without(Filter(files[..i], keep) + files[i..], x) == Filter(files[..i + 1], keep) + files[i + 1..])
      && (x in keep ==> Filter(files[..i], keep) + files[i..] == Filter(files[..i + 1], keep) + files[i + 1..])
      && Dropped(files[..i + 1], keep) == Dropped(files[..i], keep) + (if x in keep then {} else {x})
  {
    var x := files[i];
    assert files[..i + 1][..i] == files[..i];
    assert files[i..] == [x] + files[i + 1..];
    if x !in keep {
      assert x !in files[..i] && x !in files[i + 1..] by {
        assert forall j :: 0 <= j < |files| && j != i ==> files[j] != x;
      }
      assert Filter(files[..i + 1], keep) == Filter(files[..i], keep) + [];
      assert Filter(files[..i + 1], keep) == Filter(files[..i], keep);
      WithoutSplit(Filter(files[..i], keep), x, files[i + 1..]);
      assert Filter(files[..i], keep) + files[i..] == Filter(files[..i], keep) + [x] + files[i + 1..];
    } else {
      assert Filter(files[..i + 1], keep) == Filter(files[..i], keep) + [x];
    }
    DroppedStep(files, i, keep);
  }

  lemma DroppedStep(files: seq<Name>, i: nat, keep: seq<Name>)
    requires i < |files|
    ensures Dropped(files[..i + 1], keep) == Dropped(files[..i], keep) + (if files[i] in keep then {} else {files[i]})
  {
    assert files[..i + 1] == files[..i] + [files[i]];
  }

  /** Keeping the original listing of a folder whose listing only grew
      gives back exactly the original listing. */
  lemma {:induction false} FilterOwnPrefix(a: seq<Name>, b: seq<Name>)
    requires Distinct(a + b)
    ensures Filter(a + b, a) == a
    decreases |b|
  {
    var s := a + b;
    if b == [] {
      assert s == a;
      FilterAll(a, a);
    } else {
      var init := b[..|b| - 1];
      assert s[..|s| - 1] == a + init;
      assert Distinct(a + init);
      FilterOwnPrefix(a, init);
      assert s[|s| - 1] !in a;
      assert Filter(s, a) == Filter(a + init, a) + [];
    }
  }

  lemma {:induction false} FilterAll(s: seq<Name>, keep: seq<Name>)
    requires forall n | n in s :: n in keep
    ensures Filter(s, keep) == s
  {
    if s != [] {
      var init, last := s[..|s| - 1], s[|s| - 1];
      FilterAll(init, keep);
      assert last in keep;
      assert Filter(s, keep) == Filter(init, keep) + [last];
      assert s == init + [last];
    }
  }

  /** One folder: its listing and the bytes of every entry in it. A name
      written for the first time is appended to the listing; overwriting a
      name keeps its position. */
  datatype Dir = Dir(names: seq<Name>, files: map<Name, Bytes>) {

    predicate Valid() {
      Distinct(names) && files.Keys == set n | n in names
    }

    /** `fs.writeFileSync` / `fs.copyFileSync` into this folder. */
    function Write(n: Name, b: Bytes): (d: Dir)
      ensures Valid() ==> d.Valid()
      ensures d.files == files[n := b]
      ensures n in files ==> d.names == names
      ensures n !in files ==> d.names == names + [n]
    {
      Dir(if n in files then names else names + [n], files[n := b])
    }

    /** `fs.unlinkSync` of one entry of this folder. */
    function Remove(n: Name): (d: Dir)
      ensures Valid() ==> d.Valid()
      ensures d.files == files - {n}
    {
      if Valid() then WithoutDistinct(names, n); Dir(Without(names, n), files - {n})
      else Dir(Without(names, n), files - {n})
    }

    /** The folder once every entry whose name is not in `keep` is deleted. */
    function Keep(keep: seq<Name>): (d: Dir)
      ensures Valid() ==> d.Valid()
    {
      if Valid() then FilterDistinct(names, keep); Dir(Filter(names, keep), files - Dropped(names, keep))
      else
      Dir(Filter(names, keep), files - Dropped(names, keep))
    }
  }

  /** The names of `names` that are not in `keep`. */
  function Dropped(names: seq<Name>, keep: seq<Name>): set<Name> {
    set n | n in names && n !in keep
  }

  const EmptyDir := Dir([], map[])

  /** The message of the error `readdir` throws for a folder that does
      not exist. */
  function NoSuchEntry(p: Path): string {
    "ENOENT: no such file or directory, scandir '" + p + "'"
  }

  /** `p` is a folder, or an entry of its folder. */
  predicate PathExists(dirs: map<Path, Dir>, p: Path) {
    p in dirs || (DirName(p) in dirs && BaseName(p) in dirs[DirName(p)].files)
  }

  /** The whole file system: one listing per existing folder path. */
  class FileSystem {
    var dirs: map<Path, Dir>

    ghost predicate Valid()
      reads this
    {
      forall p | p in dirs :: dirs[p].Valid()
    }

    constructor (initial: map<Path, Dir>)
      requires forall p | p in initial :: initial[p].Valid()
      ensures Valid() && dirs == initial
    {
      dirs := initial;
    }

    /** `fs.existsSync(p)`. */
    predicate Exists(p: Path)
      reads this
    {
      PathExists(dirs, p)
    }

    /** `fs.readdir(p)`: the listing, or ENOENT for a missing folder. */
    method ReadDir(p: Path) returns (r: Result<seq<Name>>)
      ensures p in dirs ==> r == Ok(dirs[p].names)
      ensures p !in dirs ==> r.Err? && r.message == NoSuchEntry(p)
    {
      if p in dirs {
        r := Ok(dirs[p].names);
      } else {
        r := Err(NoSuchEntry(p));
      }
    }

    /** `clearFolder(folderPath, filesBefore)` (src/utils/utils.js): every
        entry whose name is not in `keep` is unlinked, one at a time, in
        listing order. Reading a missing folder throws. */
    method ClearFolder(p: Path, keep: seq<Name>) returns (r: Result<()>)
      requires p in dirs ==> dirs[p].Valid()
      modifies this
      ensures r.Ok? <==> p in old(dirs)
      ensures p in old(dirs) ==> dirs == old(dirs)[p := old(dirs)[p].Keep(keep)]
      ensures p !in old(dirs) ==> dirs == old(dirs) && r.message == NoSuchEntry(p)
    {
      var listing := ReadDir(p);
      if listing.Err? {
        return Err(listing.message);
      }
      var files := listing.value;
      ghost var d0 := dirs[p];
      ClearedPrefix(d0, keep, 0);
      var i := 0;
      while i < |files|
        invariant 0 <= i <= |files|
        invariant dirs == old(dirs)[p := Cleared(d0, keep, i)]
      {
        var file := files[i];
        ClearedStep(d0, keep, i);
        UpdateTwice(old(dirs), p, Cleared(d0, keep, i), Cleared(d0, keep, i + 1));
        if file !in keep {
          dirs := dirs[p := dirs[p].Remove(file)];
        }
        i := i + 1;
      }
      ClearedPrefix(d0, keep, i);
      r := Ok(());
    }
  }

  /** The folder `d` after the deletion loop of `clearFolder` has looked at
      the first `i` names of its listing. */
  function Cleared(d: Dir, keep: seq<Name>, i: nat): Dir
    requires i <= |d.names|
  {
    Dir(Filter(d.names[..i], keep) + d.names[i..], d.files - Dropped(d.names[..i], keep))
  }

  lemma ClearedPrefix(d: Dir, keep: seq<Name>, i: nat)
    requires i <= |d.names|
    ensures i == 0 ==> Cleared(d, keep, i) == d
    ensures i == |d.names| ==> Cleared(d, keep, i) == d.Keep(keep)
  {
    assert d.names[..0] == [] && d.names[0..] == d.names;
    assert d.names[..|d.names|] == d.names && d.names[|d.names|..] == [];
    if i == 0 {
      assert Dropped([], keep) == {};
    }
  }

  lemma ClearedStep(d: Dir, keep: seq<Name>, i: nat)
    requires d.Valid() && i < |d.names|
    ensures d.names[i] in keep ==> Cleared(d, keep, i + 1) == Cleared(d, keep, i)
    ensures d.names[i] !in keep ==> Cleared(d, keep, i + 1) == Cleared(d, keep, i).Remove(d.names[i])
  {
    var files, file := d.names, d.names[i];
    ClearStep(files, i, keep);
    if file !in keep {
      MapMinusTwice(d.files, Dropped(files[..i], keep), {file});
    } else {
      assert Dropped(files[..i + 1], keep) == Dropped(files[..i], keep);
    }
  }

  lemma MapMinusTwice<K, V>(m: map<K, V>, a: set<K>, b: set<K>)
    ensures m - a - b == m - (a + b)
  {
  }

  lemma UpdateTwice<K, V>(m: map<K, V>, k: K, x: V, y: V)
    ensures m[k := x][k := y] == m[k := y]
  {
  }

  /** A second `clearFolder` with the same keep-list deletes nothing. */
  lemma KeepAgain(d: Dir, keep: seq<Name>)
    ensures d.Keep(keep).Keep(keep) == d.Keep(keep)
  {
    FilterTwice(d.names, keep);
  }

  /** Entries named in the keep-list are left untouched, every other entry
      is deleted, and a kept name that was absent is not created. */
  lemma KeepContents(d: Dir, keep: seq<Name>)
    requires d.Valid()
    ensures d.Keep(keep).files.Keys == d.files.Keys * (set n | n in keep)
    ensures forall n | n in d.Keep(keep).files :: d.Keep(keep).files[n] == d.files[n]
    ensures d.Keep(keep).names == Filter(d.names, keep)
  {
  }

  /** With the default empty keep-list the folder ends empty. */
  lemma KeepNothing(d: Dir)
    requires d.Valid()
    ensures d.Keep([]) == EmptyDir
  {
    FilterNothing(d.names);
    assert d.Keep([]).files.Keys == {};
  }

  lemma {:induction false} FilterNothing(names: seq<Name>)
    ensures Filter(names, []) == []
  {
    if names != [] {
      FilterNothing(names[..|names| - 1]);
    }
  }

  /** The example of the utils tests: keeping two of three files leaves
      exactly those two, in listing order. */
  lemma KeepExample(b: Bytes)
    ensures Dir(["file1.txt", "file2.txt", "file3.txt"], map["file1.txt" := b, "file2.txt" := b, "file3.txt" := b])
              .Keep(["file1.txt", "file2.txt"]).names == ["file1.txt", "file2.txt"]
  {
    var names := ["file1.txt", "file2.txt", "file3.txt"];
    var keep := ["file1.txt", "file2.txt"];
    assert names[..2][..1][..0] == [];
    assert Filter(names[..2][..1], keep) == ["file1.txt"];
    assert Filter(names[..2], keep) == ["file1.txt", "file2.txt"];
    assert "file3.txt" !in keep;
  }

  /** `path.isAbsolute` for POSIX paths. */
  predicate IsAbsolute(p: Path) {
    StartsWith(p, [Sep])
  }

  /** `getAbsolutePath` (src/utils/utils.js): an absolute path is returned
      as it is, a relative one is joined onto the working directory `cwd`
      (`path.join` normalisation is not modelled). */
  function GetAbsolutePath(p: Path, cwd: Path): Path
  {
    if IsAbsolute(p) then p else Join(cwd, p)
  }

  /** With an absolute working directory (as `process.cwd()` always is) the
      result is absolute, and resolving it again changes nothing. */
  lemma AbsolutePathIsStable(p: Path, cwd: Path)
    requires IsAbsolute(cwd)
    ensures IsAbsolute(GetAbsolutePath(p, cwd))
    ensures GetAbsolutePath(GetAbsolutePath(p, cwd), cwd) == GetAbsolutePath(p, cwd)
    ensures IsAbsolute(p) ==> GetAbsolutePath(p, cwd) == p
    ensures !IsAbsolute(p) ==> GetAbsolutePath(p, cwd) == Join(cwd, p)
  {
    if !IsAbsolute(p) {
      assert Join(cwd, p)[..1] == cwd[..1];
    }
  }
}
