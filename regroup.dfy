/** `zipFilesGroupByShapefile` of src/utils/zipUtils.js: the entries of a
    folder are grouped by stem (the name up to its last dot), `.sld` files
    aside; each group is written as one archive named after its stem; then
    every entry that is neither a `.zip` nor a `.sld` is deleted.

    The groups live in a plain JavaScript object, so a stem that names a
    member every object inherits ("constructor", "toString", ...) finds a
    truthy value that is not an array, and `.push` throws a TypeError
    before anything is written. */
module Regroup {
  import opened Wrappers
  import opened Strings
  import opened Files
  import opened Archives

  predicate IsSld(n: Name) {
    EndsWith(n, ".sld")
  }

  predicate IsZipName(n: Name) {
    EndsWith(n, ".zip")
  }

  /** The members every plain object inherits from `Object.prototype`. */
  const InheritedKeys: set<string> := {
    "constructor", "toString", "toLocaleString", "valueOf", "hasOwnProperty",
    "isPrototypeOf", "propertyIsEnumerable", "__proto__", "__defineGetter__",
    "__defineSetter__", "__lookupGetter__", "__lookupSetter__"
  }

  /** The message of the `TypeError` line 55 throws when the group of a
      stem is an inherited member rather than an array. */
  const PushError: string := "filesByShapefile[shapefileName].push is not a function"

  /** The grouping state: the stems in first-occurrence order, and the
      files of each stem in listing order. */
  datatype Groups = Groups(keys: seq<string>, members: map<string, seq<Name>>)

  /** Lines 46-56 as a function of the listing. */
  function Grouped(files: seq<Name>): (r: Result<Groups>)
  {
    if files == [] then Ok(Groups([], map[]))
    else
      var g := Grouped(files[..|files| - 1]);
      var f := files[|files| - 1];
      if g.Err? || IsSld(f) then g
      else
        var k := Stem(f);
        if k in InheritedKeys then Err(PushError)
        else if k in g.value.members then Ok(Groups(g.value.keys, g.value.members[k := g.value.members[k] + [f]]))
        else Ok(Groups(g.value.keys + [k], g.value.members[k := [f]]))
  }

  /** The files of `files` that are grouped under stem `k`, in order. */
  function StemFiles(files: seq<Name>, k: string): (r: seq<Name>)
    ensures forall f :: f in r <==> f in files && !IsSld(f) && Stem(f) == k
  {
    if files == [] then []
    else
      var f := files[|files| - 1];
      StemFiles(files[..|files| - 1], k) + (if !IsSld(f) && Stem(f) == k then [f] else [])
  }

  lemma {:induction false} NoStemNoFiles(files: seq<Name>, k: string)
    requires forall f | f in files :: IsSld(f) || Stem(f) != k
    ensures StemFiles(files, k) == []
  {
    if files != [] {
      NoStemNoFiles(files[..|files| - 1], k);
    }
  }

  /** Grouping fails exactly when some non-`.sld` file has an inherited
      member name as its stem. */
  lemma {:induction false} GroupedFails(files: seq<Name>)
    ensures Grouped(files).Err? <==> exists f | f in files :: !IsSld(f) && Stem(f) in InheritedKeys
  {
    if files != [] {
      var init, f := files[..|files| - 1], files[|files| - 1];
      GroupedFails(init);
      assert files == init + [f];
    }
  }

  /** A successful grouping lists each stem once, and has a group for
      exactly the listed stems. */
  lemma {:induction false} GroupedKeys(files: seq<Name>)
    requires Grouped(files).Ok?
    ensures var g := Grouped(files).value;
      && Distinct(g.keys)
      && (forall k :: k in g.keys <==> k in g.members)
  {
    if files != [] {
      var init, f := files[..|files| - 1], files[|files| - 1];
      GroupedKeys(init);
      var g0 := Grouped(init).value;
      if !IsSld(f) && Stem(f) !in g0.members {
        DistinctAppend(g0.keys, Stem(f));
      }
    }
  }

  /** The listed stems are exactly the stems of the non-`.sld` files. */
  lemma {:induction false} GroupedStems(files: seq<Name>)
    requires Grouped(files).Ok?
    ensures forall k :: k in Grouped(files).value.keys <==> exists f | f in files :: !IsSld(f) && Stem(f) == k
  {
    if files != [] {
      var init, f := files[..|files| - 1], files[|files| - 1];
      assert files == init + [f];
      GroupedStems(init);
      GroupedKeys(init);
    }
  }

  /** The group of a stem holds exactly the non-`.sld` files with that
      stem, in listing order; so every non-`.sld` file lands in the group of
      its stem and in no other. */
  lemma {:induction false} GroupedMembers(files: seq<Name>)
    requires Grouped(files).Ok?
    ensures var g := Grouped(files).value;
      forall k | k in g.members :: g.members[k] == StemFiles(files, k)
  {
    if files != [] {
      var init, f := files[..|files| - 1], files[|files| - 1];
      GroupedMembers(init);
      var g0 := Grouped(init).value;
      if !IsSld(f) && Stem(f) !in g0.members {
        GroupedStems(init);
        GroupedKeys(init);
        NoStemNoFiles(init, Stem(f));
      }
    }
  }

  /** The archive members that group `files` yields when read from folder
      `d` (lines 62-66). */
  function MembersOf(d: Dir, files: seq<Name>): (r: seq<Entry>)
    requires forall f | f in files :: f in d.files
    ensures |r| == |files|
    ensures forall i | 0 <= i < |files| :: r[i] == Entry(files[i], false, d.files[files[i]])
  {
    if files == [] then []
    else MembersOf(d, files[..|files| - 1]) + [Entry(files[|files| - 1], false, d.files[files[|files| - 1]])]
  }

  /** The groups are consistent with folder `d`: every grouped file is an
      entry of `d`. */
  predicate GroupsIn(g: Groups, d: Dir) {
    && (forall k | k in g.keys :: k in g.members)
    && (forall k, f | k in g.members && f in g.members[k] :: f in d.files)
  }

  /** Lines 59-72: the archives of the first `n` stems written one after
      the other, each read from the folder as it stands at that point. */
  function WriteGroups(d: Dir, g: Groups, c: Codec, n: nat): (r: Dir)
    requires n <= |g.keys| && GroupsIn(g, d)
    ensures d.Valid() ==> r.Valid()
    ensures d.files.Keys <= r.files.Keys
  {
    if n == 0 then d
    else
      var w := WriteGroups(d, g, c, n - 1);
      var k := g.keys[n - 1];
      w.Write(k + ".zip", c.build(MembersOf(w, g.members[k])))
  }

  /** Lines 75-77: the `.zip` names followed by the `.sld` names of a
      listing. */
  function ZipsThenSlds(names: seq<Name>): seq<Name> {
    Suffixed(names, ".zip") + Suffixed(names, ".sld")
  }

  function Suffixed(names: seq<Name>, ext: string): (r: seq<Name>)
    ensures forall n :: n in r <==> n in names && EndsWith(n, ext)
  {
    if names == [] then []
    else
      var n := names[|names| - 1];
      Suffixed(names[..|names| - 1], ext) + (if EndsWith(n, ext) then [n] else [])
  }

  /** `zipFilesGroupByShapefile(folderPath)` as a function of the folder. */
  function Regrouped(d: Dir, c: Codec): (r: Result<Dir>)
    requires d.Valid()
    ensures r.Ok? ==> r.value.Valid()
  {
    var g := Grouped(d.names);
    if g.Err? then Err(g.message)
    else
      GroupedKeys(d.names);
      GroupedMembers(d.names);
      var w := WriteGroups(d, g.value, c, |g.value.keys|);
      Ok(w.Keep(ZipsThenSlds(w.names)))
  }

  /** A grouping that matches folder `d`: each stem listed once, and each
      grouped file an entry of `d` with that stem. */
  predicate Consistent(g: Groups, d: Dir) {
    && GroupsIn(g, d)
    && Distinct(g.keys)
    && (forall k, f | k in g.members && f in g.members[k] :: Stem(f) == k)
  }

  lemma GroupedConsistent(d: Dir)
    requires d.Valid() && Grouped(d.names).Ok?
    ensures Consistent(Grouped(d.names).value, d)
  {
    GroupedKeys(d.names);
    GroupedMembers(d.names);
  }

  /** The name of an archive written for stem `k` has stem `k`. */
  lemma ArchiveNameStem(k: string)
    ensures Stem(k + ".zip") == k
    ensures IsZipName(k + ".zip") && !IsSld(k + ".zip")
  {
    StemOfSuffixed(k, ".zip");
    assert (k + ".zip")[|k + ".zip"| - 4..] == ".zip";
  }

  /** A `.zip` name is the archive name of its own stem. */
  lemma ZipNameIsArchiveName(f: Name)
    requires IsZipName(f)
    ensures f == Stem(f) + ".zip" && !IsSld(f)
  {
    var t := f[..|f| - 4];
    assert f == t + ".zip";
    StemOfSuffixed(t, ".zip");
  }

  lemma ArchiveNamesDiffer(a: string, b: string)
    requires a != b
    ensures a + ".zip" != b + ".zip"
  {
    if |a| == |b| {
      assert (a + ".zip")[..|a|] == a && (b + ".zip")[..|b|] == b;
    } else {
      assert |a + ".zip"| != |b + ".zip"|;
    }
  }

  /** The archive names of the stems `keys`. */
  function ArchiveNames(keys: seq<string>): set<Name> {
    set k | k in keys :: k + ".zip"
  }

  lemma ArchiveNamesSnoc(keys: seq<string>, k: string)
    ensures ArchiveNames(keys + [k]) == ArchiveNames(keys) + {k + ".zip"}
  {
  }

  /** The archives written so far: the folder gains exactly one entry name
      per stem handled. */
  lemma {:induction false} WrittenKeys(d: Dir, g: Groups, c: Codec, n: nat)
    requires n <= |g.keys| && GroupsIn(g, d)
    ensures WriteGroups(d, g, c, n).files.Keys == d.files.Keys + ArchiveNames(g.keys[..n])
  {
    if n > 0 {
      WrittenKeys(d, g, c, n - 1);
      var k := g.keys[n - 1];
      assert g.keys[..n] == g.keys[..n - 1] + [k];
      ArchiveNamesSnoc(g.keys[..n - 1], k);
    }
  }

  /** An entry that is not the archive name of a stem handled so far keeps
      its bytes. */
  lemma {:induction false} WrittenUnchanged(d: Dir, g: Groups, c: Codec, n: nat, f: Name)
    requires n <= |g.keys| && GroupsIn(g, d) && f in d.files
    requires forall j | 0 <= j < n :: f != g.keys[j] + ".zip"
    ensures f in WriteGroups(d, g, c, n).files && WriteGroups(d, g, c, n).files[f] == d.files[f]
  {
    if n > 0 {
      WrittenUnchanged(d, g, c, n - 1, f);
    }
  }

  lemma MembersAgree(w: Dir, d: Dir, files: seq<Name>)
    requires forall f | f in files :: f in d.files && f in w.files && w.files[f] == d.files[f]
    ensures MembersOf(w, files) == MembersOf(d, files)
  {
  }

  /** The archive of stem `keys[i]` is built from the ORIGINAL bytes of its
      group: no archive written before it belongs to its group. */
  lemma LastWrittenArchive(d: Dir, g: Groups, c: Codec, i: nat)
    requires Consistent(g, d) && i < |g.keys|
    ensures var k := g.keys[i];
      WriteGroups(d, g, c, i + 1).files[k + ".zip"] == c.build(MembersOf(d, g.members[k]))
  {
    var k := g.keys[i];
    var w := WriteGroups(d, g, c, i);
    forall f | f in g.members[k]
      ensures f in w.files && w.files[f] == d.files[f]
    {
      forall j | 0 <= j < i ensures f != g.keys[j] + ".zip" {
        ArchiveNameStem(g.keys[j]);
      }
      WrittenUnchanged(d, g, c, i, f);
    }
    MembersAgree(w, d, g.members[k]);
  }

  /** ... and no archive written after it has its name. */
  lemma {:induction false} WrittenArchive(d: Dir, g: Groups, c: Codec, n: nat, i: nat)
    requires Consistent(g, d) && i < n <= |g.keys|
    ensures var k := g.keys[i];
      && k + ".zip" in WriteGroups(d, g, c, n).files
      && WriteGroups(d, g, c, n).files[k + ".zip"] == c.build(MembersOf(d, g.members[k]))
  {
    if n == i + 1 {
      LastWrittenArchive(d, g, c, i);
    } else {
      WrittenArchive(d, g, c, n - 1, i);
      ArchiveNamesDiffer(g.keys[n - 1], g.keys[i]);
    }
  }

  /** A failed regrouping is exactly a listing with a non-`.sld` file whose
      stem names an inherited object member. */
  lemma RegroupedFails(d: Dir, c: Codec)
    requires d.Valid()
    ensures Regrouped(d, c).Err? <==> exists f | f in d.names :: !IsSld(f) && Stem(f) in InheritedKeys
  {
    GroupedFails(d.names);
  }

  /** After a regrouping the folder holds its old entries and the written
      archives, cut down to the `.zip` and `.sld` names. */
  lemma RegroupedKeysRaw(d: Dir, c: Codec)
    requires d.Valid() && Regrouped(d, c).Ok?
    ensures forall x :: x in Regrouped(d, c).value.files <==>
      (x in d.files || x in ArchiveNames(Grouped(d.names).value.keys)) && (IsZipName(x) || IsSld(x))
  {
    var g := Grouped(d.names).value;
    GroupedConsistent(d);
    var w := WriteGroups(d, g, c, |g.keys|);
    WrittenKeys(d, g, c, |g.keys|);
    assert g.keys[..|g.keys|] == g.keys;
    KeepContents(w, ZipsThenSlds(w.names));
  }

  /** The set algebra behind `RegroupedNames`: old entries and archives of
      the stems, cut down to `.zip` and `.sld` names, are the archives of
      the stems plus the `.sld` entries. */
  lemma ArchivesAndSlds(names: seq<Name>, stems: seq<string>, result: set<Name>)
    requires forall x :: x in result <==> (x in names || x in ArchiveNames(stems)) && (IsZipName(x) || IsSld(x))
    requires forall k :: k in stems <==> exists f | f in names :: !IsSld(f) && Stem(f) == k
    ensures result == (set f | f in names && !IsSld(f) :: Stem(f) + ".zip") + (set f | f in names && IsSld(f))
  {
    var rhs := (set f | f in names && !IsSld(f) :: Stem(f) + ".zip") + (set f | f in names && IsSld(f));
    forall x | x in result ensures x in rhs {
      if x in names && IsZipName(x) {
        ZipNameIsArchiveName(x);
      } else if x !in names {
        var k :| k in stems && x == k + ".zip";
        var f :| f in names && !IsSld(f) && Stem(f) == k;
      }
    }
    forall x | x in rhs ensures x in result {
      if x !in names || !IsSld(x) {
        var f :| f in names && !IsSld(f) && x == Stem(f) + ".zip";
        ArchiveNameStem(Stem(f));
      }
    }
  }

  /** After a regrouping the folder holds exactly one archive per stem of a
      non-`.sld` file, plus the `.sld` files; everything else is gone. */
  lemma RegroupedNames(d: Dir, c: Codec)
    requires d.Valid() && Regrouped(d, c).Ok?
    ensures Regrouped(d, c).value.files.Keys ==
      (set f | f in d.names && !IsSld(f) :: Stem(f) + ".zip") + (set f | f in d.names && IsSld(f))
  {
    RegroupedKeysRaw(d, c);
    GroupedStems(d.names);
    ArchivesAndSlds(d.names, Grouped(d.names).value.keys, Regrouped(d, c).value.files.Keys);
  }

  /** Reading back the archive of stem `k` yields the files of `d` with that
      stem (the `.sld` files aside), in listing order, with their original
      bytes; each `.sld` file keeps its bytes. */
  lemma RegroupedContents(d: Dir, c: Codec, u: set<Name>, k: string)
    requires d.Valid() && Regrouped(d, c).Ok? && RoundTrips(c, u)
    requires d.files.Keys <= u && forall n | n in u :: Sep !in n
    requires k in Grouped(d.names).value.keys
    ensures k + ".zip" in Regrouped(d, c).value.files
    ensures c.read(Regrouped(d, c).value.files[k + ".zip"]) == MembersOf(d, StemFiles(d.names, k))
  {
    var g := Grouped(d.names).value;
    GroupedConsistent(d);
    GroupedMembers(d.names);
    var i :| 0 <= i < |g.keys| && g.keys[i] == k;
    WrittenArchive(d, g, c, |g.keys|, i);
    var w := WriteGroups(d, g, c, |g.keys|);
    ArchiveNameStem(k);
    KeepContents(w, ZipsThenSlds(w.names));
    StemFilesDistinct(d.names, k);
    MembersPlain(d, StemFiles(d.names, k), u);
  }

  /** The members of a group of a well-formed folder are plain. */
  lemma MembersPlain(d: Dir, files: seq<Name>, u: set<Name>)
    requires Distinct(files) && (forall f | f in files :: f in d.files)
    requires d.files.Keys <= u && forall n | n in u :: Sep !in n
    ensures Plain(MembersOf(d, files), u)
  {
    var es := MembersOf(d, files);
    forall e | e in es ensures !e.isDir && e.name in u && Sep !in e.name {
      var i :| 0 <= i < |es| && es[i] == e;
    }
  }

  /** The group of a stem in a listing without repeats has no repeats. */
  lemma {:induction false} StemFilesDistinct(files: seq<Name>, k: string)
    requires Distinct(files)
    ensures Distinct(StemFiles(files, k))
  {
    if files != [] {
      var init, f := files[..|files| - 1], files[|files| - 1];
      assert Distinct(init);
      StemFilesDistinct(init, k);
      if !IsSld(f) && Stem(f) == k {
        assert f !in init;
        DistinctAppend(StemFiles(init, k), f);
      }
    }
  }

  lemma RegroupedSld(d: Dir, c: Codec, f: Name)
    requires d.Valid() && Regrouped(d, c).Ok? && f in d.files && IsSld(f)
    ensures f in Regrouped(d, c).value.files && Regrouped(d, c).value.files[f] == d.files[f]
  {
    var g := Grouped(d.names).value;
    GroupedConsistent(d);
    forall j | 0 <= j < |g.keys| ensures f != g.keys[j] + ".zip" {
      ArchiveNameStem(g.keys[j]);
    }
    WrittenUnchanged(d, g, c, |g.keys|, f);
    var w := WriteGroups(d, g, c, |g.keys|);
    KeepContents(w, ZipsThenSlds(w.names));
  }

  /** In a listing without repeats where `x` is the only file of stem `k`,
      the group of `k` is `x` alone. */
  lemma {:induction false} StemFilesSingle(files: seq<Name>, k: string, x: Name)
    requires Distinct(files) && x in files && !IsSld(x) && Stem(x) == k
    requires forall f | f in files && !IsSld(f) && Stem(f) == k :: f == x
    ensures StemFiles(files, k) == [x]
  {
    var init, last := files[..|files| - 1], files[|files| - 1];
    assert files == init + [last];
    if last == x {
      assert x !in init;
      NoStemNoFiles(init, k);
    } else {
      StemFilesSingle(init, k, x);
    }
  }

  /** A regrouped folder holds only archives and `.sld` files, and each
      archive is named after a stem of the folder before. */
  lemma RegroupedArchives(d: Dir, c: Codec)
    requires d.Valid() && Regrouped(d, c).Ok?
    ensures forall f | f in Regrouped(d, c).value.names && !IsSld(f) ::
      IsZipName(f) && exists g | g in d.names :: !IsSld(g) && Stem(g) == Stem(f)
  {
    var d1 := Regrouped(d, c).value;
    RegroupedNames(d, c);
    forall f | f in d1.names && !IsSld(f)
      ensures IsZipName(f) && exists g | g in d.names :: !IsSld(g) && Stem(g) == Stem(f)
    {
      assert f in d1.files.Keys;
      var g :| g in d.names && !IsSld(g) && f == Stem(g) + ".zip";
      ArchiveNameStem(Stem(g));
    }
  }

  /** Regrouping a regrouped folder succeeds and keeps its names: every
      archive `S.zip` has stem `S`, so it lands in an archive of its own
      name. */
  lemma RegroupNamesStable(d: Dir, c: Codec)
    requires d.Valid() && Regrouped(d, c).Ok?
    ensures var d1 := Regrouped(d, c).value;
      Regrouped(d1, c).Ok? && Regrouped(d1, c).value.files.Keys == d1.files.Keys
  {
    var d1 := Regrouped(d, c).value;
    RegroupedArchives(d, c);
    RegroupedFails(d, c);
    RegroupedFails(d1, c);
    forall f | f in d1.names && !IsSld(f) ensures Stem(f) + ".zip" == f {
      ZipNameIsArchiveName(f);
    }
    RegroupedNames(d1, c);
  }

  /** In a folder of archives and `.sld` files, `k.zip` is the only file of
      stem `k`. */
  lemma ArchiveOnly(d: Dir, k: string)
    requires forall f | f in d.names && !IsSld(f) :: IsZipName(f)
    ensures forall f | f in d.names && !IsSld(f) && Stem(f) == k :: f == k + ".zip"
  {
    forall f | f in d.names && !IsSld(f) && Stem(f) == k ensures f == k + ".zip" {
      ZipNameIsArchiveName(f);
    }
  }

  /** ... but not its contents: the archive of stem `k` now holds the
      previous archive `k.zip` as its only member. */
  lemma RegroupNests(d: Dir, c: Codec, u: set<Name>, k: string)
    requires d.Valid() && Regrouped(d, c).Ok? && RoundTrips(c, u)
    requires d.files.Keys <= u && Regrouped(d, c).value.files.Keys <= u && forall n | n in u :: Sep !in n
    requires k in Grouped(d.names).value.keys
    ensures var d1 := Regrouped(d, c).value;
      && k + ".zip" in d1.files
      && Regrouped(d1, c).Ok? && k + ".zip" in Regrouped(d1, c).value.files
      && c.read(Regrouped(d1, c).value.files[k + ".zip"]) == [Entry(k + ".zip", false, d1.files[k + ".zip"])]
  {
    var d1 := Regrouped(d, c).value;
    RegroupedContents(d, c, u, k);
    RegroupedAgain(d, c, k);
    RegroupedContents(d1, c, u, k);
  }

  /** Regrouping a regrouped folder groups `k.zip` alone under `k`. */
  lemma RegroupedAgain(d: Dir, c: Codec, k: string)
    requires d.Valid() && Regrouped(d, c).Ok?
    requires k in Grouped(d.names).value.keys
    requires k + ".zip" in Regrouped(d, c).value.files
    ensures var d1 := Regrouped(d, c).value;
      && d1.Valid() && Regrouped(d1, c).Ok?
      && k in Grouped(d1.names).value.keys
      && StemFiles(d1.names, k) == [k + ".zip"]
  {
    var d1 := Regrouped(d, c).value;
    RegroupNamesStable(d, c);
    RegroupedArchives(d, c);
    ArchiveOnly(d1, k);
    ArchiveNameStem(k);
    GroupedStems(d1.names);
    StemFilesSingle(d1.names, k, k + ".zip");
  }

  /** Lines 46-56: the grouping loop. */
  method GroupByStem(files: seq<Name>) returns (r: Result<Groups>)
    ensures r == Grouped(files)
  {
    var keys: seq<string> := [];
    var members: map<string, seq<Name>> := map[];
    var i := 0;
    while i < |files|
      invariant 0 <= i <= |files|
      invariant Grouped(files[..i]) == Ok(Groups(keys, members))
    {
      var file := files[i];
      assert files[..i + 1][..i] == files[..i];
      if !IsSld(file) {
        var stem := Stem(file);
        if stem in InheritedKeys {
          GroupedStaysFailed(files, i + 1);
          return Err(PushError);
        }
        if stem in members {
          members := members[stem := members[stem] + [file]];
        } else {
          keys := keys + [stem];
          members := members[stem := [file]];
        }
      }
      i := i + 1;
    }
    assert files[..i] == files;
    r := Ok(Groups(keys, members));
  }

  /** Once grouping has failed on a prefix, it fails with the same error. */
  lemma {:induction false} GroupedStaysFailed(files: seq<Name>, n: nat)
    requires n <= |files| && Grouped(files[..n]).Err?
    ensures Grouped(files) == Grouped(files[..n])
    decreases |files| - n
  {
    if n < |files| {
      assert files[..n + 1][..n] == files[..n];
      GroupedStaysFailed(files, n + 1);
    } else {
      assert files[..n] == files;
    }
  }

  /** Lines 62-66: the members of one archive, read from folder `dir`. */
  method CollectMembers(fs: FileSystem, dir: Path, files: seq<Name>) returns (es: seq<Entry>)
    requires dir in fs.dirs && forall f | f in files :: f in fs.dirs[dir].files
    ensures es == MembersOf(fs.dirs[dir], files)
  {
    es := [];
    var i := 0;
    while i < |files|
      invariant 0 <= i <= |files|
      invariant es == MembersOf(fs.dirs[dir], files[..i])
    {
      assert files[..i + 1][..i] == files[..i];
      es := es + [Entry(files[i], false, fs.dirs[dir].files[files[i]])];
      i := i + 1;
    }
    assert files[..i] == files;
  }

  /** One step of the archive-writing loop: the folder so far still holds
      every grouped file, and the next archive is built from it. */
  lemma WriteStep(d: Dir, g: Groups, c: Codec, i: nat)
    requires i < |g.keys| && GroupsIn(g, d)
    ensures var w, k := WriteGroups(d, g, c, i), g.keys[i];
      && k in g.members
      && (forall f | f in g.members[k] :: f in w.files)
      && WriteGroups(d, g, c, i + 1) == w.Write(k + ".zip", c.build(MembersOf(w, g.members[k])))
  {
  }

  /** Lines 59-72: one archive per stem, written in stem order. */
  method WriteArchives(fs: FileSystem, dir: Path, g: Groups, c: Codec)
    requires dir in fs.dirs && GroupsIn(g, fs.dirs[dir])
    modifies fs
    ensures fs.dirs == old(fs.dirs)[dir := WriteGroups(old(fs.dirs)[dir], g, c, |g.keys|)]
  {
    ghost var d0 := fs.dirs[dir];
    var i := 0;
    while i < |g.keys|
      invariant 0 <= i <= |g.keys|
      invariant fs.dirs == old(fs.dirs)[dir := WriteGroups(d0, g, c, i)]
    {
      var stem := g.keys[i];
      WriteStep(d0, g, c, i);
      var es := CollectMembers(fs, dir, g.members[stem]);
      UpdateTwice(old(fs.dirs), dir, WriteGroups(d0, g, c, i), WriteGroups(d0, g, c, i + 1));
      fs.dirs := fs.dirs[dir := fs.dirs[dir].Write(stem + ".zip", c.build(es))];
      i := i + 1;
    }
  }

  /** `zipFilesGroupByShapefile(folderPath)` (lines 39-82). Reading a
      missing folder throws; a grouping error throws before anything is
      written. */
  method ZipFilesGroupByShapefile(fs: FileSystem, dir: Path, c: Codec) returns (r: Result<()>)
    requires dir in fs.dirs ==> fs.dirs[dir].Valid()
    modifies fs
    ensures dir !in old(fs.dirs) ==> r == Err(NoSuchEntry(dir)) && fs.dirs == old(fs.dirs)
    ensures dir in old(fs.dirs) && Regrouped(old(fs.dirs)[dir], c).Err? ==>
      r == Err(Regrouped(old(fs.dirs)[dir], c).message) && fs.dirs == old(fs.dirs)
    ensures dir in old(fs.dirs) && Regrouped(old(fs.dirs)[dir], c).Ok? ==>
      r.Ok? && fs.dirs == old(fs.dirs)[dir := Regrouped(old(fs.dirs)[dir], c).value]
  {
    var listing := fs.ReadDir(dir);
    if listing.Err? {
      return Err(listing.message);
    }
    var grouped := GroupByStem(listing.value);
    if grouped.Err? {
      return Err(grouped.message);
    }
    GroupedConsistent(fs.dirs[dir]);
    WriteArchives(fs, dir, grouped.value, c);
    var after := fs.ReadDir(dir);
    ghost var w := fs.dirs;
    r := fs.ClearFolder(dir, ZipsThenSlds(after.value));
    UpdateTwice(old(fs.dirs), dir, w[dir], fs.dirs[dir]);
  }
}
