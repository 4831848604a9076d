/** Failure-compatible result and optional values, used for the JavaScript
    `undefined` / `null` and for thrown errors. */
module Wrappers {

  datatype Option<+T> = None | Some(value: T)

  /** A call that either returns a value or throws an error carrying a message. */
  datatype Result<+T> = Ok(value: T) | Err(message: string) {
    predicate IsFailure() { Err? }
    function PropagateFailure<U>(): Result<U>
      requires Err?
    {
      Err(message)
    }
    function Extract(): T
      requires Ok?
    {
      value
    }
  }
}

/** The few JavaScript string operations the ingestion pipeline relies on,
    with their JavaScript meaning (`endsWith`, `lastIndexOf`, `indexOf`,
    `substring`, `split(..)[0]`, `split(..).pop()`, `replace` with a string
    pattern). The path separator is the POSIX `path.sep`, '/'. */
module Strings {

  const Sep: char := '/'

  predicate EndsWith(s: string, suffix: string) {
    |suffix| <= |s| && s[|s| - |suffix|..] == suffix
  }

  predicate StartsWith(s: string, prefix: string) {
    |prefix| <= |s| && s[..|prefix|] == prefix
  }

  /** `s.lastIndexOf(c)`: the last position holding `c`, or -1. */
  function LastIndexOf(s: string, c: char): (r: int)
    ensures -1 <= r < |s|
    ensures r >= 0 ==> s[r] == c
    ensures forall j :: r < j < |s| ==> s[j] != c
  {
    if |s| == 0 then -1
    else if s[|s| - 1] == c then |s| - 1
    else LastIndexOf(s[..|s| - 1], c)
  }

  /** `s.indexOf(c)`: the first position holding `c`, or -1. */
  function IndexOf(s: string, c: char): (r: int)
    ensures -1 <= r < |s|
    ensures r >= 0 ==> s[r] == c
    ensures forall j :: 0 <= j < |s| && (r < 0 || j < r) ==> s[j] != c
  {
    if |s| == 0 then -1
    else if s[0] == c then 0
    else var k := IndexOf(s[1..], c); if k < 0 then -1 else k + 1
  }

  /** `pat` occurs in `s` starting at position `j`. */
  predicate OccursAt(s: string, pat: string, j: int) {
    0 <= j && j + |pat| <= |s| && s[j..j + |pat|] == pat
  }

  /** `s.indexOf(pat)` for a string pattern: the first position where `pat`
      occurs, or -1. */
  function IndexOfSub(s: string, pat: string): (r: int)
    ensures -1 <= r <= |s|
    ensures r >= 0 ==> OccursAt(s, pat, r)
    ensures forall j :: (r < 0 || j < r) ==> !OccursAt(s, pat, j)
  {
    if OccursAt(s, pat, 0) then 0
    else if |s| == 0 then -1
    else
      var k := IndexOfSub(s[1..], pat);
      assert forall j :: 1 <= j ==> (OccursAt(s, pat, j) <==> OccursAt(s[1..], pat, j - 1)) by {
        forall j | 1 <= j ensures OccursAt(s, pat, j) <==> OccursAt(s[1..], pat, j - 1) {
          if j + |pat| <= |s| {
            var a, b := s[j..j + |pat|], s[1..][j - 1..j - 1 + |pat|];
            assert |a| == |b|;
            assert forall t :: 0 <= t < |a| ==> a[t] == b[t];
            assert a == b;
          }
        }
      }
      if k < 0 then -1 else k + 1
  }

  /** `s.replace(pat, rep)` with a string pattern: only the first occurrence
      is replaced; without an occurrence `s` is returned as it is. */
  function ReplaceFirst(s: string, pat: string, rep: string): string
  {
    var k := IndexOfSub(s, pat);
    if k < 0 then s else s[..k] + rep + s[k + |pat|..]
  }

  /** `name.substring(0, name.lastIndexOf("."))`: JavaScript clamps the
      negative end -1 to 0, so a name without a dot has the empty stem. */
  function Stem(name: string): string
  {
    var k := LastIndexOf(name, '.');
    if k < 0 then "" else name[..k]
  }

  /** `s.split(".")[0]`: the text before the first dot, or all of `s`. */
  function FirstSegment(s: string): string
  {
    var k := IndexOf(s, '.');
    if k < 0 then s else s[..k]
  }

  /** `p.split(path.sep).pop()` and `p.substring(p.lastIndexOf(path.sep) + 1)`:
      the text after the last separator. */
  function BaseName(p: string): string
  {
    p[LastIndexOf(p, Sep) + 1..]
  }

  /** The text before the last separator (the folder holding `p`), or "". */
  function DirName(p: string): string
  {
    var k := LastIndexOf(p, Sep);
    if k < 0 then "" else p[..k]
  }

  /** `a + path.sep + b`, the way the pipeline builds every path. */
  function Join(a: string, b: string): string
  {
    a + [Sep] + b
  }

  lemma {:induction false} StemOfSuffixed(t: string, ext: string)
    requires |ext| > 0 && ext[0] == '.' && '.' !in ext[1..]
    ensures Stem(t + ext) == t
  {
    var s := t + ext;
    var k := LastIndexOf(s, '.');
    assert s[|t|] == '.';
    assert forall j :: |t| < j < |s| ==> s[j] == ext[1..][j - |t| - 1];
    assert k == |t|;
    assert s[..k] == t;
  }

  lemma {:induction false} BaseNameOfJoin(dir: string, name: string)
    requires Sep !in name
    ensures BaseName(Join(dir, name)) == name
    ensures DirName(Join(dir, name)) == dir
  {
    var p := Join(dir, name);
    var k := LastIndexOf(p, Sep);
    assert p[|dir|] == Sep;
    assert forall j :: |dir| < j < |p| ==> p[j] == name[j - |dir| - 1];
    assert k == |dir|;
    assert p[k + 1..] == name;
    assert p[..k] == dir;
  }

  /** A bare name without a separator never equals a joined path. */
  lemma JoinHasSep(dir: string, name: string)
    ensures Sep in Join(dir, name)
  {
    assert Join(dir, name)[|dir|] == Sep;
  }
}
