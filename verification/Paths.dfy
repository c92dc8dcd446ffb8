/** The path algebra of GPath. */
module Paths {
  import opened Bytes
  import Utf8

  type Path = seq<byte>

  const SLASH: byte := 47
  const ROOT: Path := [SLASH]

  predicate EndsInSlash(p: Path) {
    p != [] && p[|p| - 1] == SLASH
  }

  // ---------------------------------------------------------------- the operations

  function Child(p: Path, name: Path): Path {
    var noPrefix := if [SLASH] <= name then name[1..] else name;
    if EndsInSlash(p) then p + noPrefix else p + [SLASH] + noPrefix
  }

  /** filepath.Split: everything up to and including the last slash, and the rest. */
  function FileSplit(p: Path): (r: (Path, Path))
    ensures p == r.0 + r.1 && SLASH !in r.1
    ensures r.0 == [] || EndsInSlash(r.0)
  {
    if p == [] then ([], [])
    else if EndsInSlash(p) then (p, [])
    else
      var n := |p| - 1;
      var (dir, name) := FileSplit(p[..n]);
      assert p == p[..n] + [p[n]];
      (dir, name + [p[n]])
  }

  function DirAndName(p: Path): (Path, Path) {
    var (dir, raw) := FileSplit(p);
    var name := Utf8.ToValid(raw, false);
    if dir == ROOT then (dir, name)
    else if dir == [] then (ROOT, [])
    else (dir[..|dir| - 1], name)
  }

  /** strings.Split(s, "/") */
  function SplitSlash(s: Path): (parts: seq<Path>)
    ensures parts != []
    ensures forall i :: 0 <= i < |parts| ==> SLASH !in parts[i]
  {
    if s == [] then [[]]
    else
      var rest := SplitSlash(s[1..]);
      if s[0] == SLASH then [[]] + rest else [[s[0]] + rest[0]] + rest[1..]
  }

  function Split(p: Path): seq<Path> {
    if p == [] || p == ROOT then [] else SplitSlash(p[1..])
  }

  predicate IsUnder(p: Path, other: Path) {
    other == ROOT || other + [SLASH] <= p
  }

  // ---------------------------------------------------------------- splitting and joining

  /** Every part behind a slash. */
  function Slashed(parts: seq<Path>): Path {
    if parts == [] then [] else [SLASH] + (parts[0] + Slashed(parts[1..]))
  }

  lemma {:induction false} SlashedConcat(a: seq<Path>, b: seq<Path>)
    ensures Slashed(a + b) == Slashed(a) + Slashed(b)
    decreases |a|
  {
    if a == [] {
      assert a + b == b;
    } else {
      assert (a + b)[1..] == a[1..] + b;
      SlashedConcat(a[1..], b);
    }
  }

  lemma Cancel(a: Path, b: Path)
    requires [SLASH] + a == [SLASH] + b
    ensures a == b
  {
    assert ([SLASH] + a)[1..] == a && ([SLASH] + b)[1..] == b;
  }

  /** Joining undoes splitting. */
  lemma {:induction false} JoinSplit(s: Path)
    ensures Slashed(SplitSlash(s)) == [SLASH] + s
  {
    if s == [] {
      var one: seq<Path> := [[]];
      assert one[1..] == [];
    } else {
      var rest := SplitSlash(s[1..]);
      JoinSplit(s[1..]);
      if s[0] == SLASH {
        assert SplitSlash(s)[1..] == rest;
        assert s == [SLASH] + s[1..];
      } else {
        Cancel(rest[0] + Slashed(rest[1..]), s[1..]);
        var parts := [[s[0]] + rest[0]] + rest[1..];
        assert parts[1..] == rest[1..];
        assert ([s[0]] + rest[0]) + Slashed(rest[1..]) == [s[0]] + (rest[0] + Slashed(rest[1..]));
        assert s == [s[0]] + s[1..];
      }
    }
  }

  /** A slash splits a split. */
  lemma {:induction false} SplitAtSlash(a: Path, b: Path)
    ensures SplitSlash(a + [SLASH] + b) == SplitSlash(a) + SplitSlash(b)
  {
    var s := a + [SLASH] + b;
    if a == [] {
      assert s[1..] == b;
    } else {
      assert s[1..] == a[1..] + [SLASH] + b;
      SplitAtSlash(a[1..], b);
    }
  }

  // ---------------------------------------------------------------- IsUnder

  predicate Absolute(p: Path) {
    p != [] && p[0] == SLASH
  }

  predicate ProperPrefix(a: seq<Path>, b: seq<Path>) {
    |a| < |b| && a <= b
  }

  /** One path lies under another, not the root, exactly when its parts properly extend the
      other's. */
  lemma IsUnderIff(p: Path, q: Path)
    requires Absolute(p) && Absolute(q) && q != ROOT
    ensures IsUnder(p, q) <==> ProperPrefix(Split(q), Split(p))
  {
    if IsUnder(p, q) {
      var rest := p[|q| + 1..];
      assert p[1..] == q[1..] + [SLASH] + rest;
      SplitAtSlash(q[1..], rest);
    }
    if ProperPrefix(Split(q), Split(p)) {
      var a, c := Split(q), Split(p);
      var b := c[|a|..];
      assert c == a + b;
      SlashedConcat(a, b);
      JoinSplit(p[1..]);
      JoinSplit(q[1..]);
      assert p == [SLASH] + p[1..] && q == [SLASH] + q[1..];
    }
  }

  // ---------------------------------------------------------------- DirAndName inverts Child

  /** Two ways to cut a path behind its last slash are the same. */
  lemma FileSplitUnique(p: Path, dir: Path, name: Path)
    requires p == dir + name && SLASH !in name && EndsInSlash(dir)
    ensures FileSplit(p) == (dir, name)
  {
    var (d, n) := FileSplit(p);
    assert p[|dir| - 1] == SLASH && forall i :: |dir| <= i < |p| ==> p[i] == name[i - |dir|];
    assert (d != [] ==> p[|d| - 1] == SLASH) && forall i :: |d| <= i < |p| ==> p[i] == n[i - |d|];
    assert |d| == |dir|;
    assert p[..|dir|] == dir && p[..|d|] == d;
    assert p[|dir|..] == name && p[|d|..] == n;
  }

  /** No name that DirAndName returns holds a slash. */
  lemma NameHasNoSlash(p: Path)
    ensures SLASH !in DirAndName(p).1
  {
    var raw := FileSplit(p).1;
    if SLASH in Utf8.ToValid(raw, false) {
      Utf8.AddsOnlyMarks(raw, false, SLASH);
    }
  }

  /** DirAndName takes a child apart again exactly when the name is valid UTF-8 without a slash and
      the directory is the root, or a non-empty path without a trailing slash. */
  lemma DirAndNameIff(p: Path, name: Path)
    ensures DirAndName(Child(p, name)) == (p, name) <==>
      SLASH !in name && Utf8.Valid(name) && (p == ROOT || (p != [] && !EndsInSlash(p)))
  {
    if SLASH in name {
      NameHasNoSlash(Child(p, name));
    } else {
      PlainNameIff(p, name);
    }
  }

  lemma PlainNameIff(p: Path, name: Path)
    requires SLASH !in name
    ensures DirAndName(Child(p, name)) == (p, name) <==>
      Utf8.Valid(name) && (p == ROOT || (p != [] && !EndsInSlash(p)))
  {
    var dir := if EndsInSlash(p) then p else p + [SLASH];
    assert name != [] ==> name[0] in name;
    assert Child(p, name) == dir + name;
    FileSplitUnique(dir + name, dir, name);
    Utf8.KeptIff(name);
    assert !EndsInSlash(p) ==> dir[..|dir| - 1] == p;
  }

  // ---------------------------------------------------------------- rebuilding a path from its parts

  function Rebuild(p: Path, parts: seq<Path>): Path
    decreases |parts|
  {
    if parts == [] then p else Rebuild(Child(p, parts[0]), parts[1..])
  }

  ghost predicate NoDoubleSlash(p: Path) {
    forall i :: 0 <= i < |p| - 1 ==> p[i] != SLASH || p[i + 1] != SLASH
  }

  /** Empty parts are allowed only at the end. */
  ghost predicate Proper(parts: seq<Path>) {
    forall i :: 0 <= i < |parts| - 1 ==> parts[i] != []
  }

  lemma ChildOf(p: Path, x: Path)
    requires SLASH !in x
    ensures Child(p, x) == (if EndsInSlash(p) then p else p + [SLASH]) + x
    ensures EndsInSlash(Child(p, x)) <==> x == []
  {
    assert x != [] ==> x[0] in x && x[|x| - 1] in x;
  }

  /** Rebuilding never gets longer than joining; it gets shorter where a slash is already there. */
  lemma {:induction false} RebuildShorter(p: Path, parts: seq<Path>)
    requires forall i :: 0 <= i < |parts| ==> SLASH !in parts[i]
    ensures |Rebuild(p, parts)| <= |p| + |Slashed(parts)|
    ensures parts != [] && (EndsInSlash(p) || !Proper(parts)) ==> |Rebuild(p, parts)| < |p| + |Slashed(parts)|
    decreases |parts|
  {
    if parts != [] {
      ChildOf(p, parts[0]);
      ProperCons(parts);
      RebuildShorter(Child(p, parts[0]), parts[1..]);
    }
  }

  /** Behind a path without trailing slash, and with no empty part before the last, it is joining. */
  lemma {:induction false} RebuildJoins(p: Path, parts: seq<Path>)
    requires forall i :: 0 <= i < |parts| ==> SLASH !in parts[i]
    requires !EndsInSlash(p) && Proper(parts)
    ensures Rebuild(p, parts) == p + Slashed(parts)
    decreases |parts|
  {
    if parts != [] {
      var x, rest := parts[0], parts[1..];
      ChildOf(p, x);
      ProperCons(parts);
      if rest != [] {
        RebuildJoins(Child(p, x), rest);
      }
      assert (p + [SLASH] + x) + Slashed(rest) == p + ([SLASH] + (x + Slashed(rest)));
    }
  }

  lemma ProperCons(parts: seq<Path>)
    requires parts != []
    ensures Proper(parts) <==> |parts| == 1 || (parts[0] != [] && Proper(parts[1..]))
  {
    if |parts| > 1 && parts[0] != [] && Proper(parts[1..]) {
      forall i | 0 <= i < |parts| - 1 ensures parts[i] != [] {
        if i > 0 {
          assert parts[1..][i - 1] != [];
        }
      }
    }
    if Proper(parts) {
      forall i | 0 <= i < |parts[1..]| - 1 ensures parts[1..][i] != [] {
        assert parts[i + 1] != [];
      }
    }
  }

  /** A split has an empty part before its end exactly where the path has two slashes in a row. */
  lemma {:induction false} ProperIff(s: Path)
    ensures Proper(SplitSlash(s)) <==> NoDoubleSlash([SLASH] + s)
    decreases |s|, 1
  {
    ProperCons(SplitSlash(s));
    ProperTailIff(s);
    NoDoubleCons([SLASH] + s);
    assert ([SLASH] + s)[1..] == s;
  }

  lemma {:induction false} ProperTailIff(s: Path)
    ensures Proper(SplitSlash(s)[1..]) <==> NoDoubleSlash(s)
    ensures SplitSlash(s)[0] == [] <==> s == [] || s[0] == SLASH
    ensures |SplitSlash(s)| == 1 ==> NoDoubleSlash(s) && (s != [] ==> s[0] != SLASH)
    decreases |s|, 0
  {
    if s != [] {
      var rest := SplitSlash(s[1..]);
      NoDoubleCons(s);
      if s[0] == SLASH {
        ProperIff(s[1..]);
        assert s == [SLASH] + s[1..];
        assert SplitSlash(s)[1..] == rest;
      } else {
        ProperTailIff(s[1..]);
        assert SplitSlash(s)[1..] == rest[1..];
      }
    }
  }

  lemma NoDoubleCons(p: Path)
    requires p != []
    ensures NoDoubleSlash(p) <==> NoDoubleSlash(p[1..]) && (|p| > 1 ==> p[0] != SLASH || p[1] != SLASH)
  {
    if NoDoubleSlash(p) {
      forall i | 0 <= i < |p[1..]| - 1 ensures p[1..][i] != SLASH || p[1..][i + 1] != SLASH {
        assert p[i + 1] != SLASH || p[i + 1 + 1] != SLASH;
      }
    }
    if NoDoubleSlash(p[1..]) && (|p| > 1 ==> p[0] != SLASH || p[1] != SLASH) {
      forall i | 0 <= i < |p| - 1 ensures p[i] != SLASH || p[i + 1] != SLASH {
        if i > 0 {
          assert p[1..][i - 1] != SLASH || p[1..][i - 1 + 1] != SLASH;
        }
      }
    }
  }

  /** Walking down the parts of a path from the root rebuilds it exactly when it is absolute and
      has no two slashes in a row. */
  lemma RebuildIff(p: Path)
    ensures Rebuild(ROOT, Split(p)) == p <==> Absolute(p) && NoDoubleSlash(p)
  {
    if p != [] && p != ROOT {
      var parts := Split(p);
      var x, rest := parts[0], parts[1..];
      assert x != [] ==> x[0] in x;
      assert Child(ROOT, x) == [SLASH] + x;
      assert [SLASH] + x + Slashed(rest) == [SLASH] + (x + Slashed(rest));
      JoinSplit(p[1..]);
      ProperIff(p[1..]);
      ProperCons(parts);
      RebuildShorter([SLASH] + x, rest);
      if Proper(parts) && rest != [] {
        RebuildJoins([SLASH] + x, rest);
      }
      RebuildKeepsStart(Child(ROOT, x), rest);
      if Absolute(p) {
        assert p == [SLASH] + p[1..];
      }
    }
  }

  lemma {:induction false} RebuildKeepsStart(p: Path, parts: seq<Path>)
    ensures p <= Rebuild(p, parts)
    decreases |parts|
  {
    if parts != [] {
      RebuildKeepsStart(Child(p, parts[0]), parts[1..]);
    }
  }
}
