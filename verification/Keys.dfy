/** Keys of the key-value layer: byte strings in lexicographic order, with `/` as separator. */
module Keys {
  import opened Bytes

  type Key = seq<byte>
  type Value = seq<byte>
  type Db = map<Key, Value>

  const SEP: byte := 47

  /** Go's `a <= b` on strings, and bytes.Compare. */
  predicate Le(a: Key, b: Key) {
    a == [] || (b != [] && (a[0] < b[0] || (a[0] == b[0] && Le(a[1..], b[1..]))))
  }

  predicate Lt(a: Key, b: Key) {
    Le(a, b) && a != b
  }

  lemma {:induction false} LeReflexive(a: Key)
    ensures Le(a, a)
  {
    if a != [] { LeReflexive(a[1..]); }
  }

  lemma {:induction false} LeTotal(a: Key, b: Key)
    ensures Le(a, b) || Le(b, a)
  {
    if a != [] && b != [] { LeTotal(a[1..], b[1..]); }
  }

  lemma {:induction false} LeAntisymmetric(a: Key, b: Key)
    requires Le(a, b) && Le(b, a)
    ensures a == b
  {
    if a != [] && b != [] {
      LeAntisymmetric(a[1..], b[1..]);
      assert a == [a[0]] + a[1..] && b == [b[0]] + b[1..];
    }
  }

  lemma {:induction false} LeTransitive(a: Key, b: Key, c: Key)
    requires Le(a, b) && Le(b, c)
    ensures Le(a, c)
  {
    if a != [] && a[0] == b[0] == c[0] { LeTransitive(a[1..], b[1..], c[1..]); }
  }

  lemma LtTransitive(a: Key, b: Key, c: Key)
    requires (Lt(a, b) && Le(b, c)) || (Le(a, b) && Lt(b, c))
    ensures Lt(a, c)
  {
    LeTransitive(a, b, c);
    if a == c {
      LeAntisymmetric(a, b);
    }
  }

  /** strings.HasPrefix */
  predicate HasPrefix(k: Key, p: Key) {
    p <= k
  }

  lemma {:induction false} PrefixIsLe(p: Key, k: Key)
    requires HasPrefix(k, p)
    ensures Le(p, k)
  {
    if p != [] { PrefixIsLe(p[1..], k[1..]); }
  }

  /** The keys with a given prefix are a convex part of the order. */
  lemma {:induction false} PrefixConvex(p: Key, a: Key, b: Key, c: Key)
    requires HasPrefix(a, p) && HasPrefix(c, p) && Le(a, b) && Le(b, c)
    ensures HasPrefix(b, p)
  {
    if p != [] {
      PrefixConvex(p[1..], a[1..], b[1..], c[1..]);
      assert b == [b[0]] + b[1..] && p == [p[0]] + p[1..];
    }
  }

  /** A key at or after a prefix that does not have it comes after every key that does. */
  lemma AfterPrefix(p: Key, k: Key, m: Key)
    requires Le(p, k) && !HasPrefix(k, p) && HasPrefix(m, p)
    ensures Lt(m, k)
  {
    LeTotal(m, k);
    if Le(k, m) {
      PrefixConvex(p, p, k, m);
    }
  }

  // ---------------------------------------------------------------- bucket names

  predicate EndsInSep(k: Key) {
    k != [] && k[|k| - 1] == SEP
  }

  /** strings.TrimSuffix(k, "/") */
  function TrimSep(k: Key): Key {
    if EndsInSep(k) then k[..|k| - 1] else k
  }

  /** strings.Count(k, "/") */
  function CountSep(k: Key): nat {
    if k == [] then 0 else One(k[0] == SEP) + CountSep(k[1..])
  }

  // ---------------------------------------------------------------- sorted listings

  predicate Ascending(ks: seq<Key>) {
    forall i, j :: 0 <= i < j < |ks| ==> Lt(ks[i], ks[j])
  }

  /** `ks` holds exactly the keys in `want`, in order. */
  ghost predicate Lists(ks: seq<Key>, want: set<Key>) {
    Ascending(ks) && forall k :: k in ks <==> k in want
  }

  lemma ListsEmpty(a: seq<Key>, want: set<Key>)
    requires Lists(a, want)
    ensures a == [] <==> want == {}
  {
    if a != [] {
      assert a[0] in want;
    }
  }

  /** There is only one way to list a set. */
  lemma {:induction false} ListingUnique(a: seq<Key>, b: seq<Key>, want: set<Key>)
    requires Lists(a, want) && Lists(b, want)
    ensures a == b
    decreases |a|
  {
    ListsEmpty(a, want);
    ListsEmpty(b, want);
    if a != [] {
      var x := a[|a| - 1];
      assert x in want;
      var y := b[|b| - 1];
      assert y in want;
      LastIsGreatest(a, y);
      LastIsGreatest(b, x);
      LeAntisymmetric(x, y);
      DropLast(a, want);
      DropLast(b, want);
      ListingUnique(a[..|a| - 1], b[..|b| - 1], want - {x});
    }
  }

  lemma LastIsGreatest(a: seq<Key>, k: Key)
    requires Ascending(a) && k in a
    ensures Le(k, a[|a| - 1])
  {
    LeReflexive(k);
  }

  lemma DropLast(a: seq<Key>, want: set<Key>)
    requires Lists(a, want) && a != []
    ensures Lists(a[..|a| - 1], want - {a[|a| - 1]})
  {
    var n := |a| - 1;
    assert forall i :: 0 <= i < n ==> Lt(a[i], a[n]);
    assert a == a[..n] + [a[n]];
  }

  /** Everything before the first key that is not below `k` is below it, and nothing behind is. */
  lemma PlaceSplits(ks: seq<Key>, k: Key, at: nat)
    requires Ascending(ks) && at <= |ks|
    requires forall i :: 0 <= i < at ==> !Le(k, ks[i])
    requires at < |ks| ==> Le(k, ks[at])
    ensures forall i :: 0 <= i < at ==> Lt(ks[i], k)
    ensures forall i :: at <= i < |ks| ==> Le(k, ks[i])
  {
    forall i | 0 <= i < at ensures Lt(ks[i], k) {
      LeTotal(k, ks[i]);
      LeReflexive(k);
    }
    forall i | at <= i < |ks| ensures Le(k, ks[i]) {
      if at < i {
        LeTransitive(k, ks[at], ks[i]);
      }
    }
  }

  /** The place of `k` in a sorted list: it.Seek. */
  method Seek(ks: seq<Key>, k: Key) returns (at: nat)
    requires Ascending(ks)
    ensures at <= |ks|
    ensures forall i :: 0 <= i < at ==> Lt(ks[i], k)
    ensures forall i :: at <= i < |ks| ==> Le(k, ks[i])
  {
    at := 0;
    while at < |ks| && !Le(k, ks[at])
      invariant at <= |ks|
      invariant forall i :: 0 <= i < at ==> !Le(k, ks[i])
    {
      at := at + 1;
    }
    PlaceSplits(ks, k, at);
  }

  /** An iterator over a store: its keys in order. */
  method SortedKeys(db: Db) returns (ks: seq<Key>)
    ensures Lists(ks, db.Keys)
  {
    ks := [];
    var todo := db.Keys;
    while todo != {}
      invariant todo <= db.Keys
      invariant Lists(ks, db.Keys - todo)
      decreases todo
    {
      var k :| k in todo;
      ks := InsertKey(ks, k, db.Keys - todo);
      todo := todo - {k};
      assert db.Keys - todo == (db.Keys - todo - {k}) + {k};
    }
    assert db.Keys - todo == db.Keys;
  }

  method InsertKey(ks: seq<Key>, k: Key, ghost have: set<Key>) returns (r: seq<Key>)
    requires Lists(ks, have) && k !in have
    ensures Lists(r, have + {k})
  {
    var at := Seek(ks, k);
    r := ks[..at] + [k] + ks[at..];
    InsertLists(ks, k, at, have);
  }

  lemma InsertLists(ks: seq<Key>, k: Key, at: nat, have: set<Key>)
    requires Lists(ks, have) && k !in have && at <= |ks|
    requires forall i :: 0 <= i < at ==> Lt(ks[i], k)
    requires forall i :: at <= i < |ks| ==> Le(k, ks[i])
    ensures Lists(ks[..at] + [k] + ks[at..], have + {k})
  {
    var r := ks[..at] + [k] + ks[at..];
    forall i | at <= i < |ks| ensures Lt(k, ks[i]) {
      assert ks[i] in ks;
    }
    InsertAscending(ks, k, at);
    forall x ensures x in r <==> x in have + {k} {
      assert x in r <==> x in ks[..at] || x == k || x in ks[at..];
      assert ks == ks[..at] + ks[at..];
    }
  }

  lemma InsertAscending(ks: seq<Key>, k: Key, at: nat)
    requires Ascending(ks) && at <= |ks|
    requires forall i :: 0 <= i < at ==> Lt(ks[i], k)
    requires forall i :: at <= i < |ks| ==> Lt(k, ks[i])
    ensures Ascending(ks[..at] + [k] + ks[at..])
  {
    var r := ks[..at] + [k] + ks[at..];
    forall i, j | 0 <= i < j < |r| ensures Lt(r[i], r[j]) {
      assert r[i] == if i < at then ks[i] else if i == at then k else ks[i - 1];
      assert r[j] == if j < at then ks[j] else if j == at then k else ks[j - 1];
    }
  }

  /** How many keys at the front are below `k`. */
  function Place(ks: seq<Key>, k: Key): (at: nat)
    ensures at <= |ks| && (at < |ks| ==> Le(k, ks[at]))
    ensures forall i :: 0 <= i < at ==> !Le(k, ks[i])
  {
    if ks == [] || Le(k, ks[0]) then 0 else 1 + Place(ks[1..], k)
  }

  /** Every finite set of keys has a listing. */
  lemma {:induction false} ListingExists(want: set<Key>) returns (ks: seq<Key>)
    ensures Lists(ks, want)
    decreases want
  {
    if want == {} {
      ks := [];
    } else {
      var k :| k in want;
      var rest := ListingExists(want - {k});
      var at := Place(rest, k);
      PlaceSplits(rest, k, at);
      InsertLists(rest, k, at, want - {k});
      ks := rest[..at] + [k] + rest[at..];
      assert want == (want - {k}) + {k};
    }
  }
}
