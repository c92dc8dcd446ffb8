/** The TiKV backend: its bucket and range loops. Each runs on what its transaction shows. */
module Tikv {
  import opened Keys
  import opened StoreSpec

  // ---------------------------------------------------------------- scans

  /** The keys of `ks[at..i]` that the loop of Scan keeps. */
  ghost function Kept(ks: seq<Key>, at: nat, i: nat, prefix: Key, end: Key): set<Key>
    requires at <= i <= |ks|
  {
    set k | k in ks[at..i] && HasPrefix(k, prefix) && Le(k, end)
  }

  lemma KeptGrows(ks: seq<Key>, at: nat, i: nat, prefix: Key, end: Key)
    requires at <= i < |ks|
    ensures Kept(ks, at, i + 1, prefix, end)
      == Kept(ks, at, i, prefix, end) + if HasPrefix(ks[i], prefix) && Le(ks[i], end) then {ks[i]} else {}
  {
    assert ks[at..i + 1] == ks[at..i] + [ks[i]];
  }

  lemma AppendListing(es: seq<Entry>, db: Db, want: set<Key>, ks: seq<Key>, at: nat, i: nat)
    requires IsListing(es, db, want) && Lists(ks, db.Keys) && at <= i < |ks|
    requires forall k :: k in want ==> k in ks[at..i]
    ensures IsListing(es + [Entry(ks[i], db[ks[i]])], db, want + {ks[i]})
  {
    assert ks[i] in db;
    var e := Entry(ks[i], db[ks[i]]);
    var r := es + [e];
    assert KeysOf(r) == KeysOf(es) + [ks[i]];
    forall a | 0 <= a < |es| ensures Lt(KeysOf(es)[a], ks[i]) {
      assert KeysOf(es)[a] in KeysOf(es);
      var j :| 0 <= j < i - at && ks[at..i][j] == KeysOf(es)[a];
      assert Lt(ks[at + j], ks[i]);
    }
  }

  /** TikvStore.Scan: the iterator covers [begin, end), or everything from `begin` for an empty end. */
  method Scan(db: Db, prefix: Key, begin: Key, end: Key) returns (res: seq<Entry>)
    ensures IsListing(res, db, TikvRange(db, prefix, begin, end))
  {
    var ks := SortedKeys(db);
    var at := Seek(ks, begin);
    var stop := |ks|;
    if end != [] {
      stop := Seek(ks, end);
    }
    res := [];
    var i := at;
    while i < stop
      invariant at <= i <= |ks| && (i <= stop || i == at)
      invariant IsListing(res, db, Kept(ks, at, i, prefix, end))
    {
      KeptGrows(ks, at, i, prefix, end);
      if HasPrefix(ks[i], prefix) && Le(ks[i], end) {
        AppendListing(res, db, Kept(ks, at, i, prefix, end), ks, at, i);
        res := res + [Entry(ks[i], db[ks[i]])];
      }
      i := i + 1;
    }
    KeptIsRange(ks, db, prefix, begin, end, at, i);
  }

  lemma KeptIsRange(ks: seq<Key>, db: Db, prefix: Key, begin: Key, end: Key, at: nat, i: nat)
    requires Lists(ks, db.Keys) && at <= i <= |ks|
    requires forall k :: 0 <= k < at ==> Lt(ks[k], begin)
    requires forall k :: at <= k < |ks| ==> Le(begin, ks[k])
    requires end != [] ==> forall k :: i <= k < |ks| ==> Le(end, ks[k])
    requires end != [] ==> forall k :: at <= k < i ==> Lt(ks[k], end)
    requires end == [] ==> i == |ks|
    ensures Kept(ks, at, i, prefix, end) == TikvRange(db, prefix, begin, end)
  {
    forall k | k in TikvRange(db, prefix, begin, end) ensures k in ks[at..i] {
      assert k in ks;
      var j :| 0 <= j < |ks| && ks[j] == k;
      if j < at {
        LeAntisymmetric(k, begin);
      }
      if i <= j {
        LeAntisymmetric(k, end);
      }
      assert ks[at..i][j - at] == k;
    }
  }

  // ---------------------------------------------------------------- buckets

  /** TikvStore.GetByBucket: everything from the prefix on is visited, what lies under it is kept. */
  method GetByBucket(db: Db, prefix: Key) returns (res: Db)
    ensures res == Under(db, prefix)
  {
    var ks := SortedKeys(db);
    var at := Seek(ks, prefix);
    res := map[];
    for i := at to |ks|
      invariant forall k :: k in res <==> k in ks[at..i] && HasPrefix(k, prefix)
      invariant forall k :: k in res ==> k in db && res[k] == db[k]
    {
      assert ks[at..i + 1] == ks[at..i] + [ks[i]];
      assert ks[i] in db;
      if HasPrefix(ks[i], prefix) {
        res := res[ks[i] := db[ks[i]]];
      }
    }
    AllVisited(ks, db, prefix, at);
  }

  /** TikvStore.DeleteByBucket */
  method DeleteByBucket(db: Db, bucket: Key) returns (after: Db)
    ensures after == Without(db, bucket)
  {
    var ks := SortedKeys(db);
    var at := Seek(ks, bucket);
    after := db;
    for i := at to |ks|
      invariant forall k :: k in after <==> k in db && !(k in ks[at..i] && HasPrefix(k, bucket))
      invariant forall k :: k in after ==> after[k] == db[k]
    {
      assert ks[at..i + 1] == ks[at..i] + [ks[i]];
      if HasPrefix(ks[i], bucket) {
        after := after - {ks[i]};
      }
    }
    AllVisited(ks, db, bucket, at);
  }

  /** Seeking the prefix skips nothing that has it. */
  lemma AllVisited(ks: seq<Key>, db: Db, prefix: Key, at: nat)
    requires Lists(ks, db.Keys) && at <= |ks|
    requires forall k :: 0 <= k < at ==> Lt(ks[k], prefix)
    ensures forall k :: k in db && HasPrefix(k, prefix) ==> k in ks[at..|ks|]
  {
    forall k | k in db && HasPrefix(k, prefix) ensures k in ks[at..|ks|] {
      PrefixIsLe(prefix, k);
      assert k in ks;
      var j :| 0 <= j < |ks| && ks[j] == k;
      if j < at {
        LeAntisymmetric(k, prefix);
      }
      assert ks[at..|ks|][j - at] == k;
    }
  }
}
