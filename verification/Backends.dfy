/** Where the two backends agree, and what the bucket encoding keeps apart. */
module Backends {
  import opened Bytes
  import opened Keys
  import opened StoreSpec

  // ---------------------------------------------------------------- range scans

  /** What Badger's scan returned is the listing a caller wants exactly when no stored key lies
      between `begin` and the prefix, or no stored key qualifies. */
  lemma BadgerScanIff(es: seq<Entry>, db: Db, prefix: Key, begin: Key, end: Key)
    requires IsListing(es, db, BadgerRange(db, prefix, begin, end))
    ensures IsListing(es, db, Wanted(db, prefix, begin, end))
      <==> !Blocked(db, prefix, begin) || forall k :: k in db ==> !Qualifies(k, prefix, begin, end)
  {
    var want := Wanted(db, prefix, begin, end);
    assert forall k :: k in want <==> k in db && Qualifies(k, prefix, begin, end);
    if Blocked(db, prefix, begin) {
      ListsEmpty(KeysOf(es), {});
      if IsListing(es, db, want) {
        ListsEmpty(KeysOf(es), want);
      }
    }
  }

  /** A scan of everything under "b" from "a" on, in a store that holds both: the key "a" comes
      first, and Badger returns nothing. */
  lemma BlockedScan(a: byte, b: byte, v: Value)
    requires a < b
    ensures
      var db: Db := map[[a] := v, [b] := v];
      BadgerRange(db, [b], [a], []) == {} && Wanted(db, [b], [a], []) == {[b]}
  {
    var db: Db := map[[a] := v, [b] := v];
    assert Le([a], [a]) && Le([a], [b]);
    assert [a] in db && Lt([a], [b]);
    assert HasPrefix([b], [b]) && !HasPrefix([a], [b]);
  }

  /** In particular for a `begin` at or after the prefix. */
  lemma BeginAfterPrefix(db: Db, prefix: Key, begin: Key, end: Key)
    requires Le(prefix, begin)
    ensures BadgerRange(db, prefix, begin, end) == Wanted(db, prefix, begin, end)
  {
    forall k | k in db && Le(begin, k) ensures !Lt(k, prefix) {
      LeTransitive(prefix, begin, k);
      if Le(k, prefix) {
        LeAntisymmetric(k, prefix);
      }
    }
  }

  /** With an end given, and unless it is blocked, Badger's scan is TiKV's plus the entry stored at
      the end, if that qualifies. */
  lemma ScansDifferAtEnd(db: Db, prefix: Key, begin: Key, end: Key)
    requires end != []
    ensures end !in TikvRange(db, prefix, begin, end)
    ensures BadgerRange(db, prefix, begin, end) ==
      if Blocked(db, prefix, begin) then {}
      else TikvRange(db, prefix, begin, end) + if end in db && HasPrefix(end, prefix) && Le(begin, end) then {end} else {}
  {
    LeReflexive(end);
    var t := TikvRange(db, prefix, begin, end) + if end in db && HasPrefix(end, prefix) && Le(begin, end) then {end} else {};
    forall k ensures k in Wanted(db, prefix, begin, end) <==> k in t {
    }
  }

  /** Without an end, Badger's scan runs to the last key, and TiKV's finds at most the empty key,
      because its loop compares every key with the empty string. */
  lemma OpenEndedScans(db: Db, prefix: Key, begin: Key)
    ensures TikvRange(db, prefix, begin, []) == if [] in db && prefix == [] && begin == [] then {[]} else {}
    ensures BadgerRange(db, prefix, begin, []) ==
      if Blocked(db, prefix, begin) then {} else set k | k in db && HasPrefix(k, prefix) && Le(begin, k)
  {
    forall k ensures k in TikvRange(db, prefix, begin, []) <==> k == [] && [] in db && prefix == [] && begin == [] {
    }
  }

  // ---------------------------------------------------------------- buckets

  /** GetByBucket returns the same on both backends exactly when no stored key distinguishes
      Badger's reading of the name from a plain prefix. */
  lemma BucketsAgreeIff(db: Db, bucket: Key)
    ensures BadgerBucket(db, bucket) == Under(db, bucket) <==>
      forall k :: k in db ==>
        if GetKey(bucket) == [SEP] then HasPrefix(k, bucket) <==> InRoot(k)
        else HasPrefix(k, bucket) ==> HasPrefix(k, GetKey(bucket) + [SEP])
  {
    var b, u := BadgerBucket(db, bucket), Under(db, bucket);
    if GetKey(bucket) != [SEP] {
      assert HasPrefix(GetKey(bucket) + [SEP], bucket);
    }
    forall k ensures (k in b ==> b[k] == db[k]) && (k in u ==> u[k] == db[k]) {
    }
    if b == u {
      forall k | k in db ensures k in b <==> k in u {
      }
    } else {
      assert b.Keys != u.Keys;
    }
  }

  /** So they agree on every name that ends in the separator, but for `/` and `//`, both of which
      Badger takes for the root. */
  lemma BucketsAgree(db: Db, bucket: Key)
    requires EndsInSep(bucket) && bucket != [SEP] && bucket != [SEP, SEP]
    ensures BadgerBucket(db, bucket) == Under(db, bucket)
  {
    assert GetKey(bucket) + [SEP] == bucket;
    assert GetKey(bucket) == [SEP] ==> bucket == [SEP, SEP];
    BucketsAgreeIff(db, bucket);
  }

  /** `//` on a store that holds one key right under the root. */
  lemma DoubleSeparatorDisagrees(x: byte, v: Value)
    requires x != SEP
    ensures
      var db: Db := map[[SEP, x] := v];
      BadgerBucket(db, [SEP, SEP]) == db && Under(db, [SEP, SEP]) == map[]
  {
    var k := [SEP, x];
    assert k[1..] == [x] && [x][1..] == [];
    assert CountSep([x]) == 0 && CountSep(k) == 1;
    assert TrimSep([SEP, SEP]) == [SEP];
  }

  /** DeleteByBucket leaves the same store exactly when every key under the plain name is also
      under the name with its separator. */
  lemma DeletesAgreeIff(db: Db, bucket: Key)
    ensures Without(db, DeletePrefix(bucket)) == Without(db, bucket) <==>
      forall k :: k in db && HasPrefix(k, bucket) ==> HasPrefix(k, DeletePrefix(bucket))
  {
    var a, b := Without(db, DeletePrefix(bucket)), Without(db, bucket);
    assert HasPrefix(DeletePrefix(bucket), bucket);
    if a == b {
      forall k | k in db && HasPrefix(k, bucket) ensures HasPrefix(k, DeletePrefix(bucket)) {
        assert k !in b;
      }
    } else {
      assert a.Keys != b.Keys;
    }
  }

  // ---------------------------------------------------------------- the bucket encoding

  /** bucket + "/" + key */
  function InBucket(bucket: Key, key: Key): Key {
    bucket + [SEP] + key
  }

  /** BadgerStore.Get, without the error codes. */
  function Read(db: Db, key: Key): Option<Value> {
    if GetKey(key) in db then Some(db[GetKey(key)]) else None
  }

  /** A saved value is read back exactly when Get does not trim its key, or the trimmed key
      already held that value. */
  lemma SaveThenReadIff(db: Db, key: Key, v: Value)
    ensures Read(db[key := v], key) == Some(v) <==>
      key == [SEP] || !EndsInSep(key) || (TrimSep(key) in db && db[TrimSep(key)] == v)
  {
    assert EndsInSep(key) ==> |TrimSep(key)| < |key|;
  }

  /** `c` continues `b` behind a separator, and `k` makes up for it. */
  predicate Nested(b: Key, k: Key, c: Key, l: Key) {
    |b| < |c| && |l| < |k| && b + [SEP] <= c && c[|b| + 1..] + [SEP] + l == k
  }

  /** The same stored key: the same pair, or nested pairs that spell it. */
  predicate SameSlot(b: Key, k: Key, c: Key, l: Key) {
    (b == c && k == l) || Nested(b, k, c, l) || Nested(c, l, b, k)
  }

  lemma NestedCollides(b: Key, k: Key, c: Key, l: Key)
    requires Nested(b, k, c, l)
    ensures InBucket(b, k) == InBucket(c, l)
  {
    assert c == b + [SEP] + c[|b| + 1..];
  }

  lemma LongerIsNested(b: Key, k: Key, c: Key, l: Key)
    requires InBucket(b, k) == InBucket(c, l) && |b| < |c|
    ensures Nested(b, k, c, l)
  {
    var x, y := InBucket(b, k), InBucket(c, l);
    assert x[..|b| + 1] == b + [SEP] && y[..|c|] == c;
    assert y[..|b| + 1] == c[..|b| + 1];
    assert x[|b| + 1..] == k;
    assert y[|b| + 1..] == c[|b| + 1..] + [SEP] + l;
  }

  /** Two bucket and key pairs share a stored key exactly when they are the same pair, or one bucket
      is nested in the other and the keys make up for it. */
  lemma CollideIff(b: Key, k: Key, c: Key, l: Key)
    ensures InBucket(b, k) == InBucket(c, l) <==> SameSlot(b, k, c, l)
  {
    if InBucket(b, k) == InBucket(c, l) {
      if |b| < |c| {
        LongerIsNested(b, k, c, l);
      } else if |c| < |b| {
        LongerIsNested(c, l, b, k);
      } else {
        var x, y := InBucket(b, k), InBucket(c, l);
        assert x[..|b|] == b && y[..|b|] == c;
        assert x[|b| + 1..] == k && y[|b| + 1..] == l;
      }
    }
    if Nested(b, k, c, l) {
      NestedCollides(b, k, c, l);
    }
    if Nested(c, l, b, k) {
      NestedCollides(c, l, b, k);
    }
  }

  /** The stored key GetInBucket reads: Get drops a separator from the end of the key, or, for an
      empty key, the one behind the bucket. */
  lemma ReadsWhere(c: Key, l: Key)
    ensures GetKey(InBucket(c, l)) == if l == [] && c != [] then c else InBucket(c, TrimSep(l))
  {
    var y := InBucket(c, l);
    if l == [] {
      assert y == c + [SEP];
      assert TrimSep(y) == c;
    } else {
      assert y[|y| - 1] == l[|l| - 1];
      assert EndsInSep(l) ==> y[..|y| - 1] == InBucket(c, TrimSep(l));
    }
  }

  /** Saving under one bucket and key changes what is read under exactly the pairs that read its
      stored key, whatever the names are. */
  lemma BucketsDoNotInterfere(db: Db, b: Key, k: Key, v: Value, c: Key, l: Key)
    ensures
      var hit := if l == [] && c != [] then c == InBucket(b, k) else SameSlot(b, k, c, TrimSep(l));
      Read(db[InBucket(b, k) := v], InBucket(c, l)) == if hit then Some(v) else Read(db, InBucket(c, l))
  {
    ReadsWhere(c, l);
    CollideIff(b, k, c, TrimSep(l));
  }

  /** Nesting takes a separator in the longer bucket name, so names without one are kept apart. */
  lemma NestedHasSep(b: Key, k: Key, c: Key, l: Key)
    requires Nested(b, k, c, l)
    ensures SEP in c
  {
    assert c[|b|] == (b + [SEP])[|b|];
  }

  /** Deleting a bucket empties it, except that `//` is read as the root but deleted literally. */
  lemma DeleteEmptiesIff(db: Db, bucket: Key)
    ensures BadgerBucket(Without(db, DeletePrefix(bucket)), bucket) == map[] <==>
      bucket != [SEP, SEP] || forall k :: k in db ==> !InRoot(k)
  {
    var rest := Without(db, DeletePrefix(bucket));
    if bucket == [SEP, SEP] {
      assert GetKey(bucket) == [SEP];
      forall k | k in db && InRoot(k) ensures k in BadgerBucket(rest, bucket) {
        if HasPrefix(k, [SEP, SEP]) {
          TwoSeps(k);
        }
      }
      if forall k :: k in db ==> !InRoot(k) {
        assert BadgerBucket(rest, bucket).Keys == {};
      }
    } else if GetKey(bucket) == [SEP] {
      assert bucket == [SEP];
      assert BadgerBucket(rest, bucket).Keys == {};
    } else {
      assert BucketPrefix(bucket) == DeletePrefix(bucket);
      assert BadgerBucket(rest, bucket).Keys == {};
    }
  }

  lemma TwoSeps(k: Key)
    requires HasPrefix(k, [SEP, SEP])
    ensures CountSep(k) >= 2
  {
    assert k[0] == SEP && k[1] == SEP && k[1..][0] == SEP;
    assert CountSep(k) == 1 + CountSep(k[1..]);
  }

  /** And it leaves every key outside its prefix alone. */
  lemma DeleteSparesOthers(db: Db, bucket: Key, key: Key)
    requires !HasPrefix(GetKey(key), DeletePrefix(bucket))
    ensures Read(Without(db, DeletePrefix(bucket)), key) == Read(db, key)
  {}
}
