/** The Badger backend: the transaction object it works on and the loops of store_badger.go. */
module Badger {
  import opened Bytes
  import opened Keys
  import opened StoreSpec

  /** What a transaction shows: its own writes over the snapshot it started from. */
  function Overlay(snapshot: Db, writes: map<Key, Option<Value>>): Db {
    map k | k in snapshot.Keys + writes.Keys && (k in writes ==> writes[k].Some?) ::
      if k in writes then writes[k].value else snapshot[k]
  }

  /** badger.Txn, as far as the store relies on it. Some keys (the empty one, for a start)
      are refused by every access. */
  class Txn {
    const snapshot: Db
    const rejects: Key -> bool
    var writes: map<Key, Option<Value>>
    var discarded: bool

    ghost function View(): Db
      reads this
    {
      Overlay(snapshot, writes)
    }

    ghost predicate Valid()
      reads this
    {
      Accepted(rejects, View())
    }

    constructor (db: Db, rejects: Key -> bool)
      requires Accepted(rejects, db)
      ensures Valid() && View() == db && snapshot == db && this.rejects == rejects && !discarded
    {
      this.snapshot := db;
      this.rejects := rejects;
      this.writes := map[];
      this.discarded := false;
    }

    method Discard()
      modifies this`discarded
      ensures discarded
    {
      discarded := true;
    }

    method Lookup(k: Key) returns (err: bool, v: Option<Value>)
      ensures err == rejects(k)
      ensures !err ==> v == if k in View() then Some(View()[k]) else None
    {
      err, v := rejects(k), None;
      if !err {
        v := if k in writes then writes[k] else if k in snapshot then Some(snapshot[k]) else None;
      }
    }

    method Set(k: Key, v: Value) returns (err: bool)
      requires Valid()
      modifies this
      ensures Valid() && err == rejects(k)
      ensures View() == if err then old(View()) else old(View())[k := v]
    {
      err := rejects(k);
      if !err {
        writes := writes[k := Some(v)];
      }
    }

    method Remove(k: Key) returns (err: bool)
      requires Valid()
      modifies this
      ensures Valid() && err == rejects(k)
      ensures View() == if err then old(View()) else old(View()) - {k}
    {
      err := rejects(k);
      if !err {
        writes := writes[k := None];
      }
    }

    /** What Commit makes of the database. */
    method Merge() returns (db: Db)
      ensures db == View()
    {
      db := Overlay(snapshot, writes);
    }

    /** The keys an iterator visits, in order, and the items it finds there. */
    method NewIterator() returns (ks: seq<Key>, items: Db)
      ensures items == View() && Lists(ks, items.Keys)
    {
      items := Merge();
      ks := SortedKeys(items);
    }
  }

  // ---------------------------------------------------------------- why stopping early is right

  /** If the loop stopped at `i`, no wanted key lies behind it. */
  lemma NothingBehind(ks: seq<Key>, db: Db, prefix: Key, begin: Key, end: Key, i: nat, j: nat)
    requires Lists(ks, db.Keys) && i <= j < |ks|
    requires !Blocked(db, prefix, begin) && Le(begin, ks[i])
    requires !HasPrefix(ks[i], prefix) || (end != [] && Lt(end, ks[i]))
    ensures ks[j] !in Wanted(db, prefix, begin, end)
  {
    LeReflexive(ks[i]);
    assert Le(ks[i], ks[j]);
    if HasPrefix(ks[i], prefix) {
      LtTransitive(end, ks[i], ks[j]);
      if Le(ks[j], end) {
        LeAntisymmetric(ks[j], end);
      }
    } else if HasPrefix(ks[j], prefix) {
      assert ks[i] in db;
      LeTotal(prefix, ks[i]);
      LeReflexive(prefix);
      AfterPrefix(prefix, ks[i], ks[j]);
      LeAntisymmetric(ks[i], ks[j]);
    }
  }

  /** If the loop took anything, nothing had blocked it. */
  lemma NotBlocked(ks: seq<Key>, db: Db, prefix: Key, begin: Key, at: nat)
    requires Lists(ks, db.Keys) && at < |ks| && HasPrefix(ks[at], prefix)
    requires forall i :: 0 <= i < at ==> Lt(ks[i], begin)
    ensures !Blocked(db, prefix, begin)
  {
    PrefixIsLe(prefix, ks[at]);
    forall k | k in db && Le(begin, k) ensures !Lt(k, prefix) {
      assert k in ks;
      var j :| 0 <= j < |ks| && ks[j] == k;
      if j < at {
        LeAntisymmetric(k, begin);
      }
      LeReflexive(k);
      assert Le(ks[at], k);
      LeTransitive(prefix, ks[at], k);
      if Le(k, prefix) {
        LeAntisymmetric(k, prefix);
      }
    }
  }

  /** The slice between seeking and stopping is the whole answer. */
  lemma SliceIsRange(ks: seq<Key>, db: Db, prefix: Key, begin: Key, end: Key, at: nat, i: nat)
    requires Lists(ks, db.Keys) && at <= i <= |ks|
    requires forall k :: 0 <= k < at ==> Lt(ks[k], begin)
    requires forall k :: at <= k < |ks| ==> Le(begin, ks[k])
    requires forall k :: at <= k < i ==> HasPrefix(ks[k], prefix) && (end == [] || Le(ks[k], end))
    requires i < |ks| ==> !HasPrefix(ks[i], prefix) || (end != [] && Lt(end, ks[i]))
    ensures Lists(ks[at..i], BadgerRange(db, prefix, begin, end))
  {
    if at < i {
      NotBlocked(ks, db, prefix, begin, at);
    }
    var want := BadgerRange(db, prefix, begin, end);
    forall k ensures k in ks[at..i] <==> k in want {
      if k in want {
        assert k in ks;
        var j :| 0 <= j < |ks| && ks[j] == k;
        if j < at {
          LeAntisymmetric(k, begin);
        }
        if i <= j {
          NothingBehind(ks, db, prefix, begin, end, i, j);
        }
        assert ks[at..i][j - at] == k;
      }
    }
  }

  // ---------------------------------------------------------------- the loops

  /** BadgerStore.Scan */
  method ScanIn(txn: Txn, prefix: Key, begin: Key, end: Key) returns (ret: seq<Entry>)
    ensures IsListing(ret, txn.View(), BadgerRange(txn.View(), prefix, begin, end))
  {
    var ks, items := txn.NewIterator();
    var at := Seek(ks, begin);
    ret := [];
    var i := at;
    while i < |ks| && HasPrefix(ks[i], prefix)
      invariant at <= i <= |ks|
      invariant |ret| == i - at
      invariant forall k :: 0 <= k < |ret| ==>
        ret[k].key == ks[at + k] && ret[k].key in items && ret[k].value == items[ret[k].key]
      invariant forall k :: at <= k < i ==> HasPrefix(ks[k], prefix) && (end == [] || Le(ks[k], end))
    {
      LeTotal(ks[i], end);
      LeReflexive(end);
      if end != [] && Lt(end, ks[i]) {
        break;
      }
      ret := ret + [Entry(ks[i], items[ks[i]])];
      i := i + 1;
    }
    SliceIsRange(ks, items, prefix, begin, end, at, i);
    assert KeysOf(ret) == ks[at..i];
  }

  /** The keys a prefix loop visits are the ones under the prefix. */
  lemma PrefixLoop(ks: seq<Key>, db: Db, prefix: Key, at: nat, i: nat)
    requires Lists(ks, db.Keys) && at <= i <= |ks|
    requires forall k :: 0 <= k < at ==> Lt(ks[k], prefix)
    requires forall k :: at <= k < |ks| ==> Le(prefix, ks[k])
    requires forall k :: at <= k < i ==> HasPrefix(ks[k], prefix)
    requires i < |ks| ==> !HasPrefix(ks[i], prefix)
    ensures forall k :: k in ks[at..i] <==> k in Under(db, prefix)
  {
    SliceIsRange(ks, db, prefix, prefix, [], at, i);
    assert !Blocked(db, prefix, prefix) by {
      forall k | k in db && Le(prefix, k) ensures !Lt(k, prefix) {
        if Le(k, prefix) {
          LeAntisymmetric(k, prefix);
        }
      }
    }
    forall k | k in Under(db, prefix) ensures Le(prefix, k) {
      PrefixIsLe(prefix, k);
    }
  }

  /** What the loop of doGetValuesByPrefix skips. */
  predicate Skipped(key: Key, k: Key) {
    k == key || (key == [SEP] && CountSep(k) > 1)
  }

  /** BadgerStore.doGetValuesByPrefix, as GetByBucket calls it */
  method GetByBucketIn(txn: Txn, bucket: Key) returns (ret: Db)
    ensures ret == BadgerBucket(txn.View(), bucket)
  {
    var key := GetKey(bucket);
    var prefix := if key != [SEP] then key + [SEP] else key;
    var ks, items := txn.NewIterator();
    var at := Seek(ks, prefix);
    ret := map[];
    var i := at;
    while i < |ks| && HasPrefix(ks[i], prefix)
      invariant at <= i <= |ks|
      invariant forall k :: at <= k < i ==> HasPrefix(ks[k], prefix)
      invariant forall k :: k in ret <==> k in ks[at..i] && !Skipped(key, k)
      invariant forall k :: k in ret ==> k in items && ret[k] == items[k]
    {
      assert ks[at..i + 1] == ks[at..i] + [ks[i]];
      assert ks[i] in items;
      if !Skipped(key, ks[i]) {
        ret := ret[ks[i] := items[ks[i]]];
      }
      i := i + 1;
    }
    PrefixLoop(ks, items, prefix, at, i);
    BucketResult(items, bucket, ret);
  }

  lemma BucketResult(db: Db, bucket: Key, ret: Db)
    requires forall k :: k in ret <==> k in Under(db, BucketPrefix(bucket)) && !Skipped(GetKey(bucket), k)
    requires forall k :: k in ret ==> k in db && ret[k] == db[k]
    ensures ret == BadgerBucket(db, bucket)
  {
    assert forall k :: k in BadgerBucket(db, bucket) ==> k in db && BadgerBucket(db, bucket)[k] == db[k];
    forall k ensures k in ret <==> k in BadgerBucket(db, bucket) {
      assert HasPrefix(GetKey(bucket), GetKey(bucket) + [SEP]) ==> false;
    }
  }

  function Elements(ks: seq<Key>): set<Key> {
    set k | k in ks
  }

  /** The loop of DeleteByBucket removes from the transaction what its iterator found. */
  method DeleteByBucketIn(txn: Txn, bucket: Key) returns (err: bool)
    requires txn.Valid()
    modifies txn
    ensures txn.Valid() && !err
    ensures txn.View() == Without(old(txn.View()), DeletePrefix(bucket))
  {
    var prefix := DeletePrefix(bucket);
    var ks, items := txn.NewIterator();
    var at := Seek(ks, prefix);
    var i := at;
    err := false;
    NothingDeleted(items, ks, at);
    while i < |ks| && HasPrefix(ks[i], prefix)
      invariant at <= i <= |ks| && !err
      invariant forall k :: at <= k < i ==> HasPrefix(ks[k], prefix)
      invariant Deleting(txn, items, ks, at, i)
    {
      err := DeleteNext(txn, items, ks, at, i);
      i := i + 1;
    }
    DeletedAll(ks, items, prefix, at, i);
  }

  /** The transaction shows the items without the keys visited so far. */
  ghost predicate Deleting(txn: Txn, items: Db, ks: seq<Key>, at: nat, i: nat)
    requires at <= i <= |ks|
    reads txn
  {
    && Accepted(txn.rejects, items) && Lists(ks, items.Keys)
    && txn.Valid() && txn.View() == items - Elements(ks[at..i])
  }

  method DeleteNext(txn: Txn, ghost items: Db, ks: seq<Key>, ghost at: nat, i: nat) returns (err: bool)
    requires at <= i < |ks| && Deleting(txn, items, ks, at, i)
    modifies txn
    ensures !err && Deleting(txn, items, ks, at, i + 1)
  {
    assert ks[i] in ks;
    DeleteOneMore(items, ks, at, i);
    err := txn.Remove(ks[i]);
  }

  lemma NothingDeleted(db: Db, ks: seq<Key>, at: nat)
    requires at <= |ks|
    ensures db - Elements(ks[at..at]) == db
  {}

  lemma DeleteOneMore(db: Db, ks: seq<Key>, at: nat, i: nat)
    requires at <= i < |ks|
    ensures (db - Elements(ks[at..i])) - {ks[i]} == db - Elements(ks[at..i + 1])
  {
    assert ks[at..i + 1] == ks[at..i] + [ks[i]];
    assert Elements(ks[at..i + 1]) == Elements(ks[at..i]) + {ks[i]};
  }

  lemma DeletedAll(ks: seq<Key>, db: Db, prefix: Key, at: nat, i: nat)
    requires Lists(ks, db.Keys) && at <= i <= |ks|
    requires forall k :: 0 <= k < at ==> Lt(ks[k], prefix)
    requires forall k :: at <= k < |ks| ==> Le(prefix, ks[k])
    requires forall k :: at <= k < i ==> HasPrefix(ks[k], prefix)
    requires i < |ks| ==> !HasPrefix(ks[i], prefix)
    ensures db - Elements(ks[at..i]) == Without(db, prefix)
  {
    PrefixLoop(ks, db, prefix, at, i);
    DeleteResult(db, prefix, Elements(ks[at..i]));
  }

  lemma DeleteResult(db: Db, prefix: Key, gone: set<Key>)
    requires forall k :: k in gone <==> k in Under(db, prefix)
    ensures db - gone == Without(db, prefix)
  {}

  /** BadgerStore.BatchSave */
  method BatchSaveIn(txn: Txn, ignoreErr: bool, entries: seq<Entry>) returns (err: bool)
    requires txn.Valid()
    modifies txn
    ensures txn.Valid()
    ensures (txn.View(), err) == SaveAll(txn.rejects, old(txn.View()), ignoreErr, entries)
  {
    var i := 0;
    ghost var goal := SaveAll(txn.rejects, txn.View(), ignoreErr, entries);
    while i < |entries|
      invariant i <= |entries| && txn.Valid()
      invariant SaveAll(txn.rejects, txn.View(), ignoreErr, entries[i..]) == goal
    {
      err := txn.Set(entries[i].key, entries[i].value);
      assert entries[i..][1..] == entries[i + 1..];
      if err && !ignoreErr {
        return true;
      }
      i := i + 1;
    }
    return false;
  }

  /** BadgerStore.BatchDeleteByKey; the caller sees no error whatever happens */
  method BatchDeleteIn(txn: Txn, ignoreErr: bool, keys: seq<Key>) returns (err: bool)
    requires txn.Valid()
    modifies txn
    ensures txn.Valid()
    ensures (txn.View(), err) == DeleteAll(txn.rejects, old(txn.View()), ignoreErr, keys)
  {
    var i := 0;
    ghost var goal := DeleteAll(txn.rejects, txn.View(), ignoreErr, keys);
    while i < |keys|
      invariant i <= |keys| && txn.Valid()
      invariant DeleteAll(txn.rejects, txn.View(), ignoreErr, keys[i..]) == goal
    {
      err := txn.Remove(keys[i]);
      assert keys[i..][1..] == keys[i + 1..];
      if err && !ignoreErr {
        return true;
      }
      i := i + 1;
    }
    return false;
  }

  /** The callback of any operation, run on a transaction. */
  method RunIn(txn: Txn, op: Op) returns (res: Res, failed: bool)
    requires txn.Valid()
    modifies txn
    ensures txn.Valid()
    ensures IsRun(txn.rejects, old(txn.View()), op, Ran(txn.View(), res, failed))
  {
    match op
    case Save(k, v) =>
      failed := txn.Set(k, v);
      res := if failed then Failed else Done;
    case Get(k) =>
      var err, v := txn.Lookup(GetKey(k));
      failed := err || v.None?;
      res := if err then Failed else if v.None? then NotFound else Found(v.value);
    case Delete(k) =>
      failed := txn.Remove(k);
      res := if failed then Failed else Done;
    case Scan(p, b, e) =>
      var es := ScanIn(txn, p, b, e);
      res, failed := Listed(es), false;
    case GetByBucket(b) =>
      var m := GetByBucketIn(txn, b);
      res, failed := Mapped(m), false;
    case DeleteByBucket(b) =>
      failed := DeleteByBucketIn(txn, b);
      res := if failed then Failed else Done;
    case BatchSave(ign, es) =>
      failed := BatchSaveIn(txn, ign, es);
      res := if failed then Failed else Done;
    case BatchDelete(ign, ks) =>
      failed := BatchDeleteIn(txn, ign, ks);
      res := Done;
  }

  /** The operations that go through DB.Update; the others go through DB.View. */
  predicate Updates(op: Op) {
    !op.Get? && !op.Scan? && !op.GetByBucket?
  }

  /** What the caller of an operation gets when its commit fails: BatchDeleteByKey drops the error. */
  function CommitError(op: Op): Res {
    if op.BatchDelete? then Done else Failed
  }

  /** What becomes of a callback's run `r` when its transaction ends. */
  predicate Committed(op: Op, r: Ran, commitOk: bool, before: Db, res: Res, after: Db) {
    var lost := !r.failed && Updates(op) && !commitOk;
    && res == (if lost then CommitError(op) else r.res)
    && after == if r.failed || lost then before else r.db
  }

  /** badger.DB with the wrappers of BadgerStore around it. */
  class Store {
    const rejects: Key -> bool
    var db: Db

    ghost predicate Valid()
      reads this
    {
      Accepted(rejects, db)
    }

    constructor (rejects: Key -> bool)
      ensures Valid() && db == map[] && this.rejects == rejects
    {
      this.rejects := rejects;
      db := map[];
    }

    /** txnUpdateWrapper and txnViewWrapper without a transaction in the context: the callback gets
        its own transaction, and a callback that updates is committed unless it failed. `commitOk`
        is whether Badger accepts that commit. */
    method Direct(op: Op, commitOk: bool) returns (res: Res)
      requires Valid()
      modifies this
      ensures Valid()
      ensures exists r :: IsRun(rejects, old(db), op, r) && Committed(op, r, commitOk, old(db), res, db)
    {
      var txn := new Txn(db, rejects);
      var failed;
      res, failed := RunIn(txn, op);
      ghost var r := Ran(txn.View(), res, failed);
      assert IsRun(rejects, old(db), op, r);
      if !failed && Updates(op) {
        if commitOk {
          db := txn.Merge();
        } else {
          res := CommitError(op);
        }
      }
    }
  }
}
