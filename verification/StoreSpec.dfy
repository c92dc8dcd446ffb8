/** What the operations of the key-value layer do to the map of stored keys. */
module StoreSpec {
  import opened Keys

  datatype Entry = Entry(key: Key, value: Value)

  datatype Op =
    | Save(key: Key, value: Value)
    | Get(key: Key)
    | Delete(key: Key)
    | Scan(prefix: Key, begin: Key, end: Key)
    | GetByBucket(bucket: Key)
    | DeleteByBucket(bucket: Key)
    | BatchSave(ignoreErr: bool, entries: seq<Entry>)
    | BatchDelete(ignoreErr: bool, keys: seq<Key>)

  datatype Res = Done | Found(value: Value) | NotFound | Failed | Listed(entries: seq<Entry>) | Mapped(items: Db)

  // ---------------------------------------------------------------- queries

  /** The part of the store under a prefix. */
  function Under(db: Db, prefix: Key): Db {
    map k | k in db && HasPrefix(k, prefix) :: db[k]
  }

  /** A key a range scan asks for; an empty end is no end. */
  predicate Qualifies(k: Key, prefix: Key, begin: Key, end: Key) {
    HasPrefix(k, prefix) && Le(begin, k) && (end == [] || Le(k, end))
  }

  /** What a range scan is meant to find. */
  function Wanted(db: Db, prefix: Key, begin: Key, end: Key): set<Key> {
    set k | k in db && Qualifies(k, prefix, begin, end)
  }

  /** A stored key between `begin` and the prefix, where Badger's scan stops before it starts. */
  ghost predicate Blocked(db: Db, prefix: Key, begin: Key) {
    exists k :: k in db && Le(begin, k) && Lt(k, prefix)
  }

  /** What Badger's scan finds. */
  ghost function BadgerRange(db: Db, prefix: Key, begin: Key, end: Key): set<Key> {
    if Blocked(db, prefix, begin) then {} else Wanted(db, prefix, begin, end)
  }

  /** What TiKV's scan finds: its iterator stops before `end`, and the loop tests `<= end` again. */
  function TikvRange(db: Db, prefix: Key, begin: Key, end: Key): set<Key> {
    set k | k in db && HasPrefix(k, prefix) && Le(begin, k) && (end == [] || Lt(k, end)) && Le(k, end)
  }

  function KeysOf(es: seq<Entry>): seq<Key> {
    seq(|es|, i requires 0 <= i < |es| => es[i].key)
  }

  /** `es` is the content of `want`, in ascending order. */
  ghost predicate IsListing(es: seq<Entry>, db: Db, want: set<Key>) {
    && want <= db.Keys
    && Lists(KeysOf(es), want)
    && forall i :: 0 <= i < |es| ==> es[i].key in db && es[i].value == db[es[i].key]
  }

  lemma ListingIsUnique(a: seq<Entry>, b: seq<Entry>, db: Db, want: set<Key>)
    requires IsListing(a, db, want) && IsListing(b, db, want)
    ensures a == b
  {
    ListingUnique(KeysOf(a), KeysOf(b), want);
    assert |a| == |KeysOf(a)| == |KeysOf(b)| == |b|;
    forall i | 0 <= i < |a| ensures a[i] == b[i] {
      assert KeysOf(a)[i] == KeysOf(b)[i];
    }
  }

  /** The key Badger's Get and GetByBucket work with: one trailing separator is dropped,
      except from the separator alone. */
  function GetKey(key: Key): Key {
    if key == [SEP] then key else TrimSep(key)
  }

  /** The prefix Badger looks under for a bucket. */
  function BucketPrefix(bucket: Key): Key {
    if GetKey(bucket) == [SEP] then [SEP] else GetKey(bucket) + [SEP]
  }

  /** The root bucket holds only what lies directly under the separator. */
  predicate InRoot(k: Key) {
    HasPrefix(k, [SEP]) && k != [SEP] && CountSep(k) <= 1
  }

  /** Badger's bucket: everything under its prefix, or the root bucket. */
  function BadgerBucket(db: Db, bucket: Key): Db {
    if GetKey(bucket) == [SEP] then map k | k in db && InRoot(k) :: db[k]
    else Under(db, BucketPrefix(bucket))
  }

  /** The prefix Badger deletes under: a missing separator is added. */
  function DeletePrefix(bucket: Key): Key {
    if EndsInSep(bucket) then bucket else bucket + [SEP]
  }

  function Without(db: Db, prefix: Key): Db {
    map k | k in db && !HasPrefix(k, prefix) :: db[k]
  }

  // ---------------------------------------------------------------- batches

  /** A loop of txn.Set: what it leaves, and whether it returned an error. */
  function SaveAll(rejects: Key -> bool, db: Db, ignoreErr: bool, es: seq<Entry>): (Db, bool)
    decreases |es|
  {
    if es == [] then (db, false)
    else if rejects(es[0].key) then
      if ignoreErr then SaveAll(rejects, db, ignoreErr, es[1..]) else (db, true)
    else SaveAll(rejects, db[es[0].key := es[0].value], ignoreErr, es[1..])
  }

  function DeleteAll(rejects: Key -> bool, db: Db, ignoreErr: bool, ks: seq<Key>): (Db, bool)
    decreases |ks|
  {
    if ks == [] then (db, false)
    else if rejects(ks[0]) then
      if ignoreErr then DeleteAll(rejects, db, ignoreErr, ks[1..]) else (db, true)
    else DeleteAll(rejects, db - {ks[0]}, ignoreErr, ks[1..])
  }

  // ---------------------------------------------------------------- one operation

  /** An operation's callback run on a transaction that shows `db`: what the transaction shows
      then, what the caller gets, and whether the callback returned an error. */
  datatype Ran = Ran(db: Db, res: Res, failed: bool)

  ghost predicate IsRun(rejects: Key -> bool, db: Db, op: Op, r: Ran) {
    match op
    case Save(k, v) => r == if rejects(k) then Ran(db, Failed, true) else Ran(db[k := v], Done, false)
    case Get(k) =>
      r == if rejects(GetKey(k)) then Ran(db, Failed, true)
           else if GetKey(k) in db then Ran(db, Found(db[GetKey(k)]), false)
           else Ran(db, NotFound, true)
    case Delete(k) => r == if rejects(k) then Ran(db, Failed, true) else Ran(db - {k}, Done, false)
    case Scan(p, b, e) =>
      r.db == db && !r.failed && r.res.Listed? && IsListing(r.res.entries, db, BadgerRange(db, p, b, e))
    case GetByBucket(b) => r == Ran(db, Mapped(BadgerBucket(db, b)), false)
    case DeleteByBucket(b) => r == Ran(Without(db, DeletePrefix(b)), Done, false)
    case BatchSave(ign, es) =>
      var (after, failed) := SaveAll(rejects, db, ign, es);
      r == Ran(after, if failed then Failed else Done, failed)
    case BatchDelete(ign, ks) =>
      // the error of the callback is dropped: only ErrKeyNotFound would be passed on
      var (after, failed) := DeleteAll(rejects, db, ign, ks);
      r == Ran(after, Done, failed)
  }

  /** What an operation does is determined. */
  lemma RunIsUnique(rejects: Key -> bool, db: Db, op: Op, r: Ran, q: Ran)
    requires IsRun(rejects, db, op, r) && IsRun(rejects, db, op, q)
    ensures r == q
  {
    if op.Scan? {
      ListingIsUnique(r.res.entries, q.res.entries, db, BadgerRange(db, op.prefix, op.begin, op.end));
    }
  }

  /** Every stored key is one the database accepts. */
  ghost predicate Accepted(rejects: Key -> bool, db: Db) {
    forall k :: k in db ==> !rejects(k)
  }

  lemma {:induction false} SaveAllAccepted(rejects: Key -> bool, db: Db, ignoreErr: bool, es: seq<Entry>)
    requires Accepted(rejects, db)
    ensures Accepted(rejects, SaveAll(rejects, db, ignoreErr, es).0)
    decreases |es|
  {
    if es != [] {
      if !rejects(es[0].key) {
        SaveAllAccepted(rejects, db[es[0].key := es[0].value], ignoreErr, es[1..]);
      } else if ignoreErr {
        SaveAllAccepted(rejects, db, ignoreErr, es[1..]);
      }
    }
  }

  lemma {:induction false} DeleteAllAccepted(rejects: Key -> bool, db: Db, ignoreErr: bool, ks: seq<Key>)
    requires Accepted(rejects, db)
    ensures Accepted(rejects, DeleteAll(rejects, db, ignoreErr, ks).0)
    decreases |ks|
  {
    if ks != [] {
      if !rejects(ks[0]) {
        DeleteAllAccepted(rejects, db - {ks[0]}, ignoreErr, ks[1..]);
      } else if ignoreErr {
        DeleteAllAccepted(rejects, db, ignoreErr, ks[1..]);
      }
    }
  }

  lemma RunKeepsAccepted(rejects: Key -> bool, db: Db, op: Op, r: Ran)
    requires Accepted(rejects, db) && IsRun(rejects, db, op, r)
    ensures Accepted(rejects, r.db)
  {
    match op
    case BatchSave(ign, es) => SaveAllAccepted(rejects, db, ign, es);
    case BatchDelete(ign, ks) => DeleteAllAccepted(rejects, db, ign, ks);
    case _ =>
  }
}
