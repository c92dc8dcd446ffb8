/** DoInTxn: a callback whose operations go through a transaction in the context, against the
    same operations executed directly. */
module Transactions {
  import opened Bytes
  import opened Keys
  import opened StoreSpec
  import opened Badger

  // ---------------------------------------------------------------- operations as a function

  lemma RunExists(rejects: Key -> bool, db: Db, op: Op) returns (r: Ran)
    ensures IsRun(rejects, db, op, r)
  {
    match op
    case Save(k, v) => r := if rejects(k) then Ran(db, Failed, true) else Ran(db[k := v], Done, false);
    case Get(k) =>
      r := if rejects(GetKey(k)) then Ran(db, Failed, true)
           else if GetKey(k) in db then Ran(db, Found(db[GetKey(k)]), false)
           else Ran(db, NotFound, true);
    case Delete(k) => r := if rejects(k) then Ran(db, Failed, true) else Ran(db - {k}, Done, false);
    case Scan(p, b, e) =>
      var want := BadgerRange(db, p, b, e);
      var ks := ListingExists(want);
      assert forall i :: 0 <= i < |ks| ==> ks[i] in want;
      var es := seq(|ks|, i requires 0 <= i < |ks| => Entry(ks[i], db[ks[i]]));
      assert KeysOf(es) == ks;
      r := Ran(db, Listed(es), false);
    case GetByBucket(b) => r := Ran(db, Mapped(BadgerBucket(db, b)), false);
    case DeleteByBucket(b) => r := Ran(Without(db, DeletePrefix(b)), Done, false);
    case BatchSave(ign, es) =>
      var (after, failed) := SaveAll(rejects, db, ign, es);
      r := Ran(after, if failed then Failed else Done, failed);
    case BatchDelete(ign, ks) =>
      var (after, failed) := DeleteAll(rejects, db, ign, ks);
      r := Ran(after, Done, failed);
  }

  ghost function Run(rejects: Key -> bool, db: Db, op: Op): (r: Ran)
    ensures IsRun(rejects, db, op, r)
  {
    assert exists r :: IsRun(rejects, db, op, r) by {
      var r := RunExists(rejects, db, op);
    }
    var r :| IsRun(rejects, db, op, r);
    r
  }

  // ---------------------------------------------------------------- callbacks

  datatype Action = Do(op: Op) | Return(err: bool)

  /** A callback decides what to do next from the results it has seen. */
  type Callback = seq<Res> -> Action

  datatype Trace = Trace(db: Db, results: seq<Res>, returned: Option<bool>)

  /** At most `steps` operations of a callback, all on one transaction. */
  ghost function InTxn(rejects: Key -> bool, db: Db, cb: Callback, results: seq<Res>, steps: nat): Trace
    decreases steps
  {
    match cb(results)
    case Return(err) => Trace(db, results, Some(err))
    case Do(op) =>
      if steps == 0 then Trace(db, results, None)
      else var r := Run(rejects, db, op); InTxn(rejects, r.db, cb, results + [r.res], steps - 1)
  }

  /** The same operations without a transaction in the context: each commits for itself. */
  ghost function OneByOne(rejects: Key -> bool, db: Db, cb: Callback, results: seq<Res>, steps: nat): Trace
    decreases steps
  {
    match cb(results)
    case Return(err) => Trace(db, results, Some(err))
    case Do(op) =>
      if steps == 0 then Trace(db, results, None)
      else var r := Run(rejects, db, op);
        OneByOne(rejects, if r.failed then db else r.db, cb, results + [r.res], steps - 1)
  }

  // ---------------------------------------------------------------- where the two agree

  /** The keys a failing batch got to before the first key the database refuses. */
  function Accepting(rejects: Key -> bool, ks: seq<Key>): seq<Key> {
    if ks == [] || rejects(ks[0]) then [] else [ks[0]] + Accepting(rejects, ks[1..])
  }

  /** The value the last entry for `k` gives it. */
  function LastValue(es: seq<Entry>, k: Key): Option<Value> {
    if es == [] then None
    else if es[|es| - 1].key == k then Some(es[|es| - 1].value)
    else LastValue(es[..|es| - 1], k)
  }

  /** The store already holds what the entries would put there. */
  ghost predicate AlreadyThere(db: Db, es: seq<Entry>) {
    forall k :: LastValue(es, k).Some? ==> k in db && db[k] == LastValue(es, k).value
  }

  /** How many entries a batch sets before the first key the database refuses. */
  function Before(rejects: Key -> bool, es: seq<Entry>): (n: nat)
    ensures n <= |es|
  {
    if es == [] || rejects(es[0].key) then 0 else 1 + Before(rejects, es[1..])
  }

  /** An operation that fails leaves the transaction as it was. */
  ghost predicate NoTrace(rejects: Key -> bool, db: Db, op: Op) {
    Run(rejects, db, op).failed ==> Run(rejects, db, op).db == db
  }

  /** A batch that ignores errors, or meets no refused key, or had nothing to change before the
      first one; or any other operation. */
  ghost predicate Clean(rejects: Key -> bool, db: Db, op: Op) {
    match op
    case BatchSave(ign, es) =>
      var n := Before(rejects, es);
      ign || n == |es| || AlreadyThere(db, es[..n])
    case BatchDelete(ign, ks) =>
      || ign
      || (forall i :: 0 <= i < |ks| ==> !rejects(ks[i]))
      || (forall k :: k in Accepting(rejects, ks) ==> k !in db)
    case _ => true
  }

  /** Every operation the callback performs, executed one by one, is clean. */
  ghost predicate AllClean(rejects: Key -> bool, db: Db, cb: Callback, results: seq<Res>, steps: nat)
    decreases steps
  {
    match cb(results)
    case Return(_) => true
    case Do(op) =>
      steps > 0 ==>
        var r := Run(rejects, db, op);
        Clean(rejects, db, op)
        && AllClean(rejects, if r.failed then db else r.db, cb, results + [r.res], steps - 1)
  }

  function SetAll(db: Db, es: seq<Entry>): Db {
    if es == [] then db else SetAll(db, es[..|es| - 1])[es[|es| - 1].key := es[|es| - 1].value]
  }

  lemma {:induction false} SetAllAt(db: Db, es: seq<Entry>, k: Key)
    ensures k in SetAll(db, es) <==> k in db || LastValue(es, k).Some?
    ensures k in SetAll(db, es) ==>
      SetAll(db, es)[k] == if LastValue(es, k).Some? then LastValue(es, k).value else db[k]
    decreases |es|
  {
    if es != [] {
      SetAllAt(db, es[..|es| - 1], k);
    }
  }

  lemma {:induction false} SetAllCons(db: Db, e: Entry, es: seq<Entry>)
    ensures SetAll(db[e.key := e.value], es) == SetAll(db, [e] + es)
    decreases |es|
  {
    if es == [] {
      assert [e] + es == [e];
      assert SetAll(db, [e]) == SetAll(db, [e][..0])[e.key := e.value];
    } else {
      var init := es[..|es| - 1];
      SetAllCons(db, e, init);
      assert ([e] + es)[..|es|] == [e] + init;
    }
  }

  /** What a batch that stops at errors leaves behind. */
  lemma {:induction false} SaveAllStops(rejects: Key -> bool, db: Db, es: seq<Entry>)
    ensures SaveAll(rejects, db, false, es) == (SetAll(db, es[..Before(rejects, es)]), Before(rejects, es) < |es|)
    decreases |es|
  {
    if es != [] && !rejects(es[0].key) {
      var n := Before(rejects, es[1..]);
      SaveAllStops(rejects, db[es[0].key := es[0].value], es[1..]);
      SetAllCons(db, es[0], es[1..][..n]);
      assert [es[0]] + es[1..][..n] == es[..n + 1];
    }
  }

  lemma {:induction false} IgnoringNeverFails(rejects: Key -> bool, db: Db, es: seq<Entry>)
    ensures !SaveAll(rejects, db, true, es).1
    decreases |es|
  {
    if es != [] {
      IgnoringNeverFails(rejects, if rejects(es[0].key) then db else db[es[0].key := es[0].value], es[1..]);
    }
  }

  lemma SetAllSame(db: Db, es: seq<Entry>)
    ensures SetAll(db, es) == db <==> AlreadyThere(db, es)
  {
    forall k ensures k in SetAll(db, es) <==> k in db || LastValue(es, k).Some? {
      SetAllAt(db, es, k);
    }
    forall k | k in SetAll(db, es)
      ensures SetAll(db, es)[k] == if LastValue(es, k).Some? then LastValue(es, k).value else db[k]
    {
      SetAllAt(db, es, k);
    }
    if AlreadyThere(db, es) {
      assert SetAll(db, es).Keys == db.Keys;
    }
  }

  /** A batch save leaves a transaction and a direct execution alike exactly when it ignores
      errors, meets no refused key, or had nothing new to say before the first one. */
  lemma BatchSaveCleanIff(rejects: Key -> bool, db: Db, ignoreErr: bool, es: seq<Entry>)
    ensures NoTrace(rejects, db, BatchSave(ignoreErr, es)) <==> Clean(rejects, db, BatchSave(ignoreErr, es))
  {
    TraceOfBatchSave(rejects, db, ignoreErr, es);
    if ignoreErr {
      IgnoringNeverFails(rejects, db, es);
    } else {
      SaveAllStops(rejects, db, es);
      SetAllSame(db, es[..Before(rejects, es)]);
    }
  }

  lemma TraceOfBatchSave(rejects: Key -> bool, db: Db, ignoreErr: bool, es: seq<Entry>)
    ensures NoTrace(rejects, db, BatchSave(ignoreErr, es)) <==>
      !SaveAll(rejects, db, ignoreErr, es).1 || SaveAll(rejects, db, ignoreErr, es).0 == db
  {
    assert IsRun(rejects, db, BatchSave(ignoreErr, es), Run(rejects, db, BatchSave(ignoreErr, es)));
  }

  lemma {:induction false} DeleteAllStops(rejects: Key -> bool, db: Db, ks: seq<Key>)
    ensures DeleteAll(rejects, db, false, ks).0 == db - set k | k in Accepting(rejects, ks)
    ensures DeleteAll(rejects, db, false, ks).1 <==> exists i :: 0 <= i < |ks| && rejects(ks[i])
    decreases |ks|
  {
    if ks != [] && !rejects(ks[0]) {
      DeleteAllStops(rejects, db - {ks[0]}, ks[1..]);
      DeleteFirst(db, ks[0], Accepting(rejects, ks[1..]));
      assert forall i :: 0 < i < |ks| ==> ks[i] == ks[1..][i - 1];
    } else {
      assert db - (set k | k in Accepting(rejects, ks)) == db;
    }
  }

  lemma DeleteFirst(db: Db, k: Key, rest: seq<Key>)
    ensures db - {k} - (set x | x in rest) == db - set x | x in [k] + rest
  {}

  lemma {:induction false} DeleteIgnoringNeverFails(rejects: Key -> bool, db: Db, ks: seq<Key>)
    ensures !DeleteAll(rejects, db, true, ks).1
    decreases |ks|
  {
    if ks != [] {
      DeleteIgnoringNeverFails(rejects, if rejects(ks[0]) then db else db - {ks[0]}, ks[1..]);
    }
  }

  lemma TraceOfBatchDelete(rejects: Key -> bool, db: Db, ignoreErr: bool, ks: seq<Key>)
    ensures NoTrace(rejects, db, BatchDelete(ignoreErr, ks)) <==>
      !DeleteAll(rejects, db, ignoreErr, ks).1 || DeleteAll(rejects, db, ignoreErr, ks).0 == db
  {
    assert IsRun(rejects, db, BatchDelete(ignoreErr, ks), Run(rejects, db, BatchDelete(ignoreErr, ks)));
  }

  lemma DeleteSame(db: Db, ks: seq<Key>)
    ensures db - (set k | k in ks) == db <==> forall k :: k in ks ==> k !in db
  {
    var after := db - set k | k in ks;
    if after == db {
      forall k | k in ks ensures k !in db {
        assert k !in after;
      }
    }
  }

  /** Likewise for a batch delete: nothing stored may stand before the first refused key. */
  lemma BatchDeleteCleanIff(rejects: Key -> bool, db: Db, ignoreErr: bool, ks: seq<Key>)
    ensures NoTrace(rejects, db, BatchDelete(ignoreErr, ks)) <==> Clean(rejects, db, BatchDelete(ignoreErr, ks))
  {
    TraceOfBatchDelete(rejects, db, ignoreErr, ks);
    if ignoreErr {
      DeleteIgnoringNeverFails(rejects, db, ks);
    } else {
      DeleteAllStops(rejects, db, ks);
      DeleteSame(db, Accepting(rejects, ks));
    }
  }

  /** All other operations leave no trace when they fail. */
  lemma OthersLeaveNoTrace(rejects: Key -> bool, db: Db, op: Op)
    requires !op.BatchSave? && !op.BatchDelete?
    ensures NoTrace(rejects, db, op)
  {}

  /** The guards of the batches decide, before it runs, whether an operation that fails in a
      transaction leaves it as it was. */
  lemma CleanIff(rejects: Key -> bool, db: Db, op: Op)
    ensures NoTrace(rejects, db, op) <==> Clean(rejects, db, op)
  {
    match op
    case BatchSave(ign, es) => BatchSaveCleanIff(rejects, db, ign, es);
    case BatchDelete(ign, ks) => BatchDeleteCleanIff(rejects, db, ign, ks);
    case _ => OthersLeaveNoTrace(rejects, db, op);
  }

  // ---------------------------------------------------------------- whole callbacks

  /** A transaction is a faithful overlay: the callback sees the same results, operation by
      operation, and ends with the same contents, as with direct execution. */
  lemma {:induction false} FaithfulOverlay(rejects: Key -> bool, db: Db, cb: Callback, results: seq<Res>, steps: nat)
    requires AllClean(rejects, db, cb, results, steps)
    ensures InTxn(rejects, db, cb, results, steps) == OneByOne(rejects, db, cb, results, steps)
    decreases steps
  {
    match cb(results)
    case Return(_) =>
    case Do(op) =>
      if steps > 0 {
        var r := Run(rejects, db, op);
        CleanIff(rejects, db, op);
        FaithfulOverlay(rejects, if r.failed then db else r.db, cb, results + [r.res], steps - 1);
      }
  }

  /** After every number of operations up to `steps`, the two executions have shown the callback the
      same and stand at the same contents. */
  ghost predicate Alike(rejects: Key -> bool, db: Db, cb: Callback, results: seq<Res>, steps: nat) {
    forall n: nat :: n <= steps ==> InTxn(rejects, db, cb, results, n) == OneByOne(rejects, db, cb, results, n)
  }

  lemma {:induction false} AllCleanShorter(rejects: Key -> bool, db: Db, cb: Callback, results: seq<Res>, steps: nat, n: nat)
    requires AllClean(rejects, db, cb, results, steps) && n <= steps
    ensures AllClean(rejects, db, cb, results, n)
    decreases n
  {
    if cb(results).Do? && n > 0 {
      var r := Run(rejects, db, cb(results).op);
      AllCleanShorter(rejects, if r.failed then db else r.db, cb, results + [r.res], steps - 1, n - 1);
    }
  }

  /** One operation apart, the executions already differ if it was not clean. */
  lemma FirstIsClean(rejects: Key -> bool, db: Db, cb: Callback, results: seq<Res>, op: Op)
    requires cb(results) == Do(op)
    requires InTxn(rejects, db, cb, results, 1) == OneByOne(rejects, db, cb, results, 1)
    ensures Clean(rejects, db, op)
  {
    var r := Run(rejects, db, op);
    assert InTxn(rejects, db, cb, results, 1) == InTxn(rejects, r.db, cb, results + [r.res], 0);
    assert InTxn(rejects, r.db, cb, results + [r.res], 0).db == r.db;
    var d := if r.failed then db else r.db;
    assert OneByOne(rejects, db, cb, results, 1) == OneByOne(rejects, d, cb, results + [r.res], 0);
    assert OneByOne(rejects, d, cb, results + [r.res], 0).db == d;
    CleanIff(rejects, db, op);
  }

  lemma {:induction false} AlikeIsClean(rejects: Key -> bool, db: Db, cb: Callback, results: seq<Res>, steps: nat)
    requires Alike(rejects, db, cb, results, steps)
    ensures AllClean(rejects, db, cb, results, steps)
    decreases steps
  {
    if cb(results).Do? && steps > 0 {
      var op := cb(results).op;
      FirstIsClean(rejects, db, cb, results, op);
      var r := Run(rejects, db, op);
      var d := if r.failed then db else r.db;
      forall n: nat | n <= steps - 1
        ensures InTxn(rejects, d, cb, results + [r.res], n) == OneByOne(rejects, d, cb, results + [r.res], n)
      {
        assert InTxn(rejects, db, cb, results, n + 1) == OneByOne(rejects, db, cb, results, n + 1);
      }
      AlikeIsClean(rejects, d, cb, results + [r.res], steps - 1);
    }
  }

  /** Transaction and direct execution agree all the way exactly when every operation is clean. */
  lemma FaithfulIff(rejects: Key -> bool, db: Db, cb: Callback, results: seq<Res>, steps: nat)
    ensures Alike(rejects, db, cb, results, steps) <==> AllClean(rejects, db, cb, results, steps)
  {
    if Alike(rejects, db, cb, results, steps) {
      AlikeIsClean(rejects, db, cb, results, steps);
    }
    if AllClean(rejects, db, cb, results, steps) {
      forall n: nat | n <= steps
        ensures InTxn(rejects, db, cb, results, n) == OneByOne(rejects, db, cb, results, n)
      {
        AllCleanShorter(rejects, db, cb, results, steps, n);
        FaithfulOverlay(rejects, db, cb, results, n);
      }
    }
  }

  /** An operation no store contents can make unclean. */
  predicate Safe(rejects: Key -> bool, op: Op) {
    match op
    case BatchSave(ign, es) => ign || forall i :: 0 <= i < |es| ==> !rejects(es[i].key)
    case BatchDelete(ign, ks) => ign || forall i :: 0 <= i < |ks| ==> !rejects(ks[i])
    case _ => true
  }

  lemma {:induction false} BeforeAll(rejects: Key -> bool, es: seq<Entry>)
    requires forall i :: 0 <= i < |es| ==> !rejects(es[i].key)
    ensures Before(rejects, es) == |es|
  {
    if es != [] {
      BeforeAll(rejects, es[1..]);
    }
  }

  /** For callbacks that keep to safe operations the overlay is faithful from every store. */
  lemma {:induction false} SafeCallbacksAreClean(rejects: Key -> bool, db: Db, cb: Callback, results: seq<Res>, steps: nat)
    requires forall rs: seq<Res> :: cb(rs).Do? ==> Safe(rejects, cb(rs).op)
    ensures AllClean(rejects, db, cb, results, steps)
    decreases steps
  {
    if cb(results).Do? && steps > 0 {
      var op := cb(results).op;
      if op.BatchSave? && !op.ignoreErr {
        BeforeAll(rejects, op.entries);
      }
      var r := Run(rejects, db, op);
      SafeCallbacksAreClean(rejects, if r.failed then db else r.db, cb, results + [r.res], steps - 1);
    }
  }

  /** A callback that swallows the error of a batch save sees, and commits, what direct execution
      would not have saved. */
  lemma SwallowedBatchError(rejects: Key -> bool, k: Key, v: Value, bad: Key)
    requires rejects(bad) && !rejects(GetKey(k)) && !rejects(k) && GetKey(k) == k
    ensures
      var cb: Callback := (results: seq<Res>) =>
        if results == [] then Do(BatchSave(false, [Entry(k, v), Entry(bad, v)]))
        else if |results| == 1 then Do(Get(k)) else Return(false);
      && InTxn(rejects, map[], cb, [], 2) == Trace(map[k := v], [Failed, Found(v)], Some(false))
      && OneByOne(rejects, map[], cb, [], 2) == Trace(map[], [Failed, NotFound], Some(false))
  {
    var es := [Entry(k, v), Entry(bad, v)];
    var cb: Callback := (results: seq<Res>) =>
      if results == [] then Do(BatchSave(false, es)) else if |results| == 1 then Do(Get(k)) else Return(false);
    assert es[1..] == [Entry(bad, v)];
    assert SaveAll(rejects, map[], false, es) == (map[k := v], true);
    assert Run(rejects, map[], BatchSave(false, es)) == Ran(map[k := v], Failed, true);
    assert [] + [Failed] == [Failed] && [Failed] + [Found(v)] == [Failed, Found(v)] && [Failed] + [NotFound] == [Failed, NotFound];
    assert InTxn(rejects, map[k := v], cb, [Failed], 1) == InTxn(rejects, map[k := v], cb, [Failed, Found(v)], 0);
    assert OneByOne(rejects, map[], cb, [Failed], 1) == OneByOne(rejects, map[], cb, [Failed, NotFound], 0);
  }

  // ---------------------------------------------------------------- DoInTxn

  /** BadgerTxn: Begin sets the native transaction, Commit or Rollback consumes it. */
  class BadgerTxn {
    const store: Store
    var native: Txn?

    constructor (store: Store)
      ensures this.store == store && native == null
    {
      this.store := store;
      this.native := null;
    }

    method Begin()
      requires store.Valid()
      modifies this
      ensures native != null && fresh(native) && native.Valid()
      ensures native.View() == store.db && native.rejects == store.rejects
    {
      native := new Txn(store.db, store.rejects);
    }

    /** `ok` is whether Badger accepted the commit. */
    method Commit(ok: bool)
      requires native != null && native.Valid() && native.rejects == store.rejects
      requires store.Valid()
      modifies store
      ensures store.Valid()
      ensures store.db == if ok then native.View() else old(store.db)
    {
      if ok {
        var db := native.Merge();
        store.db := db;
      }
    }

    method Rollback()
      requires native != null
      modifies native`discarded
      ensures native.discarded
    {
      native.Discard();
    }
  }

  /** DoInTxn for a callback that returns within `steps` operations. The outcome of the commit
      does not reach the caller. */
  method DoInTxn(store: Store, cb: Callback, steps: nat, commitOk: bool) returns (err: bool, ghost seen: seq<Res>)
    requires store.Valid()
    requires InTxn(store.rejects, store.db, cb, [], steps).returned.Some?
    modifies store
    ensures store.Valid()
    ensures
      var t := old(InTxn(store.rejects, store.db, cb, [], steps));
      && err == t.returned.value
      && seen == t.results
      && store.db == if !err && commitOk then t.db else old(store.db)
  {
    ghost var goal := InTxn(store.rejects, store.db, cb, [], steps);
    var txn := new BadgerTxn(store);
    txn.Begin();
    var native := txn.native;
    var results: seq<Res> := [];
    var left := steps;
    while cb(results).Do? && left > 0
      invariant native.Valid() && native.rejects == store.rejects && fresh(native)
      invariant txn.native == native && fresh(txn) && txn.store == store
      invariant store.Valid() && store.db == old(store.db)
      invariant InTxn(store.rejects, native.View(), cb, results, left) == goal
      decreases left
    {
      var op := cb(results).op;
      ghost var before := native.View();
      var res, failed := RunIn(native, op);
      RunIsUnique(store.rejects, before, op, Run(store.rejects, before, op), Ran(native.View(), res, failed));
      results := results + [res];
      left := left - 1;
    }
    err := cb(results).err;
    seen := results;
    if err {
      txn.Rollback();
    } else {
      txn.Commit(commitOk);
    }
  }

  /** Atomicity. A failing callback changes nothing; a successful one whose commit succeeds leaves
      what direct execution would; and a failed commit loses everything without an error. */
  method RunAtomically(store: Store, cb: Callback, steps: nat, commitOk: bool) returns (err: bool)
    requires store.Valid()
    requires AllClean(store.rejects, store.db, cb, [], steps)
    requires OneByOne(store.rejects, store.db, cb, [], steps).returned.Some?
    modifies store
    ensures store.Valid()
    ensures
      var t := old(OneByOne(store.rejects, store.db, cb, [], steps));
      && err == t.returned.value
      && (err || !commitOk ==> store.db == old(store.db))
      && (!err && commitOk ==> store.db == t.db)
  {
    FaithfulOverlay(store.rejects, store.db, cb, [], steps);
    ghost var seen;
    err, seen := DoInTxn(store, cb, steps, commitOk);
  }

  /** The callback with no transaction in its context: every operation runs and commits for itself. */
  method RunDirectly(store: Store, cb: Callback, steps: nat) returns (err: bool, seen: seq<Res>)
    requires store.Valid()
    requires OneByOne(store.rejects, store.db, cb, [], steps).returned.Some?
    modifies store
    ensures store.Valid()
    ensures old(OneByOne(store.rejects, store.db, cb, [], steps)) == Trace(store.db, seen, Some(err))
  {
    ghost var goal := OneByOne(store.rejects, store.db, cb, [], steps);
    seen := [];
    var left := steps;
    while cb(seen).Do? && left > 0
      invariant store.Valid()
      invariant OneByOne(store.rejects, store.db, cb, seen, left) == goal
      decreases left
    {
      var op := cb(seen).op;
      ghost var before := store.db;
      var res := store.Direct(op, true);
      DirectIsRun(store.rejects, before, op, res, store.db);
      seen := seen + [res];
      left := left - 1;
    }
    err := cb(seen).err;
  }

  lemma DirectIsRun(rejects: Key -> bool, db: Db, op: Op, res: Res, after: Db)
    requires exists r :: IsRun(rejects, db, op, r) && Committed(op, r, true, db, res, after)
    ensures var r := Run(rejects, db, op); res == r.res && after == if r.failed then db else r.db
  {
    var r :| IsRun(rejects, db, op, r) && Committed(op, r, true, db, res, after);
    RunIsUnique(rejects, db, op, r, Run(rejects, db, op));
  }
}
