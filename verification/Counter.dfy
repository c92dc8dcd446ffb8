/** TikvStore.Incr: a counter stored as decimal text, with 64-bit arithmetic. */
module Counter {
  import opened Bytes
  import opened Keys
  import opened Decimal

  datatype Result = Ok(value: nat) | Err

  /** The stored counter, and what a call returns. */
  function Next(stored: Option<Value>, step: nat): Result {
    match stored
    case None => Ok((step + 1) % TWO_64)
    case Some(text) =>
      match Parse(text)
      case None => Err
      case Some(last) => Ok((last + step) % TWO_64)
  }

  function Stored(db: Db, key: Key): Option<Value> {
    if key in db then Some(db[key]) else None
  }

  class Store {
    var db: Db

    constructor ()
      ensures db == map[]
    {
      db := map[];
    }

    /** The transaction around it commits exactly when the callback returned no error. */
    method Incr(key: Key, step: nat) returns (r: Result)
      requires step < TWO_64
      modifies this
      ensures r == Next(old(Stored(db, key)), step)
      ensures db == if r.Ok? then old(db)[key := Format(r.value)] else old(db)
    {
      if key !in db {
        var counter := (step + 1) % TWO_64;
        db := db[key := Format(counter)];
        return Ok(counter);
      }
      var parsed := Parse(db[key]);
      if parsed.None? {
        return Err;
      }
      var counter := (parsed.value + step) % TWO_64;
      db := db[key := Format(counter)];
      return Ok(counter);
    }

    /** Any sequence of increments of a key nobody else touches returns one plus the running sum
        of the steps, modulo 2^64, and leaves the other keys alone. */
    method IncrMany(key: Key, steps: seq<nat>) returns (values: seq<nat>)
      requires key !in db
      requires forall i :: 0 <= i < |steps| ==> steps[i] < TWO_64
      modifies this
      ensures Increments(steps, values)
      ensures db - {key} == old(db)
    {
      values := [];
      for i := 0 to |steps|
        invariant |values| == i
        invariant forall k :: 0 <= k < i ==> values[k] == (Sum(steps[..k + 1]) + 1) % TWO_64
        invariant if i == 0 then key !in db else key in db && db[key] == Format(values[i - 1])
        invariant db - {key} == old(db)
      {
        var r := Incr(key, steps[i]);
        SumStep(steps, i);
        if i > 0 {
          ParseFormat(values[i - 1]);
          AddMod(Sum(steps[..i]) + 1, steps[i]);
        } else {
          assert steps[..0] == [];
        }
        values := values + [r.value];
      }
    }
  }

  /** What the calls of Incr with these steps return, on a fresh key. */
  predicate Increments(steps: seq<nat>, values: seq<nat>) {
    && |values| == |steps|
    && forall i :: 0 <= i < |values| ==> values[i] == (Sum(steps[..i + 1]) + 1) % TWO_64
  }

  function Sum(s: seq<nat>): nat {
    if s == [] then 0 else Sum(s[..|s| - 1]) + s[|s| - 1]
  }

  lemma SumStep(s: seq<nat>, i: nat)
    requires i < |s|
    ensures Sum(s[..i + 1]) == Sum(s[..i]) + s[i]
  {
    assert s[..i + 1][..i] == s[..i];
  }

  /** Adding after reducing is the same as reducing after adding. */
  lemma AddMod(a: nat, b: nat)
    ensures (a % TWO_64 + b) % TWO_64 == (a + b) % TWO_64
  {
    var q := a / TWO_64;
    assert a == q * TWO_64 + a % TWO_64;
    var x := a % TWO_64 + b;
    assert a + b == TWO_64 * (q + x / TWO_64) + x % TWO_64;
    RemainderUnique(a + b, TWO_64, q + x / TWO_64, x % TWO_64);
  }

  lemma {:induction false} SumConstant(s: nat, n: nat)
    ensures Sum(seq(n, _ => s)) == n * s
  {
    if n > 0 {
      var c := seq(n, _ => s);
      assert c[..n - 1] == seq(n - 1, _ => s);
      SumConstant(s, n - 1);
      assert n * s == (n - 1) * s + s;
    }
  }

  /** With a constant step s, call number n returns n*s + 1, modulo 2^64. */
  lemma NthIncrement(s: nat, steps: seq<nat>, values: seq<nat>, n: nat)
    requires Increments(steps, values)
    requires 0 < n <= |steps| && forall i :: 0 <= i < |steps| ==> steps[i] == s
    ensures values[n - 1] == (n * s + 1) % TWO_64
  {
    assert steps[..n] == seq(n, _ => s);
    SumConstant(s, n);
  }

  /** A 64-bit sum is the sum, or 2^64 less. */
  lemma WrappedSum(a: nat, b: nat)
    requires a < TWO_64 && b < TWO_64
    ensures (a + b) % TWO_64 == if a + b < TWO_64 then a + b else a + b - TWO_64
  {
    if a + b >= TWO_64 {
      RemainderUnique(a + b, TWO_64, 1, a + b - TWO_64);
    }
  }

  /** A call returns more than the one before it exactly when the counter did not wrap. */
  lemma IncreasesIff(last: nat, step: nat)
    requires last < TWO_64 && 1 <= step < TWO_64
    ensures Next(Some(Format(last)), step).Ok?
    ensures Next(Some(Format(last)), step).value > last <==> last + step < TWO_64
  {
    ParseFormat(last);
    WrappedSum(last, step);
  }

  /** Positive, and each value greater than the one before. */
  predicate Rising(values: seq<nat>) {
    && (values != [] ==> values[0] > 0)
    && forall i :: 0 < i < |values| ==> values[i - 1] < values[i]
  }

  lemma {:induction false} SumMonotone(steps: seq<nat>, i: nat)
    requires i <= |steps|
    ensures Sum(steps[..i]) <= Sum(steps)
    decreases |steps| - i
  {
    if i < |steps| {
      SumStep(steps, i);
      SumMonotone(steps, i + 1);
    } else {
      assert steps[..i] == steps;
    }
  }

  /** While the values rise, none of them has wrapped. */
  lemma {:induction false} RisingIsExact(steps: seq<nat>, values: seq<nat>, i: nat)
    requires Increments(steps, values) && Rising(values) && i < |steps|
    requires forall k :: 0 <= k < |steps| ==> 1 <= steps[k] < TWO_64
    ensures values[i] == Sum(steps[..i + 1]) + 1 < TWO_64
    decreases i
  {
    SumStep(steps, i);
    if i > 0 {
      RisingIsExact(steps, values, i - 1);
      AddMod(Sum(steps[..i]) + 1, steps[i]);
      WrappedSum(values[i - 1], steps[i]);
    } else {
      assert steps[..0] == [];
      WrappedSum(1, steps[0]);
    }
  }

  /** While the sum fits, the values are the sums themselves. */
  lemma SmallIsExact(steps: seq<nat>, values: seq<nat>, i: nat)
    requires Increments(steps, values) && Sum(steps) + 1 < TWO_64 && i < |steps|
    ensures values[i] == Sum(steps[..i + 1]) + 1
  {
    SumMonotone(steps, i + 1);
  }

  lemma SmallIsRising(steps: seq<nat>, values: seq<nat>)
    requires Increments(steps, values) && Sum(steps) + 1 < TWO_64
    requires forall k :: 0 <= k < |steps| ==> 1 <= steps[k]
    ensures Rising(values)
  {
    if steps != [] {
      SmallIsExact(steps, values, 0);
    }
    forall i | 0 < i < |values| ensures values[i - 1] < values[i] {
      SmallIsExact(steps, values, i - 1);
      SmallIsExact(steps, values, i);
      SumStep(steps, i);
    }
  }

  /** The ids handed out for positive steps are positive and strictly increasing exactly when their
      last one fits in 64 bits. */
  lemma RisingIff(steps: seq<nat>, values: seq<nat>)
    requires Increments(steps, values)
    requires forall k :: 0 <= k < |steps| ==> 1 <= steps[k] < TWO_64
    ensures Rising(values) <==> Sum(steps) + 1 < TWO_64
  {
    if Rising(values) && steps != [] {
      RisingIsExact(steps, values, |steps| - 1);
      assert steps[..|steps|] == steps;
    }
    if Sum(steps) + 1 < TWO_64 {
      SmallIsRising(steps, values);
    }
  }

  /** Being strictly increasing alone does not tell: a first step of 2^64 - 1 hands out 0 and goes on. */
  lemma WrapsOnFirst()
    ensures Increments([TWO_64 - 1, 1], [0, 1]) && !(Sum([TWO_64 - 1, 1]) + 1 < TWO_64)
  {
    var steps: seq<nat> := [TWO_64 - 1, 1];
    assert steps[..0] == [] && steps[..2] == steps;
    SumStep(steps, 0);
    SumStep(steps, 1);
  }
}
