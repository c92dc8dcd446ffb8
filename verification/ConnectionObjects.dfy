/** The mutable objects behind the protocol's steps: the client's table under `mutex`, and a codec
    that writes a frame chunk by chunk. */
module ConnectionObjects {
  import opened Bytes
  import opened Framing
  import opened RpcClient

  /** The fields of `client` that `mutex` guards. Each method is one critical section. */
  class CallTable {
    var pending: map<nat, nat>
    var seqno: nat
    var closing: bool
    var shutdown: bool

    ghost function Value(): Table
      reads this
    {
      Table(pending, seqno, closing, shutdown)
    }

    constructor ()
      ensures Value() == Table(map[], 0, false, false)
    {
      pending, seqno, closing, shutdown := map[], 0, false, false;
    }

    /** The registration in `send`; None is ErrShutdown. */
    method Register(call: nat) returns (q: Option<nat>)
      modifies this
      ensures
        if old(shutdown || closing) then q.None? && Value() == old(Value())
        else q == Some(old(seqno)) && Value() == RegisterIn(old(Value()), call)
    {
      if shutdown || closing {
        return None;
      }
      q := Some(seqno);
      pending := pending[seqno := call];
      seqno := (seqno + 1) % TWO_64;
    }

    /** Looking a call up and deleting its entry, in `send` after a failed write and in `input`. */
    method Take(q: nat) returns (call: Option<nat>)
      modifies this
      ensures call == Lookup(old(Value()), q) && Value() == DeleteIn(old(Value()), q)
      ensures Lookup(Value(), q).None?
    {
      call := if q in pending then Some(pending[q]) else None;
      pending := pending - {q};
    }

    /** client.Close, whose first call also closes the codec. */
    method Close() returns (first: bool)
      modifies this
      ensures first == !old(closing)
      ensures Value() == old(Value()).(closing := true)
    {
      first := !closing;
      closing := true;
    }

    /** The end of `input`: every pending call is completed once, in some order. */
    method Drain() returns (completed: seq<nat>, ghost order: seq<nat>)
      modifies this
      ensures Value() == old(Value()).(shutdown := true)
      ensures |completed| == |order| == |pending|
      ensures forall q :: q in order <==> q in pending
      ensures forall i :: 0 <= i < |order| ==> order[i] in pending && completed[i] == pending[order[i]]
      ensures forall i, j :: 0 <= i < j < |order| ==> order[i] != order[j]
    {
      shutdown := true;
      completed, order := [], [];
      var todo := pending.Keys;
      while todo != {}
        invariant todo <= pending.Keys && Value() == old(Value()).(shutdown := true)
        invariant |completed| == |order| && |order| + |todo| == |pending|
        invariant forall q :: q in order <==> q in pending && q !in todo
        invariant forall i :: 0 <= i < |order| ==> order[i] in pending && completed[i] == pending[order[i]]
        invariant forall i, j :: 0 <= i < j < |order| ==> order[i] != order[j]
        decreases todo
      {
        var q :| q in todo;
        completed := completed + [pending[q]];
        order := order + [q];
        todo := todo - {q};
      }
    }
  }

  /** WriteRequest and writeResponse over a connection that takes `budget` more bytes before its
      Writes fail. */
  class FrameWriter {
    var out: seq<byte>
    var budget: nat

    constructor (budget: nat)
      ensures out == [] && this.budget == budget
    {
      out, this.budget := [], budget;
    }

    method Write(b: seq<byte>) returns (ok: bool)
      modifies this
      ensures out == old(out) + Take(b, old(budget))
      ensures ok == (|b| <= old(budget))
      ensures budget == if ok then old(budget) - |b| else 0
    {
      ok := |b| <= budget;
      out := out + Take(b, budget);
      budget := if ok then budget - |b| else 0;
    }

    /** A frame goes out whole, is cut where the connection fails, or, when its body cannot be
        encoded, leaves no byte at all. */
    method WriteMessage(json: JsonCodec, m: Message) returns (ok: bool)
      modifies this
      ensures out == old(out) + Take(Frame(json, m), old(budget))
      ensures ok <==> Chunks(json, m).Some? && |Frame(json, m)| <= old(budget)
      ensures Chunks(json, m).None? ==> budget == old(budget)
    {
      var chunks := Chunks(json, m);
      if chunks.None? {
        assert out == out + [];
        return false;
      }
      ok := WriteAll(chunks.value);
    }

    method WriteAll(chunks: seq<seq<byte>>) returns (ok: bool)
      modifies this
      ensures out == old(out) + Take(Flatten(chunks), old(budget))
      ensures ok <==> |Flatten(chunks)| <= old(budget)
    {
      ok := true;
      assert chunks[0..] == chunks;
      for i := 0 to |chunks|
        invariant ok
        invariant out + Take(Flatten(chunks[i..]), budget) == old(out) + Take(Flatten(chunks), old(budget))
        invariant |Flatten(chunks[i..])| <= budget <==> |Flatten(chunks)| <= old(budget)
      {
        assert chunks[i..][0] == chunks[i] && chunks[i..][1..] == chunks[i + 1..];
        TakeAfter(out, chunks[i], Flatten(chunks[i + 1..]), budget);
        ok := Write(chunks[i]);
        if !ok {
          return;
        }
      }
      assert out + [] == out;
    }
  }

  /** Writing a chunk moves the cut along. */
  lemma TakeAfter(out: seq<byte>, a: seq<byte>, b: seq<byte>, n: nat)
    ensures |a| <= n ==> out + Take(a + b, n) == (out + Take(a, n)) + Take(b, n - |a|)
    ensures |a| > n ==> out + Take(a + b, n) == out + Take(a, n)
  {}
}
