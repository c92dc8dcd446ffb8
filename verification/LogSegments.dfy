/** onDemandFile: a log that is cut into segment files. */
module LogSegments {
  import opened Bytes
  import opened Decimal

  const DOT: byte := 46

  /** One file on disk: its name and the writes it accepted. */
  datatype Segment = Segment(name: seq<byte>, writes: seq<seq<byte>>)

  function Concat(writes: seq<seq<byte>>): seq<byte> {
    if writes == [] then [] else Concat(writes[..|writes| - 1]) + writes[|writes| - 1]
  }

  /** Everything in the segments, in order. */
  function Contents(segments: seq<Segment>): seq<byte> {
    if segments == [] then [] else Contents(segments[..|segments| - 1]) + Concat(segments[|segments| - 1].writes)
  }

  // ---------------------------------------------------------------- names

  /** strings.LastIndex(name, "."), or |name| when there is none. */
  function LastDot(name: seq<byte>): (p: nat)
    ensures p <= |name|
    ensures p < |name| ==> name[p] == DOT && DOT !in name[p + 1..]
    ensures p == |name| ==> DOT !in name
  {
    if name == [] then 0
    else
      var n := |name| - 1;
      if name[n] == DOT then n
      else
        var p := LastDot(name[..n]);
        if p == n then
          assert name == name[..n] + [name[n]];
          |name|
        else
          assert name[p + 1..] == name[..n][p + 1..] + [name[n]];
          p
  }

  /** fmt.Sprintf("%s.%d%s", baseName, counter, ext) */
  function SegmentName(base: seq<byte>, counter: nat): seq<byte> {
    var p := LastDot(base);
    base[..p] + [DOT] + Format(counter) + base[p..]
  }

  lemma NamesDiffer(base: seq<byte>, i: nat, j: nat)
    requires SegmentName(base, i) == SegmentName(base, j)
    ensures i == j
  {
    var p, x, y := LastDot(base), SegmentName(base, i), SegmentName(base, j);
    assert |Format(i)| == |Format(j)|;
    assert x[p + 1..p + 1 + |Format(i)|] == Format(i);
    assert y[p + 1..p + 1 + |Format(j)|] == Format(j);
    FormatInjective(i, j);
  }

  // ---------------------------------------------------------------- the writer

  /** A segment within the limit, or one that holds at most a single write. */
  predicate Bounded(s: Segment, max: int) {
    |Concat(s.writes)| <= max || |s.writes| <= 1
  }

  class OnDemandFile {
    const maxSegmentSize: int
    const logFileBaseName: seq<byte>
    var segmentCounter: nat
    var currentSegmentSize: nat
    var isOpen: bool                 // w.f != nil
    var segments: seq<Segment>       // the files created so far
    ghost var numbers: seq<nat>      // the counter each was named with

    /** Files named with increasing numbers below `counter`, each of them bounded. */
    ghost predicate Parts(segments: seq<Segment>, numbers: seq<nat>, counter: nat) {
      && |numbers| == |segments|
      && (forall i :: 0 <= i < |segments| ==>
            numbers[i] < counter && segments[i].name == SegmentName(logFileBaseName, numbers[i]))
      && (forall i, j :: 0 <= i < j < |numbers| ==> numbers[i] < numbers[j])
      && (forall i :: 0 <= i < |segments| ==> Bounded(segments[i], maxSegmentSize))
    }

    ghost predicate Valid()
      reads this
    {
      && Parts(segments, numbers, segmentCounter)
      && (isOpen ==> segments != [] && currentSegmentSize == |Concat(segments[|segments| - 1].writes)|)
    }

    constructor (base: seq<byte>, max: int)
      ensures Valid() && segments == [] && maxSegmentSize == max && logFileBaseName == base
    {
      maxSegmentSize := max;
      logFileBaseName := base;
      segmentCounter, currentSegmentSize, isOpen := 0, 0, false;
      segments, numbers := [], [];
    }

    /** The write would overflow the open file, or there is none. */
    predicate NeedsFile(b: seq<byte>)
      reads this
    {
      !isOpen || currentSegmentSize + |b| > maxSegmentSize
    }

    /** The open file has room for the write, or is empty. */
    ghost predicate Ready(b: seq<byte>)
      reads this
      requires Valid()
    {
      isOpen && (currentSegmentSize + |b| <= maxSegmentSize || segments[|segments| - 1].writes == [])
    }

    /** Write, when os.Create succeeds or not and the file accepts `n` bytes. */
    method Write(b: seq<byte>, createOk: bool, n: nat) returns (written: nat, err: bool)
      requires Valid() && n <= |b|
      modifies this
      ensures written == if err then 0 else n
      ensures Valid() && isOpen == !err
      ensures Contents(segments) == old(Contents(segments)) + b[..written]
      // a new file is begun exactly when none is open or the write would overflow the open one
      ensures err <==> old(NeedsFile(b)) && !createOk
      ensures segmentCounter == old(segmentCounter) + One(old(NeedsFile(b)))
      ensures |segments| == old(|segments|) + One(old(NeedsFile(b)) && createOk)
      ensures forall i :: 0 <= i < |segments| - 1 ==> i < old(|segments|) && segments[i] == old(segments)[i]
      ensures err ==> segments == old(segments)
    {
      err := Prepare(b, createOk);
      if err {
        assert b[..0] == [];
        return 0, true;
      }
      ghost var before := segments;
      Append(b[..n]);
      assert forall i :: 0 <= i < |segments| - 1 ==> segments[i] == segments[..|segments| - 1][i] == before[i];
      return n, false;
    }

    /** The part of Write that closes a full file and creates the next. */
    method Prepare(b: seq<byte>, createOk: bool) returns (err: bool)
      requires Valid()
      modifies this
      ensures Valid() && isOpen == !err && (!err ==> Ready(b))
      ensures err <==> old(NeedsFile(b)) && !createOk
      ensures segmentCounter == old(segmentCounter) + One(old(NeedsFile(b)))
      ensures Contents(segments) == old(Contents(segments))
      ensures |segments| == old(|segments|) + One(old(NeedsFile(b)) && createOk)
      ensures old(segments) <= segments
    {
      if isOpen && currentSegmentSize + |b| > maxSegmentSize {
        isOpen := false;
      }
      if isOpen {
        return false;
      }
      Open(createOk);
      return !createOk;
    }

    /** os.Create, under the next number. */
    method Open(createOk: bool)
      requires Valid() && !isOpen
      modifies this
      ensures Valid() && isOpen == createOk && currentSegmentSize == 0
      ensures segmentCounter == old(segmentCounter) + 1
      ensures Contents(segments) == old(Contents(segments))
      ensures segments == old(segments)
        + if createOk then [Segment(SegmentName(logFileBaseName, old(segmentCounter)), [])] else []
    {
      var created := Segment(SegmentName(logFileBaseName, segmentCounter), []);
      PartsAppend(segments, numbers, segmentCounter, created);
      ContentsAppend(segments, created);
      segmentCounter, currentSegmentSize := segmentCounter + 1, 0;
      if createOk {
        isOpen, segments, numbers := true, segments + [created], numbers + [segmentCounter - 1];
        assert segments[|segments| - 1] == created;
      } else {
        assert segments + [] == segments;
      }
    }

    /** w.f.Write */
    method Append(b: seq<byte>)
      requires Valid() && Ready(b)
      modifies this`segments, this`currentSegmentSize
      ensures Valid()
      ensures Contents(segments) == old(Contents(segments)) + b
      ensures |segments| == old(|segments|)
      ensures segments[..|segments| - 1] == old(segments)[..|segments| - 1]
    {
      var k := |segments| - 1;
      var s := segments[k];
      var t := s.(writes := s.writes + [b]);
      ConcatAppend(s.writes, b);
      ContentsExtend(segments, t, b);
      PartsExtend(segments, numbers, segmentCounter, t);
      segments := segments[k := t];
      currentSegmentSize := currentSegmentSize + |b|;
    }

    lemma PartsAppend(segments: seq<Segment>, numbers: seq<nat>, counter: nat, t: Segment)
      requires Parts(segments, numbers, counter)
      requires t == Segment(SegmentName(logFileBaseName, counter), [])
      ensures Parts(segments, numbers, counter + 1)
      ensures Parts(segments + [t], numbers + [counter], counter + 1)
    {}

    lemma PartsExtend(segments: seq<Segment>, numbers: seq<nat>, counter: nat, t: Segment)
      requires segments != [] && Parts(segments, numbers, counter)
      requires t.name == segments[|segments| - 1].name && Bounded(t, maxSegmentSize)
      ensures Parts(segments[|segments| - 1 := t], numbers, counter)
    {}
  }

  lemma ContentsAppend(segments: seq<Segment>, t: Segment)
    requires t.writes == []
    ensures Contents(segments + [t]) == Contents(segments)
  {
    assert (segments + [t])[..|segments|] == segments;
    assert Contents(segments) + [] == Contents(segments);
  }

  /** More bytes in the last segment are more bytes at the end. */
  lemma ContentsExtend(segments: seq<Segment>, t: Segment, b: seq<byte>)
    requires segments != [] && Concat(t.writes) == Concat(segments[|segments| - 1].writes) + b
    ensures var after := segments[|segments| - 1 := t];
      Contents(after) == Contents(segments) + b && after[..|segments| - 1] == segments[..|segments| - 1]
  {
    var after := segments[|segments| - 1 := t];
    assert after[..|segments| - 1] == segments[..|segments| - 1];
  }

  lemma ConcatAppend(writes: seq<seq<byte>>, b: seq<byte>)
    ensures Concat(writes + [b]) == Concat(writes) + b
  {
    assert (writes + [b])[..|writes|] == writes;
  }

  /** One call of Write: the bytes, whether a file could be created if one was needed, and how many
      bytes the file took. */
  datatype Attempt = Attempt(bytes: seq<byte>, createOk: bool, n: nat)

  /** What each attempt gets accepted: what the file takes, or nothing for want of a file. */
  predicate Outcomes(attempts: seq<Attempt>, accepted: seq<seq<byte>>) {
    && |accepted| <= |attempts|
    && forall i :: 0 <= i < |accepted| ==> Outcome(attempts[i], accepted[i])
  }

  predicate Outcome(a: Attempt, accepted: seq<byte>) {
    a.n <= |a.bytes| && (accepted == a.bytes[..a.n] || (accepted == [] && !a.createOk))
  }

  /** Any sequence of writes, with failed creations and short writes among them: the segments hold
      exactly the bytes accepted, no name occurs twice, and every segment is within the limit or at
      most a single write. */
  method WriteAll(w: OnDemandFile, attempts: seq<Attempt>) returns (accepted: seq<seq<byte>>)
    requires w.Valid()
    requires forall i :: 0 <= i < |attempts| ==> attempts[i].n <= |attempts[i].bytes|
    modifies w
    ensures w.Valid() && |accepted| == |attempts| && Outcomes(attempts, accepted)
    ensures Contents(w.segments) == old(Contents(w.segments)) + Concat(accepted)
    ensures forall i, j :: 0 <= i < j < |w.segments| ==> w.segments[i].name != w.segments[j].name
    ensures forall i :: 0 <= i < |w.segments| ==> Bounded(w.segments[i], w.maxSegmentSize)
  {
    accepted := WriteEach(w, attempts);
    DistinctNames(w);
  }

  method WriteEach(w: OnDemandFile, attempts: seq<Attempt>) returns (accepted: seq<seq<byte>>)
    requires w.Valid()
    requires forall i :: 0 <= i < |attempts| ==> attempts[i].n <= |attempts[i].bytes|
    modifies w
    ensures w.Valid() && |accepted| == |attempts| && Outcomes(attempts, accepted)
    ensures Contents(w.segments) == old(Contents(w.segments)) + Concat(accepted)
  {
    ghost var start := Contents(w.segments);
    accepted := [];
    assert start + [] == start;
    for k := 0 to |attempts|
      invariant w.Valid() && |accepted| == k && Outcomes(attempts, accepted)
      invariant Contents(w.segments) == start + Concat(accepted)
    {
      accepted := WriteOne(w, attempts, accepted, start);
    }
  }

  /** The next attempt; `start` is what the segments held before the first. */
  method WriteOne(w: OnDemandFile, attempts: seq<Attempt>, done: seq<seq<byte>>, ghost start: seq<byte>)
    returns (accepted: seq<seq<byte>>)
    requires w.Valid() && |done| < |attempts| && Outcomes(attempts, done)
    requires attempts[|done|].n <= |attempts[|done|].bytes|
    requires Contents(w.segments) == start + Concat(done)
    modifies w
    ensures w.Valid() && |accepted| == |done| + 1 && Outcomes(attempts, accepted)
    ensures Contents(w.segments) == start + Concat(accepted)
  {
    var a := attempts[|done|];
    var n, err := w.Write(a.bytes, a.createOk, a.n);
    accepted := done + [a.bytes[..n]];
    ConcatAppend(done, a.bytes[..n]);
    Associative(start, Concat(done), a.bytes[..n]);
  }

  lemma DistinctNames(w: OnDemandFile)
    requires w.Valid()
    ensures forall i, j :: 0 <= i < j < |w.segments| ==> w.segments[i].name != w.segments[j].name
  {
    forall i, j | 0 <= i < j < |w.segments| ensures w.segments[i].name != w.segments[j].name {
      if w.segments[i].name == w.segments[j].name {
        NamesDiffer(w.logFileBaseName, w.numbers[i], w.numbers[j]);
      }
    }
  }
}
