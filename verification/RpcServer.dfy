/** The server side of one connection: the read loop, one goroutine per request, and the
    responses serialised by `codec.sending`. What the loop reads is arbitrary here. */
module RpcServer {
  import opened Bytes
  import opened Framing

  // ---------------------------------------------------------------- state

  /** What a handler produced. A nil reply is HReply(None, []); a panic with an error value
      is HError with that error's text. */
  datatype HandlerResult = HReply(body: Option<Json>, block: seq<byte>) | HError(text: seq<byte>)

  datatype Emission = Whole | Nothing | Cut

  datatype JobPc = Running | Finished | Holding | Sending(rest: seq<seq<byte>>) | Sent(how: Emission)

  /** A dispatched request: the sequence number and service its context captured, its argument,
      and what its handler returned. */
  datatype Job = Job(seqno: nat, service: seq<byte>, body: Option<Json>, block: seq<byte>,
                     result: Option<HandlerResult>, pc: JobPc)

  datatype LoopPc = ReadingHeader | ReadingPayload(seqno: nat, service: seq<byte>) | Closed

  datatype Config = Config(json: JsonCodec, services: set<seq<byte>>)

  datatype State = State(
    loop: LoopPc,
    req: Header,                   // codec.req, overwritten by every request
    jobs: seq<Job>,                // in order of dispatch
    resp: Header,                  // codec.resp, overwritten by every response
    sendLock: Option<nat>,         // who holds codec.sending
    wire: seq<Message>,            // the responses whose frames were begun, in order
    wireJobs: seq<nat>,            // the jobs they answer
    out: seq<byte>,
    broken: bool)

  function Init(): State {
    State(ReadingHeader, Header(0, [], 0, []), [], Header(0, [], 0, []), None, [], [], [], false)
  }

  // ---------------------------------------------------------------- steps

  datatype LoopStep = ReadHeader(h: Header) | ReadPayload(body: Option<Json>, block: seq<byte>) | ReadFail

  datatype JobStep = Finish(r: HandlerResult) | TakeLock | Encode | Write | WriteFail(n: nat)

  datatype Step = Loop(l: LoopStep) | Work(i: nat, j: JobStep)

  function ErrorText(r: HandlerResult): seq<byte> {
    match r case HReply(_, _) => [] case HError(text) => text
  }

  /** replyv as sendResponse gets it, or the fresh ProtoBuff it uses for an error. */
  function ReplyBody(r: HandlerResult): Option<Json> {
    match r case HReply(body, _) => body case HError(_) => None
  }

  function ReplyBlock(r: HandlerResult): seq<byte> {
    match r case HReply(_, block) => block case HError(_) => []
  }

  /** The response that belongs to a request. */
  function ResponseTo(seqno: nat, service: seq<byte>, r: HandlerResult): Message {
    Message(seqno, service, ErrorText(r), ReplyBody(r), ReplyBlock(r))
  }

  /** Lengths the frame can express. */
  predicate Fits(json: JsonCodec, r: HandlerResult) {
    ReplyBody(r).Some? ==>
      |ReplyBlock(r)| < TWO_32 &&
      (json.marshal(ReplyBody(r).value).Some? ==> |json.marshal(ReplyBody(r).value).value| < TWO_32)
  }

  predicate CanLoop(s: State, l: LoopStep) {
    match l
    case ReadHeader(h) => s.loop.ReadingHeader?
    case ReadPayload(_, _) => s.loop.ReadingPayload?
    case ReadFail => !s.loop.Closed?
  }

  /** The context is built from the header just read; an unknown service ends the loop. */
  function DoLoop(cfg: Config, s: State, l: LoopStep): State
    requires CanLoop(s, l)
  {
    match l
    case ReadHeader(h) =>
      s.(req := h.(error := []),
         loop := if h.service in cfg.services then ReadingPayload(h.seqno, h.service) else Closed)
    case ReadPayload(body, block) =>
      s.(jobs := s.jobs + [Job(s.loop.seqno, s.loop.service, body, block, None, Running)], loop := ReadingHeader)
    case ReadFail => s.(loop := Closed)
  }

  function At(s: State, i: nat, p: JobPc): State
    requires i < |s.jobs|
  {
    s.(jobs := s.jobs[i := s.jobs[i].(pc := p)])
  }

  predicate CanWork(cfg: Config, s: State, i: nat, j: JobStep) {
    i < |s.jobs| &&
    var p := s.jobs[i].pc;
    match j
    case Finish(r) => p.Running? && Fits(cfg.json, r)
    case TakeLock => p.Finished? && s.jobs[i].result.Some? && s.sendLock.None?
    case Encode => p.Holding? && s.jobs[i].result.Some?
    case Write => p.Sending? && p.rest != []
    case WriteFail(n) => p.Sending? && p.rest != [] && n <= |p.rest[0]|
  }

  /** The message writeResponse encodes: header fields from codec.resp, payload from the reply. */
  function Encoded(s: State, r: HandlerResult): Message {
    Message(s.resp.seqno, s.resp.service, s.resp.error, ReplyBody(r), ReplyBlock(r))
  }

  function DoWork(cfg: Config, s: State, i: nat, j: JobStep): State
    requires CanWork(cfg, s, i, j)
  {
    match j
    case Finish(r) => s.(jobs := s.jobs[i := s.jobs[i].(result := Some(r), pc := Finished)])
    case TakeLock =>
      At(s, i, Holding).(sendLock := Some(i),
                         resp := Header(s.jobs[i].seqno, s.jobs[i].service, 0, ErrorText(s.jobs[i].result.value)))
    case Encode =>
      var m := Encoded(s, s.jobs[i].result.value);
      if Chunks(cfg.json, m).None? || s.broken then At(s, i, Sent(Nothing)).(sendLock := None)
      else At(s, i, Sending(Chunks(cfg.json, m).value))
             .(resp := HeaderOf(cfg.json, m), wire := s.wire + [m], wireJobs := s.wireJobs + [i])
    case Write =>
      var rest := s.jobs[i].pc.rest;
      if |rest| == 1 then At(s, i, Sent(Whole)).(out := s.out + rest[0], sendLock := None)
      else At(s, i, Sending(rest[1..])).(out := s.out + rest[0])
    case WriteFail(n) =>
      At(s, i, Sent(Cut)).(out := s.out + s.jobs[i].pc.rest[0][..n], broken := true, sendLock := None)
  }

  predicate Enabled(cfg: Config, s: State, st: Step) {
    match st
    case Loop(l) => CanLoop(s, l)
    case Work(i, j) => CanWork(cfg, s, i, j)
  }

  function Apply(cfg: Config, s: State, st: Step): State
    requires Enabled(cfg, s, st)
  {
    match st
    case Loop(l) => DoLoop(cfg, s, l)
    case Work(i, j) => DoWork(cfg, s, i, j)
  }

  // ---------------------------------------------------------------- invariants

  predicate Emitted(p: JobPc) {
    p.Sending? || (p.Sent? && !p.how.Nothing?)
  }

  ghost predicate JobInv(cfg: Config, s: State, i: nat)
    requires i < |s.jobs|
  {
    var b := s.jobs[i];
    && (b.pc.Running? <==> b.result.None?)
    && (b.result.Some? ==> Fits(cfg.json, b.result.value))
    && (b.pc.Holding? || b.pc.Sending? <==> s.sendLock == Some(i))
    && (b.pc.Holding? ==> s.resp == Header(b.seqno, b.service, 0, ErrorText(b.result.value)))
    && (b.pc == Sent(Nothing) ==> s.broken || Chunks(cfg.json, ResponseTo(b.seqno, b.service, b.result.value)).None?)
    && (b.pc == Sent(Cut) ==> s.broken)
  }

  ghost predicate JobsInv(cfg: Config, s: State) {
    && (s.sendLock.Some? ==> s.sendLock.value < |s.jobs|)
    && forall i :: 0 <= i < |s.jobs| ==> JobInv(cfg, s, i)
  }

  ghost predicate Answer(cfg: Config, s: State, k: nat)
    requires k < |s.wire| == |s.wireJobs|
  {
    var i := s.wireJobs[k];
    && i < |s.jobs| && Emitted(s.jobs[i].pc) && s.jobs[i].result.Some?
    && s.wire[k] == ResponseTo(s.jobs[i].seqno, s.jobs[i].service, s.jobs[i].result.value)
    && Chunks(cfg.json, s.wire[k]).Some?
    && (s.jobs[i].pc == Sent(Whole) ==> Stream(cfg.json, s.wire[..k + 1]) <= s.out)
  }

  /** The frames begun answer distinct jobs, and every job past its lock has its frame. */
  ghost predicate AnswersInv(cfg: Config, s: State) {
    && |s.wire| == |s.wireJobs|
    && (forall k :: 0 <= k < |s.wire| ==> Answer(cfg, s, k))
    && (forall i, k :: 0 <= i < k < |s.wireJobs| ==> s.wireJobs[i] != s.wireJobs[k])
    && (forall i :: 0 <= i < |s.jobs| && Emitted(s.jobs[i].pc) ==> i in s.wireJobs)
  }

  function Unwritten(s: State): seq<seq<byte>> {
    if s.sendLock.Some? && s.sendLock.value < |s.jobs| && s.jobs[s.sendLock.value].pc.Sending?
    then s.jobs[s.sendLock.value].pc.rest else []
  }

  ghost predicate BytesInv(cfg: Config, s: State) {
    Accounted(cfg.json, s.wire, s.out, Unwritten(s), s.broken)
  }

  ghost predicate Inv(cfg: Config, s: State) {
    JobsInv(cfg, s) && AnswersInv(cfg, s) && BytesInv(cfg, s)
  }

  lemma InitInv(cfg: Config)
    ensures Inv(cfg, Init())
  {}

  // ---------------------------------------------------------------- what every step keeps

  lemma LoopKeeps(cfg: Config, s: State, l: LoopStep)
    requires Inv(cfg, s) && CanLoop(s, l)
    ensures Inv(cfg, DoLoop(cfg, s, l))
  {
    var t := DoLoop(cfg, s, l);
    forall i | 0 <= i < |t.jobs| ensures JobInv(cfg, t, i) {
      if i < |s.jobs| {
        assert JobInv(cfg, s, i);
      }
    }
    forall k | 0 <= k < |s.wire| ensures Answer(cfg, t, k) {
      assert Answer(cfg, s, k);
    }
    assert Unwritten(t) == Unwritten(s);
  }

  lemma WorkKeepsJobs(cfg: Config, s: State, i: nat, j: JobStep)
    requires JobsInv(cfg, s) && CanWork(cfg, s, i, j)
    ensures JobsInv(cfg, DoWork(cfg, s, i, j))
  {
    var t := DoWork(cfg, s, i, j);
    assert JobInv(cfg, s, i);
    forall d | 0 <= d < |t.jobs| ensures JobInv(cfg, t, d) {
      assert JobInv(cfg, s, d);
    }
  }

  /** The header under the lock is the one of the job that holds it. */
  lemma EncodedIsResponse(cfg: Config, s: State, i: nat)
    requires JobsInv(cfg, s) && CanWork(cfg, s, i, Encode)
    ensures Encoded(s, s.jobs[i].result.value) == ResponseTo(s.jobs[i].seqno, s.jobs[i].service, s.jobs[i].result.value)
  {
    assert JobInv(cfg, s, i);
  }

  lemma WorkKeepsBytes(cfg: Config, s: State, i: nat, j: JobStep)
    requires JobsInv(cfg, s) && BytesInv(cfg, s) && CanWork(cfg, s, i, j)
    ensures BytesInv(cfg, DoWork(cfg, s, i, j))
  {
    assert JobInv(cfg, s, i);
    if j.Encode? {
      EncodeBytes(cfg, s, i);
    } else if j.Write? || j.WriteFail? {
      WriteBytes(cfg, s, i, j);
    } else {
      assert Unwritten(DoWork(cfg, s, i, j)) == Unwritten(s);
    }
  }

  lemma EncodeBytes(cfg: Config, s: State, i: nat)
    requires BytesInv(cfg, s) && CanWork(cfg, s, i, Encode) && s.sendLock == Some(i)
    ensures BytesInv(cfg, DoWork(cfg, s, i, Encode))
  {
    var t, m := DoWork(cfg, s, i, Encode), Encoded(s, s.jobs[i].result.value);
    assert Unwritten(s) == [];
    if Chunks(cfg.json, m).None? || s.broken {
      assert Unwritten(t) == [];
    } else {
      FrameBegun(cfg.json, s.wire, s.out, m);
      assert Unwritten(t) == Chunks(cfg.json, m).value;
    }
  }

  lemma WriteBytes(cfg: Config, s: State, i: nat, j: JobStep)
    requires BytesInv(cfg, s) && CanWork(cfg, s, i, j) && s.sendLock == Some(i) && (j.Write? || j.WriteFail?)
    ensures BytesInv(cfg, DoWork(cfg, s, i, j))
  {
    var t, rest := DoWork(cfg, s, i, j), s.jobs[i].pc.rest;
    assert Unwritten(s) == rest;
    if j.Write? {
      assert Unwritten(t) == rest[1..];
      ChunkWritten(cfg.json, s.wire, s.out, rest);
    } else {
      assert Unwritten(t) == [];
      ChunkCut(cfg.json, s.wire, s.out, rest, j.n);
    }
  }

  lemma EncodeOld(cfg: Config, s: State, i: nat, k: nat)
    requires |s.wire| == |s.wireJobs| && k < |s.wire| && Answer(cfg, s, k) && CanWork(cfg, s, i, Encode)
    ensures var t := DoWork(cfg, s, i, Encode);
      k < |t.wire| == |t.wireJobs| && Answer(cfg, t, k) && t.wireJobs[k] == s.wireJobs[k] != i
  {
    var t := DoWork(cfg, s, i, Encode);
    assert t.wire[..k + 1] == s.wire[..k + 1];
  }

  lemma EncodeNew(cfg: Config, s: State, i: nat)
    requires JobsInv(cfg, s) && |s.wire| == |s.wireJobs| && CanWork(cfg, s, i, Encode)
    ensures var t := DoWork(cfg, s, i, Encode);
      if |t.wire| == |s.wire| then t.wireJobs == s.wireJobs && !Emitted(t.jobs[i].pc)
      else |t.wire| == |t.wireJobs| == |s.wire| + 1 && t.wireJobs == s.wireJobs + [i] && Answer(cfg, t, |s.wire|)
  {
    EncodedIsResponse(cfg, s, i);
  }

  lemma EncodeKeepsAnswers(cfg: Config, s: State, i: nat)
    requires JobsInv(cfg, s) && AnswersInv(cfg, s) && CanWork(cfg, s, i, Encode)
    ensures AnswersInv(cfg, DoWork(cfg, s, i, Encode))
  {
    var t := DoWork(cfg, s, i, Encode);
    EncodeNew(cfg, s, i);
    forall k | 0 <= k < |s.wire| ensures Answer(cfg, t, k) && t.wireJobs[k] == s.wireJobs[k] != i {
      EncodeOld(cfg, s, i, k);
    }
    EncodeEmitted(cfg, s, i);
  }

  lemma EncodeEmitted(cfg: Config, s: State, i: nat)
    requires JobsInv(cfg, s) && AnswersInv(cfg, s) && CanWork(cfg, s, i, Encode)
    ensures var t := DoWork(cfg, s, i, Encode);
      forall d :: 0 <= d < |t.jobs| && Emitted(t.jobs[d].pc) ==> d in t.wireJobs
  {
    var t := DoWork(cfg, s, i, Encode);
    EncodeNew(cfg, s, i);
    forall d | 0 <= d < |t.jobs| && Emitted(t.jobs[d].pc) ensures d in t.wireJobs {
      if d != i {
        assert Emitted(s.jobs[d].pc);
      } else {
        assert t.wireJobs[|s.wire|] == i;
      }
    }
  }

  /** The step that ends a job with its frame whole leaves nothing to write. */
  lemma LastWrite(cfg: Config, s: State, i: nat, j: JobStep)
    requires BytesInv(cfg, s) && CanWork(cfg, s, i, j) && s.sendLock == Some(i)
    requires DoWork(cfg, s, i, j).jobs[i].pc == Sent(Whole)
    ensures Accounted(cfg.json, s.wire, DoWork(cfg, s, i, j).out, [], false)
  {
    var rest := s.jobs[i].pc.rest;
    assert Unwritten(s) == rest && rest[1..] == [];
    ChunkWritten(cfg.json, s.wire, s.out, rest);
  }

  lemma WorkExtends(cfg: Config, s: State, i: nat, j: JobStep)
    requires CanWork(cfg, s, i, j) && !j.Encode?
    ensures var t := DoWork(cfg, s, i, j);
      && t.wire == s.wire && t.wireJobs == s.wireJobs && s.out <= t.out
      && |t.jobs| == |s.jobs| && forall d :: 0 <= d < |s.jobs| && d != i ==> t.jobs[d] == s.jobs[d]
  {}

  /** A frame stays an answer, and is on the wire to its last byte when its job is done. */
  lemma KeepsAnswer(cfg: Config, s: State, i: nat, j: JobStep, k: nat)
    requires BytesInv(cfg, s) && CanWork(cfg, s, i, j) && !j.Encode? && JobInv(cfg, s, i)
    requires k < |s.wire| == |s.wireJobs| && Answer(cfg, s, k)
    ensures k < |DoWork(cfg, s, i, j).wire| == |DoWork(cfg, s, i, j).wireJobs| && Answer(cfg, DoWork(cfg, s, i, j), k)
  {
    WorkExtends(cfg, s, i, j);
    if s.wireJobs[k] == i && DoWork(cfg, s, i, j).jobs[i].pc == Sent(Whole) {
      LastWrite(cfg, s, i, j);
      AllWritten(cfg.json, s.wire, DoWork(cfg, s, i, j).out, k + 1);
    }
  }

  lemma OtherKeepsAnswers(cfg: Config, s: State, i: nat, j: JobStep)
    requires JobsInv(cfg, s) && AnswersInv(cfg, s) && BytesInv(cfg, s) && CanWork(cfg, s, i, j) && !j.Encode?
    ensures AnswersInv(cfg, DoWork(cfg, s, i, j))
  {
    var t := DoWork(cfg, s, i, j);
    assert JobInv(cfg, s, i);
    WorkExtends(cfg, s, i, j);
    forall k | 0 <= k < |s.wire| ensures Answer(cfg, t, k) {
      KeepsAnswer(cfg, s, i, j, k);
    }
    forall d | 0 <= d < |t.jobs| && Emitted(t.jobs[d].pc) ensures d in t.wireJobs {
      assert Emitted(s.jobs[d].pc);
    }
  }

  lemma StepKeepsInv(cfg: Config, s: State, st: Step)
    requires Inv(cfg, s) && Enabled(cfg, s, st)
    ensures Inv(cfg, Apply(cfg, s, st))
  {
    match st
    case Loop(l) => LoopKeeps(cfg, s, l);
    case Work(i, j) =>
      WorkKeepsJobs(cfg, s, i, j);
      WorkKeepsBytes(cfg, s, i, j);
      if j.Encode? {
        EncodeKeepsAnswers(cfg, s, i);
      } else {
        OtherKeepsAnswers(cfg, s, i, j);
      }
  }

  // ---------------------------------------------------------------- runs

  ghost predicate Next(cfg: Config, s: State, t: State) {
    exists st :: Enabled(cfg, s, st) && t == Apply(cfg, s, st)
  }

  ghost predicate IsRun(cfg: Config, run: seq<State>) {
    && run != []
    && run[0] == Init()
    && forall i :: 0 <= i < |run| - 1 ==> Next(cfg, run[i], run[i + 1])
  }

  lemma {:induction false} RunInv(cfg: Config, run: seq<State>)
    requires IsRun(cfg, run)
    ensures Inv(cfg, run[|run| - 1])
    decreases |run|
  {
    if |run| == 1 {
      InitInv(cfg);
    } else {
      var before := run[..|run| - 1];
      forall i | 0 <= i < |before| - 1 ensures Next(cfg, before[i], before[i + 1]) {
        assert Next(cfg, run[i], run[i + 1]);
      }
      RunInv(cfg, before);
      NextKeepsInv(cfg, run, |run| - 2);
    }
  }

  lemma NextKeepsInv(cfg: Config, run: seq<State>, k: nat)
    requires IsRun(cfg, run) && k + 1 < |run| && Inv(cfg, run[k])
    ensures Inv(cfg, run[k + 1])
  {
    assert Next(cfg, run[k], run[k + 1]);
    var st :| Enabled(cfg, run[k], st) && run[k + 1] == Apply(cfg, run[k], st);
    StepKeepsInv(cfg, run[k], st);
  }

  /** Frame k of the output, byte for byte. */
  ghost predicate FrameAt(cfg: Config, s: State, k: nat, m: Message)
    requires k < |s.wire|
  {
    var from := |Stream(cfg.json, s.wire[..k])|;
    && from + |Frame(cfg.json, m)| <= |s.out|
    && s.out[from..from + |Frame(cfg.json, m)|] == Frame(cfg.json, m)
  }

  lemma WholeFrameAt(cfg: Config, s: State, k: nat)
    requires k < |s.wire|
    requires Stream(cfg.json, s.wire[..k + 1]) <= s.out
    ensures FrameAt(cfg, s, k, s.wire[k])
  {
    assert s.wire[..k + 1][..k] == s.wire[..k];
    var x, y := Stream(cfg.json, s.wire[..k]), Frame(cfg.json, s.wire[k]);
    assert Stream(cfg.json, s.wire[..k + 1]) == x + y;
    assert s.out[..|x + y|] == x + y;
  }

  /** The frames that answer job `i`. */
  ghost predicate AnsweredBy(cfg: Config, s: State, i: nat, m: Message)
    requires |s.wire| == |s.wireJobs|
  {
    && (Chunks(cfg.json, m).None? <==> i !in s.wireJobs)
    && (forall k :: 0 <= k < |s.wire| && s.wireJobs[k] == i ==> s.wire[k] == m && FrameAt(cfg, s, k, m))
    && (forall k, l :: 0 <= k < l < |s.wireJobs| ==> s.wireJobs[k] != s.wireJobs[l])
  }

  lemma JobFrames(cfg: Config, s: State, i: nat, m: Message)
    requires AnswersInv(cfg, s) && i < |s.jobs| && s.jobs[i].pc == Sent(Whole) && s.jobs[i].result.Some?
    requires m == ResponseTo(s.jobs[i].seqno, s.jobs[i].service, s.jobs[i].result.value)
    ensures i in s.wireJobs && Chunks(cfg.json, m).Some?
    ensures forall k :: 0 <= k < |s.wire| && s.wireJobs[k] == i ==> s.wire[k] == m && FrameAt(cfg, s, k, m)
  {
    forall k | 0 <= k < |s.wire| && s.wireJobs[k] == i
      ensures s.wire[k] == m && Chunks(cfg.json, m).Some? && FrameAt(cfg, s, k, m)
    {
      FrameAnswers(cfg, s, k);
    }
    assert Emitted(s.jobs[i].pc);
    var k :| 0 <= k < |s.wireJobs| && s.wireJobs[k] == i;
  }

  lemma NoFrames(cfg: Config, s: State, i: nat)
    requires AnswersInv(cfg, s) && i < |s.jobs| && s.jobs[i].pc == Sent(Nothing)
    ensures i !in s.wireJobs
  {
    forall k | 0 <= k < |s.wireJobs| ensures s.wireJobs[k] != i {
      assert Answer(cfg, s, k);
    }
  }

  lemma JobAnswered(cfg: Config, s: State, i: nat)
    requires Inv(cfg, s) && i < |s.jobs| && s.jobs[i].pc.Sent? && !s.broken
    ensures s.jobs[i].result.Some?
    ensures AnsweredBy(cfg, s, i, ResponseTo(s.jobs[i].seqno, s.jobs[i].service, s.jobs[i].result.value))
  {
    assert JobInv(cfg, s, i);
    if s.jobs[i].pc == Sent(Whole) {
      JobFrames(cfg, s, i, ResponseTo(s.jobs[i].seqno, s.jobs[i].service, s.jobs[i].result.value));
    } else {
      assert s.jobs[i].pc.how.Nothing?;
      NoFrames(cfg, s, i);
    }
  }

  lemma FrameAnswers(cfg: Config, s: State, k: nat)
    requires |s.wire| == |s.wireJobs| && k < |s.wire| && Answer(cfg, s, k) && s.jobs[s.wireJobs[k]].pc == Sent(Whole)
    ensures
      var b := s.jobs[s.wireJobs[k]];
      && s.wire[k] == ResponseTo(b.seqno, b.service, b.result.value)
      && Chunks(cfg.json, s.wire[k]).Some? && FrameAt(cfg, s, k, s.wire[k])
  {
    WholeFrameAt(cfg, s, k);
  }

  /** While no Write has failed, a job that is through sendResponse has put exactly one frame on
      the wire, whole and contiguous, with its own sequence number, service and result -- unless
      its body could not be encoded, and then it has put nothing there at all. */
  lemma OneFramePerJob(cfg: Config, run: seq<State>, i: nat)
    requires IsRun(cfg, run)
    requires i < |run[|run| - 1].jobs| && run[|run| - 1].jobs[i].pc.Sent? && !run[|run| - 1].broken
    ensures
      var s := run[|run| - 1];
      && s.jobs[i].result.Some?
      && |s.wire| == |s.wireJobs|
      && AnsweredBy(cfg, s, i, ResponseTo(s.jobs[i].seqno, s.jobs[i].service, s.jobs[i].result.value))
  {
    RunInv(cfg, run);
    JobAnswered(cfg, run[|run| - 1], i);
  }
}
