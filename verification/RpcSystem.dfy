/** Client and server joined by the two byte streams of one connection. */
module RpcSystem {
  import opened Bytes
  import opened Framing
  import C = RpcClient
  import S = RpcServer

  datatype Config = Config(json: JsonCodec, calls: seq<C.Call>, services: set<seq<byte>>)

  function CC(cfg: Config): C.Config { C.Config(cfg.json, cfg.calls) }
  function SC(cfg: Config): S.Config { S.Config(cfg.json, cfg.services) }

  /** The connection's assumptions: JSON round trips, and lengths that a frame can express. */
  ghost predicate Sound(cfg: Config) {
    && Lawful(cfg.json)
    && forall c :: 0 <= c < |cfg.calls| && cfg.calls[c].body.Some? ==>
         && |cfg.calls[c].block| < TWO_32
         && (cfg.json.marshal(cfg.calls[c].body.value).Some? ==> |cfg.json.marshal(cfg.calls[c].body.value).value| < TWO_32)
  }

  datatype State = State(
    cl: C.State,
    sv: S.State,
    serverPos: nat,      // how much of cl.out the server has read
    clientPos: nat,      // how much of sv.out the client has read
    got: nat)            // how many responses the client has read to their end

  function Init(cfg: Config): State {
    State(C.Init(CC(cfg)), S.Init(), 0, 0, 0)
  }

  datatype Step = ClientStep(c: C.Step) | ServerStep(s: S.Step)

  // ---------------------------------------------------------------- reading the peer's bytes

  function ClientPayload(cfg: Config, s: State): Payload
    requires s.cl.input.Routed? && s.clientPos <= |s.sv.out|
  {
    ReadPayload(cfg.json, s.cl.input.header.bodyLength, s.sv.out[s.clientPos..], false)
  }

  function ServerPayload(cfg: Config, s: State): Payload
    requires s.serverPos <= |s.cl.out|
  {
    ReadPayload(cfg.json, s.sv.req.bodyLength, s.cl.out[s.serverPos..], true)
  }

  /** A header read returns all 128 bytes, which are the next ones the server wrote; a body read
      returns what those bytes hold. Failures may come at any time. */
  predicate ClientReads(cfg: Config, s: State, st: C.Step) {
    match st
    case Input(ReadHeader(h)) =>
      s.clientPos + HEADER_LEN <= |s.sv.out|
      && h == ParseHeader(s.sv.out[s.clientPos..s.clientPos + HEADER_LEN])
    case Input(ReadBody(body, block)) =>
      s.cl.input.Routed? && s.clientPos <= |s.sv.out|
      && var p := ClientPayload(cfg, s); p.Payload? && p.body == body && p.block == block
    case _ => true
  }

  predicate ServerReads(cfg: Config, s: State, st: S.Step) {
    match st
    case Loop(ReadHeader(h)) =>
      s.serverPos + HEADER_LEN <= |s.cl.out|
      && h == ParseHeader(s.cl.out[s.serverPos..s.serverPos + HEADER_LEN])
    case Loop(ReadPayload(body, block)) =>
      s.serverPos <= |s.cl.out|
      && var p := ServerPayload(cfg, s); p.Payload? && p.body == body && p.block == block
    case _ => true
  }

  predicate Enabled(cfg: Config, s: State, st: Step) {
    match st
    case ClientStep(c) => C.Shape(CC(cfg), s.cl) && C.Enabled(s.cl, c) && ClientReads(cfg, s, c)
    case ServerStep(v) => S.Enabled(SC(cfg), s.sv, v) && ServerReads(cfg, s, v)
  }

  function AfterClient(cfg: Config, s: State, c: C.Step): State
    requires Enabled(cfg, s, ClientStep(c))
  {
    var t := s.(cl := C.Apply(CC(cfg), s.cl, c));
    match c
    case Input(ReadHeader(_)) => t.(clientPos := s.clientPos + HEADER_LEN)
    case Input(ReadBody(_, _)) => t.(clientPos := s.clientPos + ClientPayload(cfg, s).used, got := s.got + 1)
    case Input(TakeError) => t.(got := s.got + 1)
    case _ => t
  }

  function AfterServer(cfg: Config, s: State, v: S.Step): State
    requires Enabled(cfg, s, ServerStep(v))
  {
    var t := s.(sv := S.Apply(SC(cfg), s.sv, v));
    match v
    case Loop(ReadHeader(_)) => t.(serverPos := s.serverPos + HEADER_LEN)
    case Loop(ReadPayload(_, _)) => t.(serverPos := s.serverPos + ServerPayload(cfg, s).used)
    case _ => t
  }

  function Apply(cfg: Config, s: State, st: Step): State
    requires Enabled(cfg, s, st)
  {
    match st
    case ClientStep(c) => AfterClient(cfg, s, c)
    case ServerStep(v) => AfterServer(cfg, s, v)
  }

  // ---------------------------------------------------------------- invariants

  /** A job is the request it came from, as it looks after the wire. */
  predicate Serves(b: S.Job, m: Message) {
    b.seqno == m.seqno && b.service == Project(m.service, 16)
    && b.body == m.body && b.block == SentBlock(m.body, m.block)
  }

  /** The server's jobs are a prefix of the requests on the wire, and it stands on a boundary. */
  ghost predicate UpInv(cfg: Config, s: State) {
    var n, ms := |s.sv.jobs|, s.cl.wire;
    && n <= |ms|
    && (forall i :: 0 <= i < n ==> Serves(s.sv.jobs[i], ms[i]))
    && (s.sv.loop.ReadingHeader? ==> s.serverPos == |Stream(cfg.json, ms[..n])|)
    && (s.sv.loop.ReadingPayload? ==>
          && n < |ms|
          && s.serverPos == |Stream(cfg.json, ms[..n])| + HEADER_LEN
          && s.serverPos <= |s.cl.out|
          && s.sv.req == HeaderSeen(cfg.json, ms[n])
          && s.sv.loop.seqno == ms[n].seqno && s.sv.loop.service == Project(ms[n].service, 16))
  }

  /** The client stands on a boundary of the server's responses too. */
  ghost predicate DownInv(cfg: Config, s: State) {
    var i, ms := s.cl.input, s.sv.wire;
    && s.got <= |ms|
    && (i.ReadingHeader? || (i.Completing? && !i.failed) ==> s.clientPos == |Stream(cfg.json, ms[..s.got])|)
    && (i.GotHeader? || i.Routed? ==>
          && s.got < |ms|
          && s.clientPos == |Stream(cfg.json, ms[..s.got])| + HEADER_LEN
          && s.clientPos <= |s.sv.out|
          && i.header == HeaderSeen(cfg.json, ms[s.got]))
  }

  /** How a caller sees what a handler returned: a block needs a body to travel with, and an error
      is its first 100 bytes without zeros, or an empty success if nothing is left of it. */
  function Seen(r: S.HandlerResult): C.Outcome {
    match r
    case HReply(body, block) => C.Reply(body, SentBlock(body, block))
    case HError(text) =>
      if Project(text, 100) == [] then C.Reply(None, []) else C.ServerError(Project(text, 100))
  }

  /** `o` is what the handler of call `c` returned when it ran for call `c`. */
  ghost predicate Delivered(s: State, c: nat, o: C.Outcome) {
    exists i :: 0 <= i < |s.sv.jobs| && i < |s.cl.wireCalls| && s.cl.wireCalls[i] == c
      && s.sv.jobs[i].result.Some? && o == Seen(s.sv.jobs[i].result.value)
  }

  predicate FromServer(o: C.Outcome) {
    o.Reply? || o.ServerError?
  }

  ghost predicate ResultsOk(s: State) {
    forall c, k :: 0 <= c < |s.cl.results| && 0 <= k < |s.cl.results[c]| && FromServer(s.cl.results[c][k]) ==>
      Delivered(s, c, s.cl.results[c][k])
  }

  ghost predicate CompletingOk(s: State) {
    s.cl.input.Completing? && FromServer(s.cl.input.outcome) ==> Delivered(s, s.cl.input.call, s.cl.input.outcome)
  }

  predicate RoutedOk(s: C.State) {
    s.input.Routed? && s.input.to.Some? ==>
      s.input.to.value < |s.seqOf| && s.seqOf[s.input.to.value] == Some(s.input.header.seqno)
  }

  ghost predicate ResultsInv(s: State) {
    ResultsOk(s) && CompletingOk(s) && RoutedOk(s.cl)
  }

  ghost predicate Parts(cfg: Config, s: State) {
    C.Inv(CC(cfg), s.cl) && C.WireInv(CC(cfg), s.cl) && S.Inv(SC(cfg), s.sv)
  }

  ghost predicate Inv(cfg: Config, s: State) {
    Parts(cfg, s) && UpInv(cfg, s) && DownInv(cfg, s) && ResultsInv(s) && ConsumedInv(s)
  }

  /** A reply that was read has taken its call out of `pending`. */
  ghost predicate ConsumedInv(s: State) {
    && (forall k :: 0 <= k < s.got && k < |s.sv.wire| ==> s.sv.wire[k].seqno !in s.cl.table.pending)
    && (s.cl.input.Routed? ==> s.cl.input.header.seqno !in s.cl.table.pending)
  }

  lemma InitInv(cfg: Config)
    ensures Inv(cfg, Init(cfg))
  {
    C.InitInv(CC(cfg));
    S.InitInv(SC(cfg));
  }

  // ---------------------------------------------------------------- what is on the wires can be read

  lemma RequestsSendable(cfg: Config, s: State, i: nat)
    requires Sound(cfg) && C.Inv(CC(cfg), s.cl) && C.WireInv(CC(cfg), s.cl) && i < |s.cl.wire|
    ensures Sendable(cfg.json, s.cl.wire[i])
  {
    assert C.WireCall(CC(cfg), s.cl, i);
  }

  lemma ResponsesSendable(cfg: Config, s: State, k: nat)
    requires Sound(cfg) && Parts(cfg, s) && UpInv(cfg, s) && k < |s.sv.wire|
    ensures Sendable(cfg.json, s.sv.wire[k])
  {
    assert S.Answer(SC(cfg), s.sv, k);
    var i := s.sv.wireJobs[k];
    assert S.JobInv(SC(cfg), s.sv, i);
    RequestsSendable(cfg, s, i);
    assert Serves(s.sv.jobs[i], s.cl.wire[i]);
  }

  /** `out` is a stream of readable messages, cut anywhere. */
  ghost predicate Readable(json: JsonCodec, ms: seq<Message>, out: seq<byte>) {
    out <= Stream(json, ms) && forall k :: 0 <= k < |ms| ==> Sendable(json, ms[k])
  }

  lemma RequestsReadable(cfg: Config, s: State)
    requires Sound(cfg) && Parts(cfg, s)
    ensures Readable(cfg.json, s.cl.wire, s.cl.out)
    ensures forall k :: 0 <= k < |s.cl.wire| ==> s.cl.wire[k].error == []
  {
    forall k | 0 <= k < |s.cl.wire| ensures Sendable(cfg.json, s.cl.wire[k]) && s.cl.wire[k].error == [] {
      RequestsSendable(cfg, s, k);
      assert C.WireCall(CC(cfg), s.cl, k);
    }
  }

  lemma ResponsesReadable(cfg: Config, s: State)
    requires Sound(cfg) && Parts(cfg, s) && UpInv(cfg, s)
    ensures Readable(cfg.json, s.sv.wire, s.sv.out)
  {
    forall k | 0 <= k < |s.sv.wire| ensures Sendable(cfg.json, s.sv.wire[k]) {
      ResponsesSendable(cfg, s, k);
    }
  }

  // ---------------------------------------------------------------- both sides only add

  ghost predicate ClientGrown(s: C.State, t: C.State) {
    && s.wire <= t.wire && s.wireCalls <= t.wireCalls && s.out <= t.out
    && |s.seqOf| == |t.seqOf|
    && forall d :: 0 <= d < |s.seqOf| && s.seqOf[d].Some? ==> t.seqOf[d] == s.seqOf[d]
  }

  lemma AdmitGrows(cfg: C.Config, s: C.State, c: nat, a: C.AdmitStep)
    requires C.Shape(cfg, s) && C.SeqInv(s) && C.CanAdmit(s, c, a)
    ensures ClientGrown(s, C.DoAdmit(cfg, s, c, a))
  {}

  lemma TransmitGrows(cfg: C.Config, s: C.State, c: nat, w: C.WriteStep)
    requires C.Shape(cfg, s) && C.CanTransmit(s, c, w)
    ensures ClientGrown(s, C.DoTransmit(cfg, s, c, w))
  {}

  lemma InputGrows(cfg: C.Config, s: C.State, i: C.ReadStep)
    requires C.Shape(cfg, s) && C.CanInput(s, i)
    ensures ClientGrown(s, C.DoInput(cfg, s, i))
  {}

  lemma ShutGrows(cfg: C.Config, s: C.State, z: C.StopStep)
    requires C.Shape(cfg, s) && C.CanShut(s, z)
    ensures ClientGrown(s, C.DoShut(cfg, s, z))
  {}

  lemma ClientGrows(cfg: C.Config, s: C.State, st: C.Step)
    requires C.Shape(cfg, s) && C.SeqInv(s) && C.Enabled(s, st)
    ensures ClientGrown(s, C.Apply(cfg, s, st))
  {
    match st
    case Admit(c, a) => AdmitGrows(cfg, s, c, a);
    case Transmit(c, w) => TransmitGrows(cfg, s, c, w);
    case Input(i) => InputGrows(cfg, s, i);
    case Shut(z) => ShutGrows(cfg, s, z);
  }

  predicate SameJob(a: S.Job, b: S.Job) {
    a.seqno == b.seqno && a.service == b.service && a.body == b.body && a.block == b.block
    && (a.result.Some? ==> b.result == a.result)
  }

  ghost predicate ServerGrown(s: S.State, t: S.State) {
    && s.wire <= t.wire && s.out <= t.out
    && |s.jobs| <= |t.jobs|
    && forall i :: 0 <= i < |s.jobs| ==> SameJob(s.jobs[i], t.jobs[i])
  }

  lemma ServerGrows(cfg: S.Config, s: S.State, st: S.Step)
    requires S.JobsInv(cfg, s) && S.Enabled(cfg, s, st)
    ensures ServerGrown(s, S.Apply(cfg, s, st))
  {
    match st
    case Loop(_) =>
    case Work(i, j) => WorkGrows(cfg, s, i, j);
  }

  lemma WorkGrows(cfg: S.Config, s: S.State, i: nat, j: S.JobStep)
    requires S.JobsInv(cfg, s) && S.CanWork(cfg, s, i, j)
    ensures ServerGrown(s, S.DoWork(cfg, s, i, j))
  {
    assert S.JobInv(cfg, s, i);
  }

  /** What was delivered stays delivered. */
  lemma DeliveredGrows(s: State, t: State, c: nat, o: C.Outcome)
    requires Delivered(s, c, o) && s.cl.wireCalls <= t.cl.wireCalls && ServerGrown(s.sv, t.sv)
    ensures Delivered(t, c, o)
  {
    var i :| 0 <= i < |s.sv.jobs| && i < |s.cl.wireCalls| && s.cl.wireCalls[i] == c
      && s.sv.jobs[i].result.Some? && o == Seen(s.sv.jobs[i].result.value);
    assert t.cl.wireCalls[i] == c && SameJob(s.sv.jobs[i], t.sv.jobs[i]);
  }

  // ---------------------------------------------------------------- the routed reply is the call's own

  /** The job whose response `input` has in hand is the one of the call it routed it to. */
  lemma ReplyIsOwn(cfg: Config, s: State)
    requires Inv(cfg, s) && s.cl.input.Routed? && s.cl.input.to.Some?
    ensures
      var i := s.sv.wireJobs[s.got];
      && i < |s.sv.jobs| && i < |s.cl.wireCalls| && s.cl.wireCalls[i] == s.cl.input.to.value
      && s.sv.jobs[i].result.Some?
      && s.sv.wire[s.got] == S.ResponseTo(s.sv.jobs[i].seqno, s.sv.jobs[i].service, s.sv.jobs[i].result.value)
  {
    assert S.Answer(SC(cfg), s.sv, s.got);
    var i := s.sv.wireJobs[s.got];
    assert Serves(s.sv.jobs[i], s.cl.wire[i]);
    assert C.WireCall(CC(cfg), s.cl, i);
    var c, d := s.cl.input.to.value, s.cl.wireCalls[i];
    assert s.cl.seqOf[c] == s.cl.seqOf[d];
    assert s.cl.roster[s.cl.seqOf[c].value] == c && s.cl.roster[s.cl.seqOf[d].value] == d;
  }

  lemma ErrorIsOwn(cfg: Config, s: State)
    requires Inv(cfg, s) && s.cl.input.Routed? && s.cl.input.to.Some? && s.cl.input.header.error != []
    ensures Delivered(s, s.cl.input.to.value, C.ServerError(s.cl.input.header.error))
  {
    ReplyIsOwn(cfg, s);
    var i := s.sv.wireJobs[s.got];
    assert C.ServerError(s.cl.input.header.error) == Seen(s.sv.jobs[i].result.value);
  }

  lemma BodyIsOwn(cfg: Config, s: State)
    requires Sound(cfg) && Inv(cfg, s) && s.cl.input.Routed? && s.cl.input.to.Some? && s.cl.input.header.error == []
    requires ClientPayload(cfg, s).Payload?
    ensures Delivered(s, s.cl.input.to.value, C.Reply(ClientPayload(cfg, s).body, ClientPayload(cfg, s).block))
  {
    ReplyIsOwn(cfg, s);
    ResponsesReadable(cfg, s);
    PayloadInStream(cfg.json, s.sv.wire, s.got, s.sv.out, s.clientPos, false);
    var i := s.sv.wireJobs[s.got];
    assert C.Reply(ClientPayload(cfg, s).body, ClientPayload(cfg, s).block) == Seen(s.sv.jobs[i].result.value);
  }

  // ---------------------------------------------------------------- client steps

  lemma ClientKeepsUp(cfg: Config, s: State, c: C.Step)
    requires Parts(cfg, s) && UpInv(cfg, s) && Enabled(cfg, s, ClientStep(c))
    ensures UpInv(cfg, AfterClient(cfg, s, c))
  {
    ClientGrows(CC(cfg), s.cl, c);
    var t := AfterClient(cfg, s, c);
    assert t.cl.wire[..|s.sv.jobs|] == s.cl.wire[..|s.sv.jobs|];
  }

  lemma HeaderRead(cfg: Config, s: State, t: State, h: Header)
    requires Readable(cfg.json, s.sv.wire, s.sv.out) && DownInv(cfg, s) && s.cl.input.ReadingHeader?
    requires s.clientPos + HEADER_LEN <= |s.sv.out|
    requires h == ParseHeader(s.sv.out[s.clientPos..s.clientPos + HEADER_LEN])
    requires t.sv == s.sv && t.got == s.got && t.clientPos == s.clientPos + HEADER_LEN && t.cl.input == C.GotHeader(h)
    ensures DownInv(cfg, t)
  {
    HeaderIsNext(cfg.json, s.sv.wire, s.got, s.sv.out, s.clientPos, h);
  }

  lemma HeaderKeepsDown(cfg: Config, s: State, h: Header)
    requires Sound(cfg) && Parts(cfg, s) && UpInv(cfg, s) && DownInv(cfg, s)
    requires Enabled(cfg, s, ClientStep(C.Input(C.ReadHeader(h))))
    ensures DownInv(cfg, AfterClient(cfg, s, C.Input(C.ReadHeader(h))))
  {
    ResponsesReadable(cfg, s);
    HeaderRead(cfg, s, AfterClient(cfg, s, C.Input(C.ReadHeader(h))), h);
  }

  /** Having read frame `got` to its end. */
  lemma FrameRead(cfg: Config, s: State, t: State)
    requires DownInv(cfg, s) && s.cl.input.Routed? && t.sv == s.sv && t.got == s.got + 1
    requires t.cl.input.ReadingHeader? || t.cl.input.Completing?
    requires t.clientPos == |Stream(cfg.json, s.sv.wire[..s.got + 1])|
    ensures DownInv(cfg, t)
  {}

  lemma BodyEnds(cfg: Config, s: State)
    requires Lawful(cfg.json) && Readable(cfg.json, s.sv.wire, s.sv.out) && DownInv(cfg, s)
    requires s.cl.input.Routed? && ClientPayload(cfg, s).Payload?
    ensures s.clientPos + ClientPayload(cfg, s).used == |Stream(cfg.json, s.sv.wire[..s.got + 1])|
  {
    PayloadInStream(cfg.json, s.sv.wire, s.got, s.sv.out, s.clientPos, false);
  }

  lemma BodyKeepsDown(cfg: Config, s: State, body: Option<Json>, block: seq<byte>)
    requires Sound(cfg) && Parts(cfg, s) && UpInv(cfg, s) && DownInv(cfg, s)
    requires Enabled(cfg, s, ClientStep(C.Input(C.ReadBody(body, block))))
    ensures DownInv(cfg, AfterClient(cfg, s, C.Input(C.ReadBody(body, block))))
  {
    ResponsesReadable(cfg, s);
    BodyEnds(cfg, s);
    FrameRead(cfg, s, AfterClient(cfg, s, C.Input(C.ReadBody(body, block))));
  }

  lemma ErrorSeen(json: JsonCodec, m: Message)
    requires HeaderSeen(json, m).error != []
    ensures m.error != []
  {}

  /** An error reply is a bare header. */
  lemma ErrorIsBare(json: JsonCodec, ms: seq<Message>, k: nat)
    requires k < |ms| && Sendable(json, ms[k]) && ms[k].error != []
    ensures |Stream(json, ms[..k + 1])| == |Stream(json, ms[..k])| + HEADER_LEN
  {
    FrameSplit(json, ms[k], []);
    StreamAt(json, ms, k);
  }

  lemma ErrorRead(cfg: Config, s: State, t: State)
    requires DownInv(cfg, s) && s.cl.input.Routed? && s.cl.input.header.error != []
    requires Sendable(cfg.json, s.sv.wire[s.got])
    requires t.sv == s.sv && t.got == s.got + 1 && t.clientPos == s.clientPos && t.cl.input.Completing?
    ensures DownInv(cfg, t)
  {
    ErrorSeen(cfg.json, s.sv.wire[s.got]);
    ErrorIsBare(cfg.json, s.sv.wire, s.got);
    FrameRead(cfg, s, t);
  }

  /** So leaving its payload unread ends on the boundary. */
  lemma ErrorKeepsDown(cfg: Config, s: State)
    requires Sound(cfg) && Parts(cfg, s) && UpInv(cfg, s) && DownInv(cfg, s)
    requires Enabled(cfg, s, ClientStep(C.Input(C.TakeError)))
    ensures DownInv(cfg, AfterClient(cfg, s, C.Input(C.TakeError)))
  {
    ResponsesSendable(cfg, s, s.got);
    ErrorRead(cfg, s, AfterClient(cfg, s, C.Input(C.TakeError)));
  }

  /** How `input` can move without reading and without finishing a frame. */
  predicate Moves(i: C.InputPc, k: C.InputPc) {
    || k == i
    || (i.GotHeader? && k.Routed? && k.header == i.header)
    || (i.Completing? && !i.failed && k.ReadingHeader?)
    || (k.Completing? && k.failed && k.outcome.ReadFailed?)
    || k.Stopping? || k.StopLocked? || k.Draining? || k.Unlocking? || k.Stopped?
  }

  predicate Reads(c: C.Step) {
    c.Input? && (c.i.ReadHeader? || c.i.ReadBody? || c.i.TakeError?)
  }

  lemma InputMoves(cfg: C.Config, s: C.State, c: C.Step)
    requires C.Shape(cfg, s) && C.Enabled(s, c)
    requires !Reads(c)
    ensures Moves(s.input, C.Apply(cfg, s, c).input)
  {
    match c
    case Input(i) =>
    case Shut(z) =>
    case _ =>
  }

  lemma MoveKeepsDown(cfg: Config, s: State, t: State)
    requires DownInv(cfg, s) && t.sv == s.sv && t.clientPos == s.clientPos && t.got == s.got
    requires Moves(s.cl.input, t.cl.input)
    ensures DownInv(cfg, t)
  {}

  lemma ClientKeepsDown(cfg: Config, s: State, c: C.Step)
    requires Sound(cfg) && Inv(cfg, s) && Enabled(cfg, s, ClientStep(c))
    ensures DownInv(cfg, AfterClient(cfg, s, c))
  {
    match c
    case Input(ReadHeader(h)) => HeaderKeepsDown(cfg, s, h);
    case Input(ReadBody(body, block)) => BodyKeepsDown(cfg, s, body, block);
    case Input(TakeError) => ErrorKeepsDown(cfg, s);
    case _ =>
      InputMoves(CC(cfg), s.cl, c);
      MoveKeepsDown(cfg, s, AfterClient(cfg, s, c));
  }

  // ---------------------------------------------------------------- results stay true

  /** A step completes a call with something of its own making, or with what `input` holds for it. */
  ghost predicate ResultStep(s: C.State, t: C.State, c: C.Step, d: nat)
    requires d < |s.results| == |t.results|
  {
    t.results[d] == s.results[d] ||
    (|t.results[d]| == |s.results[d]| + 1 && s.results[d] <= t.results[d] &&
     var o := t.results[d][|s.results[d]|];
     FromServer(o) ==> s.input.Completing? && d == s.input.call && o == s.input.outcome)
  }

  lemma SenderResults(cfg: C.Config, s: C.State, c: C.Step, d: nat)
    requires C.Shape(cfg, s) && C.Enabled(s, c) && d < |s.results| && (c.Admit? || c.Transmit?)
    ensures ResultStep(s, C.Apply(cfg, s, c), c, d)
  {
    match c
    case Admit(_, a) =>
    case Transmit(_, w) =>
  }

  lemma InputResults(cfg: C.Config, s: C.State, c: C.Step, d: nat)
    requires C.Shape(cfg, s) && C.Enabled(s, c) && d < |s.results| && (c.Input? || c.Shut?)
    ensures ResultStep(s, C.Apply(cfg, s, c), c, d)
  {
    match c
    case Input(i) =>
    case Shut(z) =>
  }

  lemma StepResults(cfg: C.Config, s: C.State, c: C.Step, d: nat)
    requires C.Shape(cfg, s) && C.Enabled(s, c) && d < |s.results|
    ensures ResultStep(s, C.Apply(cfg, s, c), c, d)
  {
    if c.Admit? || c.Transmit? {
      SenderResults(cfg, s, c, d);
    } else {
      InputResults(cfg, s, c, d);
    }
  }

  lemma ClientKeepsResults(cfg: Config, s: State, t: State, c: C.Step)
    requires C.Shape(CC(cfg), s.cl) && C.Enabled(s.cl, c)
    requires ResultsOk(s) && CompletingOk(s)
    requires t.cl == C.Apply(CC(cfg), s.cl, c) && t.sv == s.sv && s.cl.wireCalls <= t.cl.wireCalls
    ensures ResultsOk(t)
  {
    forall d, k | 0 <= d < |t.cl.results| && 0 <= k < |t.cl.results[d]| && FromServer(t.cl.results[d][k])
      ensures Delivered(t, d, t.cl.results[d][k])
    {
      StepResults(CC(cfg), s.cl, c, d);
      assert Delivered(s, d, t.cl.results[d][k]);
      DeliveredGrows(s, t, d, t.cl.results[d][k]);
    }
  }

  lemma ClientKeepsRouted(cfg: C.Config, s: C.State, c: C.Step)
    requires C.Shape(cfg, s) && C.SeqInv(s) && C.Enabled(s, c)
    requires RoutedOk(s)
    ensures RoutedOk(C.Apply(cfg, s, c))
  {
    ClientGrows(cfg, s, c);
  }

  /** A step that finishes no frame leaves `input` with what it had to deliver. */
  lemma OwnStays(cfg: C.Config, s: State, c: C.Step)
    requires C.Shape(cfg, s.cl) && C.Enabled(s.cl, c) && CompletingOk(s)
    requires c != C.Input(C.TakeError) && !(c.Input? && c.i.ReadBody?)
    ensures var k := C.Apply(cfg, s.cl, c).input; k.Completing? && FromServer(k.outcome) ==> Delivered(s, k.call, k.outcome)
  {
    if !Reads(c) {
      InputMoves(cfg, s.cl, c);
    }
  }

  /** What `input` is about to deliver is true already. */
  lemma CompletingIsOwn(cfg: Config, s: State, c: C.Step)
    requires Sound(cfg) && Inv(cfg, s) && Enabled(cfg, s, ClientStep(c))
    ensures var k := C.Apply(CC(cfg), s.cl, c).input;
      k.Completing? && FromServer(k.outcome) ==> Delivered(s, k.call, k.outcome)
  {
    if c == C.Input(C.TakeError) {
      ErrorIsOwn(cfg, s);
    } else if c.Input? && c.i.ReadBody? {
      if s.cl.input.to.Some? {
        BodyIsOwn(cfg, s);
      }
    } else {
      OwnStays(CC(cfg), s, c);
    }
  }

  lemma ClientKeepsCompleting(cfg: Config, s: State, c: C.Step)
    requires Sound(cfg) && Inv(cfg, s) && Enabled(cfg, s, ClientStep(c))
    ensures CompletingOk(AfterClient(cfg, s, c))
  {
    CompletingIsOwn(cfg, s, c);
    ClientGrows(CC(cfg), s.cl, c);
    CompletingGrows(s, AfterClient(cfg, s, c));
  }

  lemma CompletingGrows(s: State, t: State)
    requires t.sv == s.sv && s.cl.wireCalls <= t.cl.wireCalls
    requires t.cl.input.Completing? && FromServer(t.cl.input.outcome) ==> Delivered(s, t.cl.input.call, t.cl.input.outcome)
    ensures CompletingOk(t)
  {
    if t.cl.input.Completing? && FromServer(t.cl.input.outcome) {
      DeliveredGrows(s, t, t.cl.input.call, t.cl.input.outcome);
    }
  }

  // ---------------------------------------------------------------- consumed replies stay consumed

  /** The only entry a step can add is the one for the next number. */
  lemma PendingStep(cfg: C.Config, s: C.State, c: C.Step, q: nat)
    requires C.Shape(cfg, s) && C.Enabled(s, c)
    requires q in C.Apply(cfg, s, c).table.pending && q !in s.table.pending
    ensures q == s.table.seqno && |C.Apply(cfg, s, c).roster| == |s.roster| + 1
  {
    match c
    case Admit(_, a) =>
    case Transmit(_, w) =>
    case Input(i) =>
    case Shut(z) =>
  }

  lemma PendingGrows(cfg: C.Config, s: C.State, c: C.Step, q: nat)
    requires C.Shape(cfg, s) && C.Enabled(s, c) && s.table.seqno == |s.roster| % TWO_64
    requires q in C.Apply(cfg, s, c).table.pending && q < |s.roster| && |C.Apply(cfg, s, c).roster| <= TWO_64
    ensures q in s.table.pending
  {
    if |s.roster| < TWO_64 {
      SmallMod(|s.roster|, TWO_64);
    }
    if q !in s.table.pending {
      PendingStep(cfg, s, c, q);
    }
  }

  lemma ResponseNumber(cfg: Config, s: State, k: nat)
    requires Parts(cfg, s) && UpInv(cfg, s) && k < |s.sv.wire|
    ensures s.sv.wire[k].seqno < |s.cl.roster|
  {
    assert S.Answer(SC(cfg), s.sv, k);
    var i := s.sv.wireJobs[k];
    assert Serves(s.sv.jobs[i], s.cl.wire[i]);
    assert C.WireCall(CC(cfg), s.cl, i);
  }

  /** Reading to the end of frame `got`, or having routed it, needs its entry gone already. */
  lemma ReadIsConsumed(cfg: Config, s: State, c: C.Step)
    requires DownInv(cfg, s) && ConsumedInv(s) && Enabled(cfg, s, ClientStep(c)) && s.got < |s.sv.wire|
    requires AfterClient(cfg, s, c).got > s.got || AfterClient(cfg, s, c).cl.input.Routed?
    ensures s.sv.wire[s.got].seqno !in s.cl.table.pending || c == C.Input(C.Route)
    ensures c == C.Input(C.Route) ==> s.sv.wire[s.got].seqno !in AfterClient(cfg, s, c).cl.table.pending
  {}

  lemma StaysConsumed(cfg: Config, s: State, c: C.Step, k: nat)
    requires Parts(cfg, s) && UpInv(cfg, s) && Enabled(cfg, s, ClientStep(c)) && k < |s.sv.wire|
    requires |AfterClient(cfg, s, c).cl.roster| <= TWO_64
    requires s.sv.wire[k].seqno !in s.cl.table.pending
    ensures s.sv.wire[k].seqno !in AfterClient(cfg, s, c).cl.table.pending
  {
    ResponseNumber(cfg, s, k);
    var q, t := s.sv.wire[k].seqno, AfterClient(cfg, s, c);
    if q in t.cl.table.pending {
      PendingGrows(CC(cfg), s.cl, c, q);
    }
  }

  lemma GotGrows(cfg: Config, s: State, c: C.Step)
    requires Enabled(cfg, s, ClientStep(c))
    ensures AfterClient(cfg, s, c).sv == s.sv
    ensures s.got <= AfterClient(cfg, s, c).got <= s.got + 1
    ensures AfterClient(cfg, s, c).cl.input.Routed? ==> AfterClient(cfg, s, c).got == s.got
  {}

  lemma CurrentConsumed(cfg: Config, s: State, c: C.Step)
    requires Parts(cfg, s) && UpInv(cfg, s) && DownInv(cfg, s) && ConsumedInv(s) && Enabled(cfg, s, ClientStep(c))
    requires |AfterClient(cfg, s, c).cl.roster| <= TWO_64 && s.got < |s.sv.wire|
    requires AfterClient(cfg, s, c).got > s.got || AfterClient(cfg, s, c).cl.input.Routed?
    ensures s.sv.wire[s.got].seqno !in AfterClient(cfg, s, c).cl.table.pending
  {
    ReadIsConsumed(cfg, s, c);
    if c != C.Input(C.Route) {
      StaysConsumed(cfg, s, c, s.got);
    }
  }

  lemma ConsumedFrame(cfg: Config, s: State, t: State)
    requires ConsumedInv(s) && DownInv(cfg, t) && t.sv == s.sv && s.got <= t.got <= s.got + 1
    requires t.cl.input.Routed? ==> t.got == s.got
    requires forall k :: 0 <= k < |s.sv.wire| && s.sv.wire[k].seqno !in s.cl.table.pending ==>
      s.sv.wire[k].seqno !in t.cl.table.pending
    requires (t.got > s.got || t.cl.input.Routed?) && s.got < |s.sv.wire| ==> s.sv.wire[s.got].seqno !in t.cl.table.pending
    ensures ConsumedInv(t)
  {}

  lemma ClientKeepsConsumed(cfg: Config, s: State, t: State, c: C.Step)
    requires Parts(cfg, s) && UpInv(cfg, s) && DownInv(cfg, s) && ConsumedInv(s) && Enabled(cfg, s, ClientStep(c))
    requires t == AfterClient(cfg, s, c) && |t.cl.roster| <= TWO_64 && DownInv(cfg, t)
    ensures ConsumedInv(t)
  {
    GotGrows(cfg, s, c);
    if (t.got > s.got || t.cl.input.Routed?) && s.got < |s.sv.wire| {
      CurrentConsumed(cfg, s, c);
    }
    forall k | 0 <= k < |s.sv.wire| && s.sv.wire[k].seqno !in s.cl.table.pending
      ensures s.sv.wire[k].seqno !in t.cl.table.pending
    {
      StaysConsumed(cfg, s, c, k);
    }
    ConsumedFrame(cfg, s, t);
  }

  lemma ClientKeepsInv(cfg: Config, s: State, c: C.Step)
    requires Sound(cfg) && Inv(cfg, s) && Enabled(cfg, s, ClientStep(c))
    requires |AfterClient(cfg, s, c).cl.roster| <= TWO_64
    ensures Inv(cfg, AfterClient(cfg, s, c))
  {
    var t := AfterClient(cfg, s, c);
    C.StepKeepsInv(CC(cfg), s.cl, c);
    ClientKeepsUp(cfg, s, c);
    ClientKeepsDown(cfg, s, c);
    ClientGrows(CC(cfg), s.cl, c);
    ClientKeepsResults(cfg, s, t, c);
    ClientKeepsRouted(CC(cfg), s.cl, c);
    ClientKeepsCompleting(cfg, s, c);
    ClientKeepsConsumed(cfg, s, t, c);
  }

  // ---------------------------------------------------------------- server steps

  lemma ServerKeepsDown(cfg: Config, s: State, t: State)
    requires DownInv(cfg, s) && t.cl == s.cl && t.clientPos == s.clientPos && t.got == s.got
    requires s.sv.wire <= t.sv.wire && s.sv.out <= t.sv.out
    ensures DownInv(cfg, t)
  {
    assert t.sv.wire[..s.got] == s.sv.wire[..s.got];
  }

  lemma ServerKeepsResults(s: State, t: State)
    requires ResultsInv(s) && t.cl == s.cl && ServerGrown(s.sv, t.sv)
    ensures ResultsInv(t)
  {
    forall c, o | Delivered(s, c, o) ensures Delivered(t, c, o) {
      DeliveredGrows(s, t, c, o);
    }
  }

  lemma RequestHeaderRead(cfg: Config, s: State, t: State, h: Header)
    requires UpInv(cfg, s) && s.sv.loop.ReadingHeader? && |s.sv.jobs| < |s.cl.wire|
    requires h == HeaderSeen(cfg.json, s.cl.wire[|s.sv.jobs|]) && h.error == []
    requires t.cl == s.cl && t.sv.jobs == s.sv.jobs && t.sv.req == h
    requires t.serverPos == s.serverPos + HEADER_LEN <= |s.cl.out|
    requires t.sv.loop == S.ReadingPayload(h.seqno, h.service) || t.sv.loop.Closed?
    ensures UpInv(cfg, t)
  {}

  /** The next header on the wire is the next message's. */
  lemma HeaderIsNext(json: JsonCodec, ms: seq<Message>, n: nat, out: seq<byte>, p: nat, h: Header)
    requires Readable(json, ms, out) && n <= |ms| && p == |Stream(json, ms[..n])| && p + HEADER_LEN <= |out|
    requires h == ParseHeader(out[p..p + HEADER_LEN])
    ensures n < |ms| && h == HeaderSeen(json, ms[n])
  {
    HeaderInStream(json, ms, n, out, p);
  }

  lemma NoErrorSeen(json: JsonCodec, m: Message)
    requires m.error == []
    ensures HeaderSeen(json, m).error == []
  {}

  lemma ReadHeaderKeepsUp(cfg: Config, s: State, h: Header)
    requires Readable(cfg.json, s.cl.wire, s.cl.out) && UpInv(cfg, s)
    requires forall k :: 0 <= k < |s.cl.wire| ==> s.cl.wire[k].error == []
    requires Enabled(cfg, s, ServerStep(S.Loop(S.ReadHeader(h))))
    ensures UpInv(cfg, AfterServer(cfg, s, S.Loop(S.ReadHeader(h))))
  {
    HeaderIsNext(cfg.json, s.cl.wire, |s.sv.jobs|, s.cl.out, s.serverPos, h);
    NoErrorSeen(cfg.json, s.cl.wire[|s.sv.jobs|]);
    RequestHeaderRead(cfg, s, AfterServer(cfg, s, S.Loop(S.ReadHeader(h))), h);
  }

  lemma PayloadIsNext(cfg: Config, s: State)
    requires Lawful(cfg.json) && Readable(cfg.json, s.cl.wire, s.cl.out) && UpInv(cfg, s) && s.sv.loop.ReadingPayload?
    ensures
      var p, n := ServerPayload(cfg, s), |s.sv.jobs|;
      p.Payload? ==>
        && p.body == s.cl.wire[n].body && p.block == SentBlock(s.cl.wire[n].body, s.cl.wire[n].block)
        && s.serverPos + p.used == |Stream(cfg.json, s.cl.wire[..n + 1])|
  {
    PayloadInStream(cfg.json, s.cl.wire, |s.sv.jobs|, s.cl.out, s.serverPos, true);
  }

  lemma DispatchKeepsUp(cfg: Config, s: State, t: State, b: S.Job)
    requires UpInv(cfg, s) && t.cl == s.cl && t.sv.jobs == s.sv.jobs + [b] && t.sv.loop.ReadingHeader?
    requires |s.sv.jobs| < |s.cl.wire| && Serves(b, s.cl.wire[|s.sv.jobs|])
    requires t.serverPos == |Stream(cfg.json, s.cl.wire[..|s.sv.jobs| + 1])|
    ensures UpInv(cfg, t)
  {
    forall i | 0 <= i < |t.sv.jobs| ensures Serves(t.sv.jobs[i], t.cl.wire[i]) {
      if i < |s.sv.jobs| {
        assert Serves(s.sv.jobs[i], s.cl.wire[i]);
      }
    }
  }

  lemma ReadPayloadKeepsUp(cfg: Config, s: State, body: Option<Json>, block: seq<byte>)
    requires Lawful(cfg.json) && Readable(cfg.json, s.cl.wire, s.cl.out) && UpInv(cfg, s)
    requires Enabled(cfg, s, ServerStep(S.Loop(S.ReadPayload(body, block))))
    ensures UpInv(cfg, AfterServer(cfg, s, S.Loop(S.ReadPayload(body, block))))
  {
    PayloadIsNext(cfg, s);
    var t := AfterServer(cfg, s, S.Loop(S.ReadPayload(body, block)));
    DispatchKeepsUp(cfg, s, t, t.sv.jobs[|s.sv.jobs|]);
  }

  lemma WorkKeepsUp(cfg: Config, s: State, t: State)
    requires UpInv(cfg, s) && t.cl == s.cl && t.serverPos == s.serverPos
    requires |t.sv.jobs| == |s.sv.jobs| && t.sv.req == s.sv.req && (t.sv.loop == s.sv.loop || t.sv.loop.Closed?)
    requires forall i :: 0 <= i < |s.sv.jobs| ==> SameJob(s.sv.jobs[i], t.sv.jobs[i])
    ensures UpInv(cfg, t)
  {
    forall i | 0 <= i < |t.sv.jobs| ensures Serves(t.sv.jobs[i], t.cl.wire[i]) {
      assert Serves(s.sv.jobs[i], s.cl.wire[i]) && SameJob(s.sv.jobs[i], t.sv.jobs[i]);
    }
  }

  lemma OtherKeepsUp(cfg: Config, s: State, v: S.Step)
    requires S.JobsInv(SC(cfg), s.sv) && UpInv(cfg, s) && Enabled(cfg, s, ServerStep(v))
    requires v.Work? || v.l.ReadFail?
    ensures UpInv(cfg, AfterServer(cfg, s, v))
  {
    ServerGrows(SC(cfg), s.sv, v);
    WorkKeepsUp(cfg, s, AfterServer(cfg, s, v));
  }

  lemma ServerKeepsUp(cfg: Config, s: State, v: S.Step)
    requires Sound(cfg) && Parts(cfg, s) && UpInv(cfg, s) && Enabled(cfg, s, ServerStep(v))
    ensures UpInv(cfg, AfterServer(cfg, s, v))
  {
    RequestsReadable(cfg, s);
    match v
    case Loop(ReadHeader(h)) => ReadHeaderKeepsUp(cfg, s, h);
    case Loop(ReadPayload(body, block)) => ReadPayloadKeepsUp(cfg, s, body, block);
    case Loop(ReadFail) => OtherKeepsUp(cfg, s, v);
    case Work(_, _) => OtherKeepsUp(cfg, s, v);
  }

  lemma ServerKeepsInv(cfg: Config, s: State, v: S.Step)
    requires Sound(cfg) && Inv(cfg, s) && Enabled(cfg, s, ServerStep(v))
    ensures Inv(cfg, AfterServer(cfg, s, v))
  {
    S.StepKeepsInv(SC(cfg), s.sv, v);
    ServerGrows(SC(cfg), s.sv, v);
    ServerKeepsUp(cfg, s, v);
    ServerKeepsDown(cfg, s, AfterServer(cfg, s, v));
    ServerKeepsResults(s, AfterServer(cfg, s, v));
  }

  // ---------------------------------------------------------------- runs

  ghost predicate Next(cfg: Config, s: State, t: State) {
    exists st :: Enabled(cfg, s, st) && t == Apply(cfg, s, st)
  }

  ghost predicate IsRun(cfg: Config, run: seq<State>) {
    && run != []
    && run[0] == Init(cfg)
    && forall i :: 0 <= i < |run| - 1 ==> Next(cfg, run[i], run[i + 1])
  }

  lemma RosterGrows(cfg: Config, s: State, t: State)
    requires Next(cfg, s, t)
    ensures |s.cl.roster| <= |t.cl.roster|
  {
    var st :| Enabled(cfg, s, st) && t == Apply(cfg, s, st);
    if st.ClientStep? {
      assert t.cl == C.Apply(CC(cfg), s.cl, st.c);
      assert C.Next(CC(cfg), s.cl, t.cl);
      C.RosterGrows(CC(cfg), s.cl, t.cl);
    }
  }

  lemma NextKeepsInv(cfg: Config, s: State, t: State)
    requires Sound(cfg) && Inv(cfg, s) && Next(cfg, s, t) && |t.cl.roster| <= TWO_64
    ensures Inv(cfg, t)
  {
    var st :| Enabled(cfg, s, st) && t == Apply(cfg, s, st);
    match st
    case ClientStep(c) => ClientKeepsInv(cfg, s, c);
    case ServerStep(v) => ServerKeepsInv(cfg, s, v);
  }

  lemma {:induction false} RunInv(cfg: Config, run: seq<State>)
    requires Sound(cfg) && IsRun(cfg, run) && |run[|run| - 1].cl.roster| <= TWO_64
    ensures Inv(cfg, run[|run| - 1])
    decreases |run|
  {
    if |run| == 1 {
      InitInv(cfg);
    } else {
      var before := run[..|run| - 1];
      forall i | 0 <= i < |before| - 1 ensures Next(cfg, before[i], before[i + 1]) {
        assert Next(cfg, run[i], run[i + 1]);
      }
      var s, t := run[|run| - 2], run[|run| - 2 + 1];
      assert Next(cfg, s, t);
      RosterGrows(cfg, s, t);
      RunInv(cfg, before);
      NextKeepsInv(cfg, s, t);
    }
  }

  // ---------------------------------------------------------------- end to end

  /** Job `i` is the one execution of call `c`: no other job runs for it, and it got the call's
      service (as 16 bytes show it), body and block. */
  ghost predicate RanFor(cfg: Config, s: State, i: nat, c: nat) {
    && i < |s.sv.jobs| && |s.sv.jobs| <= |s.cl.wireCalls| && c < |cfg.calls|
    && s.cl.wireCalls[i] == c
    && (forall k :: 0 <= k < |s.sv.jobs| && s.cl.wireCalls[k] == c ==> k == i)
    && s.sv.jobs[i].service == Project(cfg.calls[c].service, 16)
    && s.sv.jobs[i].body == cfg.calls[c].body
    && s.sv.jobs[i].block == SentBlock(cfg.calls[c].body, cfg.calls[c].block)
  }

  lemma JobRanFor(cfg: Config, s: State, i: nat)
    requires Inv(cfg, s) && i < |s.sv.jobs|
    ensures i < |s.cl.wireCalls| && RanFor(cfg, s, i, s.cl.wireCalls[i])
  {
    assert Serves(s.sv.jobs[i], s.cl.wire[i]);
    assert C.WireCall(CC(cfg), s.cl, i);
  }

  /** In every run, a call completed by a reply got exactly what the handler returned when it ran,
      once, for that same call's service, body and block. */
  lemma ReplyMatchesRequest(cfg: Config, run: seq<State>, c: nat, k: nat)
    requires Sound(cfg) && IsRun(cfg, run) && |run[|run| - 1].cl.roster| <= TWO_64
    requires c < |run[|run| - 1].cl.results| && k < |run[|run| - 1].cl.results[c]|
    requires FromServer(run[|run| - 1].cl.results[c][k])
    ensures
      var s := run[|run| - 1];
      exists i: nat :: RanFor(cfg, s, i, c) && s.sv.jobs[i].result.Some? && s.cl.results[c][k] == Seen(s.sv.jobs[i].result.value)
  {
    RunInv(cfg, run);
    var s := run[|run| - 1];
    assert Delivered(s, c, s.cl.results[c][k]);
    var i :| 0 <= i < |s.sv.jobs| && i < |s.cl.wireCalls| && s.cl.wireCalls[i] == c
      && s.sv.jobs[i].result.Some? && s.cl.results[c][k] == Seen(s.sv.jobs[i].result.value);
    JobRanFor(cfg, s, i);
  }

  /** No call runs twice on the server, and the server runs nothing that was not called. */
  lemma AtMostOneExecution(cfg: Config, run: seq<State>)
    requires Sound(cfg) && IsRun(cfg, run) && |run[|run| - 1].cl.roster| <= TWO_64
    ensures
      var s := run[|run| - 1];
      forall i :: 0 <= i < |s.sv.jobs| ==> i < |s.cl.wireCalls| && RanFor(cfg, s, i, s.cl.wireCalls[i])
  {
    RunInv(cfg, run);
    var s := run[|run| - 1];
    forall i | 0 <= i < |s.sv.jobs| ensures i < |s.cl.wireCalls| && RanFor(cfg, s, i, s.cl.wireCalls[i]) {
      JobRanFor(cfg, s, i);
    }
  }

  /** Nothing gets lost on the way back: once the client has read every response, each call whose
      response went out whole has its one completion, unless its own `send` failed and is about
      to complete it. */
  lemma AnsweredWhenQuiet(cfg: Config, run: seq<State>, i: nat)
    requires Sound(cfg) && IsRun(cfg, run) && |run[|run| - 1].cl.roster| <= TWO_64
    requires
      var s := run[|run| - 1];
      s.cl.input.ReadingHeader? && s.got == |s.sv.wire| && i < |s.sv.jobs| && s.sv.jobs[i].pc == S.Sent(S.Whole)
    ensures
      var s := run[|run| - 1];
      && C.Shape(CC(cfg), s.cl)
      && i < |s.cl.wireCalls| && s.cl.wireCalls[i] < |cfg.calls|
      && var c := s.cl.wireCalls[i];
         |s.cl.results[c]| == if s.cl.pc[c] == C.Removed(Some(c)) then 0 else 1
  {
    RunInv(cfg, run);
    QuietState(cfg, run[|run| - 1], i);
  }

  lemma QuietState(cfg: Config, s: State, i: nat)
    requires Inv(cfg, s) && s.cl.input.ReadingHeader? && s.got == |s.sv.wire|
    requires i < |s.sv.jobs| && s.sv.jobs[i].pc == S.Sent(S.Whole)
    ensures i < |s.cl.wireCalls| && s.cl.wireCalls[i] < |s.cl.pc|
    ensures
      var c := s.cl.wireCalls[i];
      |s.cl.results[c]| == if s.cl.pc[c] == C.Removed(Some(c)) then 0 else 1
  {
    assert i in s.sv.wireJobs;
    var k :| 0 <= k < |s.sv.wireJobs| && s.sv.wireJobs[k] == i;
    assert S.Answer(SC(cfg), s.sv, k);
    assert Serves(s.sv.jobs[i], s.cl.wire[i]);
    assert C.WireCall(CC(cfg), s.cl, i);
    var c := s.cl.wireCalls[i];
    assert C.Tokens(s.cl, c) == C.Due(s.cl.pc[c]);
    assert s.cl.seqOf[c] == Some(s.sv.wire[k].seqno);
  }
}
