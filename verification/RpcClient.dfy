/** The client side of one connection: any number of senders, the `input` loop, Close and the
    callers' receives, interleaved in any order. The peer is arbitrary here: a header read may
    return any header, and any read or write may fail. */
module RpcClient {
  import opened Bytes
  import opened Framing

  // ---------------------------------------------------------------- state

  /** The arguments of a call; a call is named by its index in `Config.calls`. */
  datatype Call = Call(service: seq<byte>, body: Option<Json>, block: seq<byte>)

  datatype Config = Config(json: JsonCodec, calls: seq<Call>)

  datatype Outcome =
    | Reply(body: Option<Json>, block: seq<byte>)
    | ServerError(text: seq<byte>)
    | WriteFailed
    | ReadFailed
    | ErrShutdown

  /** Where a goroutine inside `send` stands. From Locked to Leaving it holds reqMutex. */
  datatype SendPc =
    | Idle                                     // send not called yet
    | Waiting                                  // at reqMutex.Lock
    | Locked                                   // about to look at shutdown and closing
    | Rejected                                 // Error = ErrShutdown, about to call done
    | Registered(seqno: nat)                   // in pending, about to fill client.request
    | Filled(seqno: nat)                       // about to encode from client.request
    | Writing(seqno: nat, rest: seq<seq<byte>>)
    | Failed(seqno: nat)                       // WriteRequest returned an error
    | Removed(taken: Option<nat>)              // entry deleted, about to call done if it was there
    | Leaving                                  // about to unlock reqMutex
    | Returned

  /** Where the `input` goroutine stands. */
  datatype InputPc =
    | ReadingHeader
    | GotHeader(header: Header)
    | Routed(header: Header, to: Option<nat>)
    | Completing(call: nat, outcome: Outcome, failed: bool)
    | Stopping                                 // err != nil, at reqMutex.Lock
    | StopLocked                               // holds reqMutex, at mutex.Lock
    | Draining(todo: set<nat>)                 // holds both, entries still to complete
    | Unlocking                                // mutex released, reqMutex not yet
    | Stopped

  datatype Owner = Sender(call: nat) | InputLoop

  /** The fields guarded by `mutex`. */
  datatype Table = Table(pending: map<nat, nat>, seqno: nat, closing: bool, shutdown: bool)

  datatype State = State(
    pc: seq<SendPc>,
    seqOf: seq<Option<nat>>,       // the sequence number a call was registered under
    table: Table,
    roster: seq<nat>,              // the calls registered so far, in order
    reqLock: Option<Owner>,
    input: InputPc,
    request: Header,               // client.request, shared by all senders
    wire: seq<Message>,            // the requests whose frames were begun, in order
    wireCalls: seq<nat>,           // the calls they belong to
    out: seq<byte>,                // every byte accepted by Write
    broken: bool,                  // a Write failed
    results: seq<seq<Outcome>>,    // the outcomes each call was completed with
    buffered: seq<nat>,            // how full each call's Done channel is
    discarded: nat)                // how often done() found the channel full

  function Init(cfg: Config): State {
    var n := |cfg.calls|;
    State(seq(n, _ => Idle), seq(n, _ => None), Table(map[], 0, false, false), [], None, ReadingHeader,
          Header(0, [], 0, []), [], [], [], false, seq(n, _ => []), seq(n, _ => 0), 0)
  }

  // ---------------------------------------------------------------- the sections under `mutex`

  function RegisterIn(t: Table, call: nat): Table {
    t.(pending := t.pending[t.seqno := call], seqno := (t.seqno + 1) % TWO_64)
  }

  function Lookup(t: Table, seqno: nat): Option<nat> {
    if seqno in t.pending then Some(t.pending[seqno]) else None
  }

  function DeleteIn(t: Table, seqno: nat): Table {
    t.(pending := t.pending - {seqno})
  }

  // ---------------------------------------------------------------- steps

  /** Entering and leaving `send`. */
  datatype AdmitStep = Start | Lock | Register | Refuse | Unlock

  /** Writing the request, and undoing the registration when that fails after `n` more bytes. */
  datatype WriteStep = Fill | Encode | Write | WriteFail(n: nat) | Remove | FailDone

  /** One turn of the `input` loop. */
  datatype ReadStep =
    | ReadHeader(h: Header) | ReadError | Route | TakeError
    | ReadBody(body: Option<Json>, block: seq<byte>) | BodyError | Complete

  /** The end of `input`, Close, and a caller receiving from its Done channel. */
  datatype StopStep = StopLock | StopMark | DrainOne(q: nat) | DrainEnd | StopUnlock | Close | Receive(r: nat)

  datatype Step = Admit(c: nat, a: AdmitStep) | Transmit(c: nat, w: WriteStep) | Input(i: ReadStep) | Shut(z: StopStep)

  /** Only the drain keeps `mutex` across steps; every other section under it is one step. */
  predicate MutexFree(s: State) {
    !s.input.Draining?
  }

  /** call.done(): a non-blocking send on a channel of capacity 1. */
  function Done(s: State, c: nat, o: Outcome): State
    requires c < |s.results| && c < |s.buffered|
  {
    var t := s.(results := s.results[c := s.results[c] + [o]]);
    if s.buffered[c] < 1 then t.(buffered := s.buffered[c := s.buffered[c] + 1])
    else t.(discarded := s.discarded + 1)
  }

  function At(s: State, c: nat, p: SendPc): State
    requires c < |s.pc|
  {
    s.(pc := s.pc[c := p])
  }

  function RequestOf(cfg: Config, c: nat, q: nat): Message
    requires c < |cfg.calls|
  {
    Message(q, cfg.calls[c].service, [], cfg.calls[c].body, cfg.calls[c].block)
  }

  /** The message WriteRequest encodes: header fields from client.request, payload from the call. */
  function Encoded(cfg: Config, s: State, c: nat): Message
    requires c < |cfg.calls|
  {
    Message(s.request.seqno, s.request.service, s.request.error, cfg.calls[c].body, cfg.calls[c].block)
  }

  predicate Shape(cfg: Config, s: State) {
    |s.pc| == |s.seqOf| == |s.results| == |s.buffered| == |cfg.calls|
  }

  predicate CanAdmit(s: State, c: nat, a: AdmitStep) {
    c < |s.pc| &&
    match a
    case Start => s.pc[c].Idle?
    case Lock => s.pc[c].Waiting? && s.reqLock.None?
    case Register => s.pc[c].Locked? && MutexFree(s)
    case Refuse => s.pc[c].Rejected?
    case Unlock => s.pc[c].Leaving?
  }

  function DoAdmit(cfg: Config, s: State, c: nat, a: AdmitStep): (t: State)
    requires Shape(cfg, s) && CanAdmit(s, c, a)
    ensures Shape(cfg, t)
  {
    match a
    case Start => At(s, c, Waiting)
    case Lock => At(s, c, Locked).(reqLock := Some(Sender(c)))
    case Register =>
      if s.table.shutdown || s.table.closing then At(s, c, Rejected)
      else
        var q := s.table.seqno;
        At(s, c, Registered(q)).(table := RegisterIn(s.table, c),
                                 seqOf := s.seqOf[c := Some(q)], roster := s.roster + [c])
    case Refuse => At(Done(s, c, ErrShutdown), c, Leaving)
    case Unlock => At(s, c, Returned).(reqLock := None)
  }

  predicate CanTransmit(s: State, c: nat, w: WriteStep) {
    c < |s.pc| &&
    match w
    case Fill => s.pc[c].Registered?
    case Encode => s.pc[c].Filled?
    case Write => s.pc[c].Writing? && s.pc[c].rest != []
    case WriteFail(n) => s.pc[c].Writing? && s.pc[c].rest != [] && n <= |s.pc[c].rest[0]|
    case Remove => s.pc[c].Failed? && MutexFree(s)
    case FailDone => s.pc[c].Removed? && (s.pc[c].taken.Some? ==> s.pc[c].taken.value < |s.pc|)
  }

  function DoTransmit(cfg: Config, s: State, c: nat, w: WriteStep): (t: State)
    requires Shape(cfg, s) && CanTransmit(s, c, w)
    ensures Shape(cfg, t)
  {
    match w
    case Fill =>
      At(s, c, Filled(s.pc[c].seqno)).(request := Header(s.pc[c].seqno, cfg.calls[c].service, 0, []))
    case Encode =>
      // client.request ends up as the frame's header; after a failed Write the next one fails at once
      var m := Encoded(cfg, s, c);
      var t := s.(request := HeaderOf(cfg.json, m));
      if Chunks(cfg.json, m).None? || s.broken then At(t, c, Failed(s.pc[c].seqno))
      else At(t, c, Writing(s.pc[c].seqno, Chunks(cfg.json, m).value))
             .(wire := s.wire + [m], wireCalls := s.wireCalls + [c])
    case Write =>
      var rest := s.pc[c].rest;
      At(s, c, if |rest| == 1 then Leaving else Writing(s.pc[c].seqno, rest[1..])).(out := s.out + rest[0])
    case WriteFail(n) =>
      At(s, c, Failed(s.pc[c].seqno)).(out := s.out + s.pc[c].rest[0][..n], broken := true)
    case Remove =>
      var q := s.pc[c].seqno;
      At(s, c, Removed(Lookup(s.table, q))).(table := DeleteIn(s.table, q))
    case FailDone =>
      At(if s.pc[c].taken.Some? then Done(s, s.pc[c].taken.value, WriteFailed) else s, c, Leaving)
  }

  predicate CanInput(s: State, i: ReadStep) {
    match i
    case ReadHeader(h) => s.input.ReadingHeader?
    case ReadError => s.input.ReadingHeader?
    case Route => s.input.GotHeader?
    case TakeError => s.input.Routed? && s.input.to.Some? && s.input.header.error != []
    case ReadBody(_, _) => s.input.Routed? && (s.input.to.Some? ==> s.input.header.error == [])
    case BodyError => s.input.Routed? && (s.input.to.Some? ==> s.input.header.error == [])
    case Complete => s.input.Completing? && s.input.call < |s.pc|
  }

  function DoInput(cfg: Config, s: State, i: ReadStep): (t: State)
    requires Shape(cfg, s) && CanInput(s, i)
    ensures Shape(cfg, t)
  {
    match i
    case ReadHeader(h) => s.(input := GotHeader(h))
    case ReadError => s.(input := Stopping)
    case Route =>
      var h := s.input.header;
      s.(input := Routed(h, Lookup(s.table, h.seqno)), table := DeleteIn(s.table, h.seqno))
    case TakeError => s.(input := Completing(s.input.to.value, ServerError(s.input.header.error), false))
    case ReadBody(body, block) =>
      s.(input := if s.input.to.None? then ReadingHeader
                  else Completing(s.input.to.value, Reply(body, block), false))
    case BodyError =>
      s.(input := if s.input.to.None? then Stopping else Completing(s.input.to.value, ReadFailed, true))
    case Complete =>
      Done(s, s.input.call, s.input.outcome).(input := if s.input.failed then Stopping else ReadingHeader)
  }

  predicate CanShut(s: State, z: StopStep) {
    match z
    case StopLock => s.input.Stopping? && s.reqLock.None?
    case StopMark => s.input.StopLocked?
    case DrainOne(q) => s.input.Draining? && q in s.input.todo && q in s.table.pending && s.table.pending[q] < |s.pc|
    case DrainEnd => s.input.Draining? && s.input.todo == {}
    case StopUnlock => s.input.Unlocking?
    case Close => MutexFree(s)
    case Receive(r) => r < |s.buffered| && s.buffered[r] > 0
  }

  function DoShut(cfg: Config, s: State, z: StopStep): (t: State)
    requires Shape(cfg, s) && CanShut(s, z)
    ensures Shape(cfg, t)
  {
    match z
    case StopLock => s.(input := StopLocked, reqLock := Some(InputLoop))
    case StopMark => s.(input := Draining(s.table.pending.Keys), table := s.table.(shutdown := true))
    case DrainOne(q) => Done(s, s.table.pending[q], ReadFailed).(input := Draining(s.input.todo - {q}))
    case DrainEnd => s.(input := Unlocking)
    case StopUnlock => s.(input := Stopped, reqLock := None)
    case Close => s.(table := s.table.(closing := true))
    case Receive(r) => s.(buffered := s.buffered[r := s.buffered[r] - 1])
  }

  predicate Enabled(s: State, st: Step) {
    match st
    case Admit(c, a) => CanAdmit(s, c, a)
    case Transmit(c, w) => CanTransmit(s, c, w)
    case Input(i) => CanInput(s, i)
    case Shut(z) => CanShut(s, z)
  }

  function Apply(cfg: Config, s: State, st: Step): (t: State)
    requires Shape(cfg, s) && Enabled(s, st)
    ensures Shape(cfg, t)
  {
    match st
    case Admit(c, a) => DoAdmit(cfg, s, c, a)
    case Transmit(c, w) => DoTransmit(cfg, s, c, w)
    case Input(i) => DoInput(cfg, s, i)
    case Shut(z) => DoShut(cfg, s, z)
  }

  // ---------------------------------------------------------------- the completion token

  predicate Holds(p: SendPc) {
    p.Locked? || p.Rejected? || p.Registered? || p.Filled? || p.Writing? || p.Failed? || p.Removed? || p.Leaving?
  }

  predicate InputHolds(i: InputPc) {
    i.StopLocked? || i.Draining? || i.Unlocking?
  }

  predicate Late(i: InputPc) {
    i.Draining? || i.Unlocking? || i.Stopped?
  }

  /** The entries of `pending` that are still going to be completed. */
  function Live(s: State): set<nat> {
    match s.input
    case Draining(todo) => todo
    case Unlocking => {}
    case Stopped => {}
    case _ => s.table.pending.Keys
  }

  predicate IsPending(s: State, c: nat)
    requires c < |s.seqOf|
  {
    s.seqOf[c].Some? && s.seqOf[c].value in Live(s)
  }

  predicate HeldByInput(s: State, c: nat) {
    (s.input.Routed? && s.input.to == Some(c)) || (s.input.Completing? && s.input.call == c)
  }

  predicate HeldBySender(s: State, c: nat)
    requires c < |s.pc|
  {
    s.pc[c].Rejected? || s.pc[c] == Removed(Some(c))
  }

  /** Everybody who owes call `c` a completion, plus the completions it has had. */
  function Tokens(s: State, c: nat): nat
    requires c < |s.pc| && c < |s.seqOf| && c < |s.results|
  {
    One(IsPending(s, c)) + One(HeldByInput(s, c)) + One(HeldBySender(s, c)) + |s.results[c]|
  }

  /** How many completions `send` owes a call at this point: one, once the call got past the lock. */
  function Due(p: SendPc): nat {
    if p.Idle? || p.Waiting? || p.Locked? then 0 else 1
  }

  predicate Numbered(p: SendPc) {
    p.Registered? || p.Filled? || p.Writing? || p.Failed?
  }

  ghost predicate SeqInv(s: State)
    requires |s.pc| == |s.seqOf|
  {
    && |s.roster| <= TWO_64
    && s.table.seqno == |s.roster| % TWO_64
    && (forall c :: 0 <= c < |s.pc| && s.seqOf[c].Some? ==>
          s.seqOf[c].value < |s.roster| && s.roster[s.seqOf[c].value] == c)
    && (forall c :: 0 <= c < |s.pc| && Numbered(s.pc[c]) ==> s.seqOf[c] == Some(s.pc[c].seqno))
    && (forall c :: 0 <= c < |s.pc| && (s.pc[c].Rejected? || Due(s.pc[c]) == 0) ==> s.seqOf[c].None?)
    && (forall q :: q in s.table.pending ==> s.table.pending[q] < |s.pc| && s.seqOf[s.table.pending[q]] == Some(q))
  }

  ghost predicate LockInv(s: State) {
    && (forall c :: 0 <= c < |s.pc| ==> (Holds(s.pc[c]) <==> s.reqLock == Some(Sender(c))))
    && (InputHolds(s.input) <==> s.reqLock == Some(InputLoop))
    && (s.table.shutdown <==> Late(s.input))
    && (s.input.Draining? ==> s.input.todo <= s.table.pending.Keys)
    && (forall c :: 0 <= c < |s.pc| && s.pc[c].Removed? && s.pc[c].taken.Some? ==> s.pc[c].taken.value == c)
    && (forall c :: 0 <= c < |s.pc| && s.pc[c].Writing? ==> s.pc[c].rest != [])
    && (s.reqLock.Some? && s.reqLock.value.Sender? ==> s.reqLock.value.call < |s.pc|)
    && (s.input.Routed? && s.input.to.Some? ==> s.input.to.value < |s.pc|)
    && (s.input.Completing? ==> s.input.call < |s.pc|)
    && (Late(s.input) ==> forall c :: 0 <= c < |s.pc| ==> !Numbered(s.pc[c]) && !s.pc[c].Removed?)
  }

  ghost predicate TokenInv(s: State)
    requires |s.pc| == |s.seqOf| == |s.results|
  {
    forall c :: 0 <= c < |s.pc| ==> Tokens(s, c) == Due(s.pc[c])
  }

  ghost predicate ChannelInv(s: State)
    requires |s.results| == |s.buffered|
  {
    s.discarded == 0 && forall c :: 0 <= c < |s.results| ==> s.buffered[c] <= |s.results[c]|
  }

  ghost predicate Inv(cfg: Config, s: State) {
    Shape(cfg, s) && SeqInv(s) && LockInv(s) && TokenInv(s) && ChannelInv(s)
  }

  lemma InitInv(cfg: Config)
    ensures Inv(cfg, Init(cfg))
  {}

  // ---------------------------------------------------------------- what every step keeps

  /** A step that only moves one sender, and perhaps forgets an entry, keeps SeqInv. */
  lemma SeqFrame(s: State, t: State, c: nat, p: SendPc)
    requires |s.pc| == |s.seqOf| && c < |s.pc| && SeqInv(s)
    requires t.pc == s.pc[c := p] && t.seqOf == s.seqOf && t.roster == s.roster
    requires t.table.seqno == s.table.seqno
    requires t.table.pending.Keys <= s.table.pending.Keys
    requires forall q :: q in t.table.pending ==> t.table.pending[q] == s.table.pending[q]
    requires Numbered(p) ==> s.seqOf[c] == Some(p.seqno)
    requires p.Rejected? || Due(p) == 0 ==> s.seqOf[c].None?
    ensures SeqInv(t)
  {}

  lemma RegisterKeepsSeq(cfg: Config, s: State, c: nat)
    requires Shape(cfg, s) && CanAdmit(s, c, Register) && SeqInv(s)
    requires !s.table.shutdown && !s.table.closing && |s.roster| < TWO_64
    ensures SeqInv(DoAdmit(cfg, s, c, Register))
  {
    var t := DoAdmit(cfg, s, c, Register);
    SmallMod(|s.roster|, TWO_64);
    assert |t.roster| < TWO_64 ==> |t.roster| % TWO_64 == |t.roster|;
    assert forall d :: 0 <= d < |s.pc| && d != c ==> t.seqOf[d] == s.seqOf[d] && t.pc[d] == s.pc[d];
  }

  lemma AdmitKeeps(cfg: Config, s: State, c: nat, a: AdmitStep)
    requires Shape(cfg, s) && CanAdmit(s, c, a) && SeqInv(s) && LockInv(s)
    requires |DoAdmit(cfg, s, c, a).roster| <= TWO_64
    ensures SeqInv(DoAdmit(cfg, s, c, a)) && LockInv(DoAdmit(cfg, s, c, a))
  {
    var t := DoAdmit(cfg, s, c, a);
    if t.roster == s.roster {
      SeqFrame(s, t, c, t.pc[c]);
    } else {
      RegisterKeepsSeq(cfg, s, c);
    }
    LockFrame(s, t, c);
  }

  /** Moving one sender keeps LockInv if the lock moves with it. */
  lemma LockFrame(s: State, t: State, c: nat)
    requires c < |s.pc| && LockInv(s)
    requires |t.pc| == |s.pc| && t.pc == s.pc[c := t.pc[c]]
    requires t.input == s.input && t.table.shutdown == s.table.shutdown
    requires s.input.Draining? ==> t.table.pending == s.table.pending
    requires Holds(t.pc[c]) <==> t.reqLock == Some(Sender(c))
    requires t.reqLock == s.reqLock || (s.reqLock in {None, Some(Sender(c))} && t.reqLock in {None, Some(Sender(c))})
    requires t.pc[c].Removed? && t.pc[c].taken.Some? ==> t.pc[c].taken.value == c
    requires t.pc[c].Writing? ==> t.pc[c].rest != []
    requires s.table.shutdown ==> !Numbered(t.pc[c]) && !t.pc[c].Removed?
    ensures LockInv(t)
  {}

  lemma TransmitKeeps(cfg: Config, s: State, c: nat, w: WriteStep)
    requires Shape(cfg, s) && CanTransmit(s, c, w) && SeqInv(s) && LockInv(s)
    ensures SeqInv(DoTransmit(cfg, s, c, w)) && LockInv(DoTransmit(cfg, s, c, w))
  {
    var t := DoTransmit(cfg, s, c, w);
    SeqFrame(s, t, c, t.pc[c]);
    LockFrame(s, t, c);
  }

  lemma InputKeeps(cfg: Config, s: State, i: ReadStep)
    requires Shape(cfg, s) && CanInput(s, i) && SeqInv(s) && LockInv(s)
    ensures SeqInv(DoInput(cfg, s, i)) && LockInv(DoInput(cfg, s, i))
  {
    var t := DoInput(cfg, s, i);
    assert t.pc == s.pc;
  }

  lemma ShutKeepsLock(cfg: Config, s: State, z: StopStep)
    requires Shape(cfg, s) && CanShut(s, z) && LockInv(s)
    ensures LockInv(DoShut(cfg, s, z))
  {
    assert DoShut(cfg, s, z).pc == s.pc;
  }

  lemma ShutFrame(cfg: Config, s: State, z: StopStep)
    requires Shape(cfg, s) && CanShut(s, z)
    ensures var t := DoShut(cfg, s, z);
      && t.pc == s.pc && t.seqOf == s.seqOf && t.roster == s.roster
      && t.table.seqno == s.table.seqno && t.table.pending == s.table.pending
  {}

  lemma SeqSame(s: State, t: State)
    requires |s.pc| == |s.seqOf| && SeqInv(s)
    requires t.pc == s.pc && t.seqOf == s.seqOf && t.roster == s.roster
    requires t.table.seqno == s.table.seqno && t.table.pending == s.table.pending
    ensures SeqInv(t)
  {}

  lemma ShutKeeps(cfg: Config, s: State, z: StopStep)
    requires Shape(cfg, s) && CanShut(s, z) && SeqInv(s) && LockInv(s)
    ensures SeqInv(DoShut(cfg, s, z)) && LockInv(DoShut(cfg, s, z))
  {
    ShutKeepsLock(cfg, s, z);
    ShutFrame(cfg, s, z);
    SeqSame(s, DoShut(cfg, s, z));
  }

  // ---------------------------------------------------------------- the token is conserved

  /** A step that leaves a call's number, results and holders alone keeps its token. */
  lemma TokenFrame(s: State, t: State, d: nat)
    requires |s.pc| == |s.seqOf| == |s.results| == |t.pc| == |t.seqOf| == |t.results| && d < |s.pc|
    requires Tokens(s, d) == Due(s.pc[d])
    requires t.seqOf == s.seqOf && t.input == s.input && t.results[d] == s.results[d]
    requires t.table.pending == s.table.pending
    requires HeldBySender(t, d) == HeldBySender(s, d) && Due(t.pc[d]) == Due(s.pc[d])
    ensures Tokens(t, d) == Due(t.pc[d])
  {}

  lemma RegisterToken(cfg: Config, s: State, c: nat, d: nat)
    requires Shape(cfg, s) && CanAdmit(s, c, Register) && SeqInv(s) && LockInv(s) && d < |s.pc|
    requires Tokens(s, d) == Due(s.pc[d]) && !s.table.shutdown && !s.table.closing && |s.roster| < TWO_64
    ensures var t := DoAdmit(cfg, s, c, Register); Tokens(t, d) == Due(t.pc[d])
  {
    SmallMod(|s.roster|, TWO_64);
  }

  lemma AdmitToken(cfg: Config, s: State, c: nat, a: AdmitStep, d: nat)
    requires Shape(cfg, s) && CanAdmit(s, c, a) && SeqInv(s) && LockInv(s) && d < |s.pc|
    requires Tokens(s, d) == Due(s.pc[d]) && |DoAdmit(cfg, s, c, a).roster| <= TWO_64
    ensures var t := DoAdmit(cfg, s, c, a); Tokens(t, d) == Due(t.pc[d])
  {
    var t := DoAdmit(cfg, s, c, a);
    if a.Register? && !s.table.shutdown && !s.table.closing {
      RegisterToken(cfg, s, c, d);
    } else if c != d || a.Start? || a.Lock? || a.Unlock? {
      TokenFrame(s, t, d);
    } else {
      RefuseToken(cfg, s, c, a);
    }
  }

  /** A refused call owes itself the completion it then makes. */
  lemma RefuseToken(cfg: Config, s: State, c: nat, a: AdmitStep)
    requires Shape(cfg, s) && CanAdmit(s, c, a) && Tokens(s, c) == Due(s.pc[c])
    requires a.Refuse? || (a.Register? && (s.table.shutdown || s.table.closing))
    ensures var t := DoAdmit(cfg, s, c, a); Tokens(t, c) == Due(t.pc[c])
  {}

  lemma RemoveToken(cfg: Config, s: State, c: nat, d: nat)
    requires Shape(cfg, s) && CanTransmit(s, c, Remove) && SeqInv(s) && LockInv(s) && d < |s.pc|
    requires Tokens(s, d) == Due(s.pc[d])
    ensures var t := DoTransmit(cfg, s, c, Remove); Tokens(t, d) == Due(t.pc[d])
  {}

  lemma QuietToken(cfg: Config, s: State, c: nat, w: WriteStep, d: nat)
    requires Shape(cfg, s) && CanTransmit(s, c, w) && d < |s.pc|
    requires w.Fill? || w.Encode? || w.Write? || w.WriteFail?
    requires Tokens(s, d) == Due(s.pc[d])
    ensures var t := DoTransmit(cfg, s, c, w); Tokens(t, d) == Due(t.pc[d])
  {
    TokenFrame(s, DoTransmit(cfg, s, c, w), d);
  }

  lemma FailDoneToken(cfg: Config, s: State, c: nat, d: nat)
    requires Shape(cfg, s) && CanTransmit(s, c, FailDone) && LockInv(s) && d < |s.pc|
    requires Tokens(s, d) == Due(s.pc[d])
    ensures var t := DoTransmit(cfg, s, c, FailDone); Tokens(t, d) == Due(t.pc[d])
  {}

  lemma TransmitToken(cfg: Config, s: State, c: nat, w: WriteStep, d: nat)
    requires Shape(cfg, s) && CanTransmit(s, c, w) && SeqInv(s) && LockInv(s) && d < |s.pc|
    requires Tokens(s, d) == Due(s.pc[d])
    ensures var t := DoTransmit(cfg, s, c, w); Tokens(t, d) == Due(t.pc[d])
  {
    match w
    case Remove => RemoveToken(cfg, s, c, d);
    case FailDone => FailDoneToken(cfg, s, c, d);
    case _ => QuietToken(cfg, s, c, w, d);
  }

  lemma InputToken(cfg: Config, s: State, i: ReadStep, d: nat)
    requires Shape(cfg, s) && CanInput(s, i) && SeqInv(s) && LockInv(s) && d < |s.pc|
    requires Tokens(s, d) == Due(s.pc[d])
    ensures var t := DoInput(cfg, s, i); Tokens(t, d) == Due(t.pc[d])
  {}

  lemma ShutToken(cfg: Config, s: State, z: StopStep, d: nat)
    requires Shape(cfg, s) && CanShut(s, z) && SeqInv(s) && LockInv(s) && d < |s.pc|
    requires Tokens(s, d) == Due(s.pc[d])
    ensures var t := DoShut(cfg, s, z); Tokens(t, d) == Due(t.pc[d])
  {
    if z.Close? || z.Receive? {
      TokenFrame(s, DoShut(cfg, s, z), d);
    } else if z.DrainOne? {
      DrainToken(cfg, s, z.q, d);
    }
  }

  lemma DrainToken(cfg: Config, s: State, q: nat, d: nat)
    requires Shape(cfg, s) && CanShut(s, DrainOne(q)) && SeqInv(s) && LockInv(s) && d < |s.pc|
    requires Tokens(s, d) == Due(s.pc[d])
    ensures var t := DoShut(cfg, s, DrainOne(q)); Tokens(t, d) == Due(t.pc[d])
  {
    var c := s.table.pending[q];
    assert s.roster[q] == c;
    assert s.seqOf[d] == Some(q) <==> d == c;
  }

  // ---------------------------------------------------------------- the Done channels

  /** Completing a call that has had no completion finds its channel empty. */
  lemma DoneKeepsChannels(s: State, c: nat, o: Outcome)
    requires |s.results| == |s.buffered| && c < |s.results| && ChannelInv(s) && s.results[c] == []
    ensures ChannelInv(Done(s, c, o))
  {}

  /** The call a step completes. */
  function Completes(s: State, st: Step): Option<nat>
    requires Enabled(s, st)
  {
    match st
    case Admit(c, Refuse) => Some(c)
    case Transmit(c, FailDone) => s.pc[c].taken
    case Input(Complete) => Some(s.input.call)
    case Shut(DrainOne(q)) => Some(s.table.pending[q])
    case _ => None
  }

  /** A step completes only a call that has had no completion yet. */
  lemma CompletesOnce(cfg: Config, s: State, st: Step)
    requires Inv(cfg, s) && Enabled(s, st) && Completes(s, st).Some?
    ensures Completes(s, st).value < |s.results| && s.results[Completes(s, st).value] == []
  {
    var c := Completes(s, st).value;
    assert Tokens(s, c) == Due(s.pc[c]);
  }

  lemma StepKeepsChannels(cfg: Config, s: State, st: Step)
    requires Inv(cfg, s) && Enabled(s, st)
    ensures ChannelInv(Apply(cfg, s, st))
  {
    if Completes(s, st).Some? {
      CompletesOnce(cfg, s, st);
    }
    ChannelStep(cfg, s, st);
  }

  lemma ChannelStep(cfg: Config, s: State, st: Step)
    requires Shape(cfg, s) && ChannelInv(s) && Enabled(s, st)
    requires Completes(s, st).Some? ==> Completes(s, st).value < |s.results| && s.results[Completes(s, st).value] == []
    ensures ChannelInv(Apply(cfg, s, st))
  {
    if Completes(s, st).Some? {
      DoneKeepsChannels(s, Completes(s, st).value, ErrShutdown);
    }
  }

  // ---------------------------------------------------------------- the bytes on the wire

  predicate Past(p: SendPc) {
    p.Writing? || p.Failed? || p.Removed? || p.Leaving? || p.Returned?
  }

  ghost predicate WireCall(cfg: Config, s: State, i: nat)
    requires Shape(cfg, s) && i < |s.wire| == |s.wireCalls|
  {
    var c := s.wireCalls[i];
    && c < |s.pc| && Past(s.pc[c]) && s.seqOf[c].Some?
    && s.wire[i] == RequestOf(cfg, c, s.seqOf[c].value)
    && Chunks(cfg.json, s.wire[i]).Some?
  }

  /** The chunks the sender that holds reqMutex has still to write. */
  function Unwritten(s: State): seq<seq<byte>> {
    if s.reqLock.Some? && s.reqLock.value.Sender? && s.reqLock.value.call < |s.pc| && s.pc[s.reqLock.value.call].Writing?
    then s.pc[s.reqLock.value.call].rest else []
  }

  /** Frames are whole, contiguous and in the order they were begun; only the last may be short. */
  ghost predicate BytesInv(cfg: Config, s: State) {
    Accounted(cfg.json, s.wire, s.out, Unwritten(s), s.broken)
  }

  /** Between filling and encoding, client.request is that of the sender which holds reqMutex. */
  ghost predicate RequestInv(cfg: Config, s: State)
    requires Shape(cfg, s)
  {
    forall c :: 0 <= c < |s.pc| && s.pc[c].Filled? ==> s.request == Header(s.pc[c].seqno, cfg.calls[c].service, 0, [])
  }

  /** Every frame begun belongs to its own call and says what that call asked for. */
  ghost predicate CallsInv(cfg: Config, s: State)
    requires Shape(cfg, s)
  {
    && |s.wire| == |s.wireCalls|
    && (forall i :: 0 <= i < |s.wire| ==> WireCall(cfg, s, i))
    && (forall i, k :: 0 <= i < k < |s.wireCalls| ==> s.wireCalls[i] != s.wireCalls[k])
  }

  ghost predicate WireInv(cfg: Config, s: State) {
    Shape(cfg, s) && CallsInv(cfg, s) && RequestInv(cfg, s) && BytesInv(cfg, s)
  }

  /** A step that begins no frame keeps CallsInv. */
  lemma CallsFrame(cfg: Config, s: State, t: State, c: nat)
    requires Shape(cfg, s) && CallsInv(cfg, s) && Shape(cfg, t)
    requires t.wire == s.wire && t.wireCalls == s.wireCalls
    requires if c < |s.pc| then t.pc == s.pc[c := t.pc[c]] && (Past(t.pc[c]) || !Past(s.pc[c])) else t.pc == s.pc
    requires forall d :: 0 <= d < |s.pc| && s.seqOf[d].Some? ==> t.seqOf[d] == s.seqOf[d]
    ensures CallsInv(cfg, t)
  {
    forall i | 0 <= i < |s.wire| ensures WireCall(cfg, t, i) {
      assert WireCall(cfg, s, i);
    }
  }

  /** Whatever other senders wrote into client.request before, the frame encoded from it is the
      request of the call that is being sent. */
  lemma EncodedIsRequest(cfg: Config, s: State, c: nat)
    requires Shape(cfg, s) && RequestInv(cfg, s) && CanTransmit(s, c, Encode)
    ensures Encoded(cfg, s, c) == RequestOf(cfg, c, s.pc[c].seqno)
  {}

  lemma TransmitKeepsRequest(cfg: Config, s: State, c: nat, w: WriteStep)
    requires Shape(cfg, s) && RequestInv(cfg, s) && LockInv(s) && CanTransmit(s, c, w)
    ensures RequestInv(cfg, DoTransmit(cfg, s, c, w))
  {
    assert Holds(s.pc[c]);
    assert forall d :: 0 <= d < |s.pc| && d != c ==> !Holds(s.pc[d]);
  }

  lemma EncodeBytes(cfg: Config, s: State, c: nat)
    requires Shape(cfg, s) && BytesInv(cfg, s) && CanTransmit(s, c, Encode) && s.reqLock == Some(Sender(c))
    ensures BytesInv(cfg, DoTransmit(cfg, s, c, Encode))
  {
    var t, m := DoTransmit(cfg, s, c, Encode), Encoded(cfg, s, c);
    assert Unwritten(s) == [];
    if Chunks(cfg.json, m).None? || s.broken {
      assert Unwritten(t) == [];
    } else {
      FrameBegun(cfg.json, s.wire, s.out, m);
      assert Unwritten(t) == Chunks(cfg.json, m).value;
    }
  }

  lemma WriteBytes(cfg: Config, s: State, c: nat, w: WriteStep)
    requires Shape(cfg, s) && BytesInv(cfg, s) && CanTransmit(s, c, w) && s.reqLock == Some(Sender(c))
    requires w.Write? || w.WriteFail?
    ensures BytesInv(cfg, DoTransmit(cfg, s, c, w))
  {
    var t, rest := DoTransmit(cfg, s, c, w), s.pc[c].rest;
    assert Unwritten(s) == rest;
    if w.Write? {
      assert Unwritten(t) == rest[1..];
      ChunkWritten(cfg.json, s.wire, s.out, rest);
    } else {
      ChunkCut(cfg.json, s.wire, s.out, rest, w.n);
    }
  }

  lemma TransmitBytes(cfg: Config, s: State, c: nat, w: WriteStep)
    requires Shape(cfg, s) && BytesInv(cfg, s) && LockInv(s) && CanTransmit(s, c, w)
    ensures BytesInv(cfg, DoTransmit(cfg, s, c, w))
  {
    assert Holds(s.pc[c]);
    if w.Encode? {
      EncodeBytes(cfg, s, c);
    } else if w.Write? || w.WriteFail? {
      WriteBytes(cfg, s, c, w);
    } else {
      assert Unwritten(DoTransmit(cfg, s, c, w)) == Unwritten(s);
    }
  }

  lemma EncodeCalls(cfg: Config, s: State, c: nat)
    requires Shape(cfg, s) && CallsInv(cfg, s) && RequestInv(cfg, s) && SeqInv(s) && CanTransmit(s, c, Encode)
    ensures CallsInv(cfg, DoTransmit(cfg, s, c, Encode))
  {
    var t := DoTransmit(cfg, s, c, Encode);
    EncodedIsRequest(cfg, s, c);
    forall i | 0 <= i < |s.wire| ensures WireCall(cfg, t, i) && t.wireCalls[i] != c {
      assert WireCall(cfg, s, i);
    }
  }

  lemma TransmitKeepsWire(cfg: Config, s: State, c: nat, w: WriteStep)
    requires WireInv(cfg, s) && SeqInv(s) && LockInv(s) && CanTransmit(s, c, w)
    ensures WireInv(cfg, DoTransmit(cfg, s, c, w))
  {
    TransmitBytes(cfg, s, c, w);
    TransmitKeepsRequest(cfg, s, c, w);
    if w.Encode? {
      EncodeCalls(cfg, s, c);
    } else {
      CallsFrame(cfg, s, DoTransmit(cfg, s, c, w), c);
    }
  }

  lemma AdmitCalls(cfg: Config, s: State, c: nat, a: AdmitStep)
    requires Shape(cfg, s) && CallsInv(cfg, s) && SeqInv(s) && CanAdmit(s, c, a)
    ensures CallsInv(cfg, DoAdmit(cfg, s, c, a))
  {
    CallsFrame(cfg, s, DoAdmit(cfg, s, c, a), c);
  }

  lemma AdmitBytes(cfg: Config, s: State, c: nat, a: AdmitStep)
    requires Shape(cfg, s) && BytesInv(cfg, s) && LockInv(s) && CanAdmit(s, c, a)
    ensures BytesInv(cfg, DoAdmit(cfg, s, c, a))
  {
    assert Unwritten(DoAdmit(cfg, s, c, a)) == Unwritten(s);
  }

  lemma AdmitKeepsWire(cfg: Config, s: State, c: nat, a: AdmitStep)
    requires WireInv(cfg, s) && SeqInv(s) && LockInv(s) && CanAdmit(s, c, a)
    ensures WireInv(cfg, DoAdmit(cfg, s, c, a))
  {
    AdmitCalls(cfg, s, c, a);
    AdmitBytes(cfg, s, c, a);
  }

  lemma InputKeepsWire(cfg: Config, s: State, t: State)
    requires WireInv(cfg, s) && Shape(cfg, t)
    requires t.pc == s.pc && t.seqOf == s.seqOf && t.wire == s.wire && t.wireCalls == s.wireCalls
    requires t.out == s.out && t.broken == s.broken && t.request == s.request
    requires t.reqLock == s.reqLock || (s.reqLock in {None, Some(InputLoop)} && t.reqLock in {None, Some(InputLoop)})
    ensures WireInv(cfg, t)
  {
    CallsFrame(cfg, s, t, |s.pc|);
    assert Unwritten(t) == Unwritten(s);
  }

  lemma StepKeepsWire(cfg: Config, s: State, st: Step)
    requires WireInv(cfg, s) && SeqInv(s) && LockInv(s) && Enabled(s, st)
    ensures WireInv(cfg, Apply(cfg, s, st))
  {
    match st
    case Admit(c, a) => AdmitKeepsWire(cfg, s, c, a);
    case Transmit(c, w) => TransmitKeepsWire(cfg, s, c, w);
    case Input(i) => InputKeepsWire(cfg, s, DoInput(cfg, s, i));
    case Shut(z) => InputKeepsWire(cfg, s, DoShut(cfg, s, z));
  }

  // ---------------------------------------------------------------- runs

  ghost predicate Next(cfg: Config, s: State, t: State) {
    Shape(cfg, s) && exists st :: Enabled(s, st) && t == Apply(cfg, s, st)
  }

  ghost predicate NextAt(cfg: Config, run: seq<State>, i: nat)
    requires i + 1 < |run|
  {
    Next(cfg, run[i], run[i + 1])
  }

  ghost predicate IsRun(cfg: Config, run: seq<State>) {
    && run != []
    && run[0] == Init(cfg)
    && forall i :: 0 <= i < |run| - 1 ==> NextAt(cfg, run, i)
  }

  lemma StepKeepsInv(cfg: Config, s: State, st: Step)
    requires Inv(cfg, s) && WireInv(cfg, s) && Enabled(s, st)
    requires |Apply(cfg, s, st).roster| <= TWO_64
    ensures Inv(cfg, Apply(cfg, s, st)) && WireInv(cfg, Apply(cfg, s, st))
  {
    var t := Apply(cfg, s, st);
    StepKeepsWire(cfg, s, st);
    StepKeepsChannels(cfg, s, st);
    assert SeqInv(t) && LockInv(t) by {
      match st
      case Admit(c, a) => AdmitKeeps(cfg, s, c, a);
      case Transmit(c, w) => TransmitKeeps(cfg, s, c, w);
      case Input(i) => InputKeeps(cfg, s, i);
      case Shut(z) => ShutKeeps(cfg, s, z);
    }
    forall d | 0 <= d < |t.pc| ensures Tokens(t, d) == Due(t.pc[d]) {
      StepKeepsToken(cfg, s, st, d);
    }
  }

  lemma StepKeepsToken(cfg: Config, s: State, st: Step, d: nat)
    requires Inv(cfg, s) && Enabled(s, st) && d < |s.pc|
    requires |Apply(cfg, s, st).roster| <= TWO_64
    ensures var t := Apply(cfg, s, st); Tokens(t, d) == Due(t.pc[d])
  {
    assert Tokens(s, d) == Due(s.pc[d]);
    match st
    case Admit(c, a) => AdmitToken(cfg, s, c, a, d);
    case Transmit(c, w) => TransmitToken(cfg, s, c, w, d);
    case Input(i) => InputToken(cfg, s, i, d);
    case Shut(z) => ShutToken(cfg, s, z, d);
  }

  lemma RosterGrows(cfg: Config, s: State, t: State)
    requires Next(cfg, s, t)
    ensures |s.roster| <= |t.roster|
  {}

  lemma RunPrefix(cfg: Config, run: seq<State>, k: nat)
    requires IsRun(cfg, run) && k < |run|
    ensures IsRun(cfg, run[..k + 1])
  {
    var before := run[..k + 1];
    forall i | 0 <= i < |before| - 1 ensures NextAt(cfg, before, i) {
      assert NextAt(cfg, run, i);
    }
  }

  lemma NextKeepsInv(cfg: Config, s: State, t: State)
    requires Inv(cfg, s) && WireInv(cfg, s) && Next(cfg, s, t) && |t.roster| <= TWO_64
    ensures Inv(cfg, t) && WireInv(cfg, t)
  {
    var st :| Enabled(s, st) && t == Apply(cfg, s, st);
    StepKeepsInv(cfg, s, st);
  }

  /** Every state of every run with at most 2^64 registrations meets the invariants. */
  lemma {:induction false} RunInv(cfg: Config, run: seq<State>)
    requires IsRun(cfg, run) && |run[|run| - 1].roster| <= TWO_64
    ensures Inv(cfg, run[|run| - 1]) && WireInv(cfg, run[|run| - 1])
    decreases |run|
  {
    if |run| == 1 {
      InitInv(cfg);
    } else {
      var s, t := run[|run| - 2], run[|run| - 1];
      assert NextAt(cfg, run, |run| - 2);
      RosterGrows(cfg, s, t);
      RunPrefix(cfg, run, |run| - 2);
      RunInv(cfg, run[..|run| - 1]);
      NextKeepsInv(cfg, s, t);
    }
  }

  // ---------------------------------------------------------------- what the client promises

  /** No interleaving completes a call twice, so `done` never discards. */
  lemma AtMostOneCompletion(cfg: Config, run: seq<State>, c: nat)
    requires IsRun(cfg, run) && |run[|run| - 1].roster| <= TWO_64 && c < |run[|run| - 1].pc|
    ensures
      var s := run[|run| - 1];
      && Shape(cfg, s)
      && |s.results[c]| <= 1
      && s.buffered[c] <= |s.results[c]|
      && s.discarded == 0
  {
    RunInv(cfg, run);
    assert Tokens(run[|run| - 1], c) == Due(run[|run| - 1].pc[c]);
  }

  /** A call whose `send` returned is completed, or somebody still has it in hand: it is pending
      under its own number, or `input` is about to complete it. Never two of these at once. */
  lemma NoCallIsLost(cfg: Config, run: seq<State>, c: nat)
    requires IsRun(cfg, run) && |run[|run| - 1].roster| <= TWO_64 && c < |run[|run| - 1].pc|
    requires run[|run| - 1].pc[c].Returned?
    ensures
      var s := run[|run| - 1];
      && Shape(cfg, s)
      && (IsPending(s, c) ==> Lookup(s.table, s.seqOf[c].value) == Some(c))
      && One(IsPending(s, c)) + One(HeldByInput(s, c)) + |s.results[c]| == 1
  {
    RunInv(cfg, run);
    var s := run[|run| - 1];
    assert Tokens(s, c) == Due(s.pc[c]);
    if IsPending(s, c) {
      var q := s.seqOf[c].value;
      assert s.roster[q] == c && s.roster[q] == s.table.pending[q];
    }
  }

  /** Why the number of registrations matters: one more would overwrite a pending call exactly when
      all 2^64 numbers are used up and call number 0 is still waiting. */
  lemma OverwritesIff(cfg: Config, run: seq<State>)
    requires IsRun(cfg, run) && |run[|run| - 1].roster| <= TWO_64
    ensures
      var s := run[|run| - 1];
      s.table.seqno in s.table.pending <==> |s.roster| == TWO_64 && 0 in s.table.pending
  {
    RunInv(cfg, run);
    OverwritesIn(run[|run| - 1]);
  }

  lemma OverwritesIn(s: State)
    requires |s.pc| == |s.seqOf| && SeqInv(s)
    ensures s.table.seqno in s.table.pending <==> |s.roster| == TWO_64 && 0 in s.table.pending
  {
    if |s.roster| < TWO_64 {
      SmallMod(|s.roster|, TWO_64);
    }
  }

  /** Once `input` has returned, every call whose `send` returned has exactly one completion. */
  lemma StoppedMeansCompleted(cfg: Config, run: seq<State>, c: nat)
    requires IsRun(cfg, run) && |run[|run| - 1].roster| <= TWO_64 && c < |run[|run| - 1].pc|
    requires run[|run| - 1].input.Stopped? && run[|run| - 1].pc[c].Returned?
    ensures Shape(cfg, run[|run| - 1]) && |run[|run| - 1].results[c]| == 1
  {
    NoCallIsLost(cfg, run, c);
  }

  /** The relation between a state in which `input` has returned and any later one. */
  ghost predicate Frozen(s: State, t: State) {
    && t.input.Stopped?
    && t.table.pending == s.table.pending && t.roster == s.roster
    && t.out == s.out && t.wire == s.wire
    && |t.results| == |s.results|
    && forall c :: 0 <= c < |s.results| ==>
         t.results[c] == s.results[c] || (s.results[c] == [] && t.results[c] == [ErrShutdown])
  }

  lemma StoppedStep(cfg: Config, s: State, st: Step)
    requires Inv(cfg, s) && s.input.Stopped? && Enabled(s, st)
    ensures Frozen(s, Apply(cfg, s, st))
  {
    if Completes(s, st).Some? {
      CompletesOnce(cfg, s, st);
    }
  }

  lemma StoppedNext(cfg: Config, s: State, t: State)
    requires Inv(cfg, s) && s.input.Stopped? && Next(cfg, s, t)
    ensures Frozen(s, t)
  {
    var st :| Enabled(s, st) && t == Apply(cfg, s, st);
    StoppedStep(cfg, s, st);
  }

  lemma FrozenTransitive(s: State, t: State, u: State)
    requires Frozen(s, t) && Frozen(t, u)
    ensures Frozen(s, u)
  {}

  lemma StoppedAt(cfg: Config, run: seq<State>, i: nat, k: nat)
    requires IsRun(cfg, run) && k + 1 < |run| && |run[|run| - 1].roster| <= TWO_64
    requires i <= k && Frozen(run[i], run[k])
    ensures Frozen(run[i], run[k + 1])
  {
    PrefixInv(cfg, run, k);
    assert NextAt(cfg, run, k);
    StoppedNext(cfg, run[k], run[k + 1]);
    FrozenTransitive(run[i], run[k], run[k + 1]);
  }

  /** After `input` has returned no step touches `pending`, nothing more is written, and the only
      completion a call can still get is ErrShutdown. */
  lemma {:induction false} NothingAfterStop(cfg: Config, run: seq<State>, i: nat, k: nat)
    requires IsRun(cfg, run) && i <= k < |run| && |run[|run| - 1].roster| <= TWO_64
    requires run[i].input.Stopped?
    ensures Frozen(run[i], run[k])
    decreases k
  {
    if i < k {
      NothingAfterStop(cfg, run, i, k - 1);
      StoppedAt(cfg, run, i, k - 1);
    }
  }

  lemma {:induction false} RosterBound(cfg: Config, run: seq<State>, k: nat)
    requires IsRun(cfg, run) && k < |run|
    ensures |run[k].roster| <= |run[|run| - 1].roster|
    decreases |run| - k
  {
    if k < |run| - 1 {
      assert NextAt(cfg, run, k);
      RosterGrows(cfg, run[k], run[k + 1]);
      RosterBound(cfg, run, k + 1);
    }
  }

  lemma PrefixInv(cfg: Config, run: seq<State>, k: nat)
    requires IsRun(cfg, run) && k < |run| && |run[|run| - 1].roster| <= TWO_64
    ensures Inv(cfg, run[k]) && WireInv(cfg, run[k])
  {
    RosterBound(cfg, run, k);
    RunPrefix(cfg, run, k);
    RunInv(cfg, run[..k + 1]);
  }

  /** Frame i is the request of the call it was begun for, under that call's own number. */
  ghost predicate CarriesCall(cfg: Config, s: State, i: nat)
    requires Shape(cfg, s) && i < |s.wire| == |s.wireCalls|
  {
    var c := s.wireCalls[i];
    c < |s.pc| && s.seqOf[c].Some? && s.wire[i] == RequestOf(cfg, c, s.seqOf[c].value)
  }

  /** However the senders interleave, what reached the wire is a sequence of whole request frames,
      each the request of its own call, one per call at most, the last one possibly cut short by a
      failed Write. */
  lemma FramesAreContiguous(cfg: Config, run: seq<State>)
    requires IsRun(cfg, run) && |run[|run| - 1].roster| <= TWO_64
    ensures
      var s := run[|run| - 1];
      && Shape(cfg, s)
      && s.out <= Stream(cfg.json, s.wire)
      && (s.reqLock.None? && !s.broken ==> s.out == Stream(cfg.json, s.wire))
      && |s.wire| == |s.wireCalls|
      && (forall i :: 0 <= i < |s.wire| ==> CarriesCall(cfg, s, i))
      && (forall i, k :: 0 <= i < k < |s.wireCalls| ==> s.wireCalls[i] != s.wireCalls[k])
  {
    RunInv(cfg, run);
    var s := run[|run| - 1];
    assert s.reqLock.None? ==> Unwritten(s) == [] && s.out + [] == s.out;
    forall i | 0 <= i < |s.wire| ensures CarriesCall(cfg, s, i) {
      assert WireCall(cfg, s, i);
    }
  }

  // ---------------------------------------------------------------- progress

  /** A step of the goroutine that sends call c. */
  predicate StepOfSender(st: Step, c: nat) {
    (st.Admit? || st.Transmit?) && st.c == c
  }

  /** A step of the `input` goroutine. */
  predicate StepOfInput(st: Step) {
    st.Input? || (st.Shut? && !st.z.Close? && !st.z.Receive?)
  }

  /** What the sender that holds reqMutex does next. */
  function SenderStep(p: SendPc, c: nat): Step
    requires Holds(p)
  {
    match p
    case Locked => Admit(c, Register)
    case Rejected => Admit(c, Refuse)
    case Registered(_) => Transmit(c, Fill)
    case Filled(_) => Transmit(c, Encode)
    case Writing(_, _) => Transmit(c, Write)
    case Failed(_) => Transmit(c, Remove)
    case Removed(_) => Transmit(c, FailDone)
    case Leaving => Admit(c, Unlock)
  }

  /** A `send` that holds reqMutex is never stuck: in particular nobody keeps `mutex` from it. */
  lemma SenderCanStep(s: State, c: nat)
    requires LockInv(s) && c < |s.pc| && Holds(s.pc[c])
    ensures Enabled(s, SenderStep(s.pc[c], c)) && StepOfSender(SenderStep(s.pc[c], c), c)
  {}

  /** `input` is never stuck either, except where it waits for the sender that holds reqMutex. */
  lemma InputCanStep(s: State)
    requires |s.pc| == |s.seqOf| && SeqInv(s) && LockInv(s)
    requires !s.input.Stopped? && (s.input.Stopping? ==> s.reqLock.None?)
    ensures exists st :: Enabled(s, st) && StepOfInput(st)
  {
    match s.input
    case ReadingHeader => assert Enabled(s, Input(ReadError)) && StepOfInput(Input(ReadError));
    case GotHeader(_) => assert Enabled(s, Input(Route)) && StepOfInput(Input(Route));
    case Routed(h, to) =>
      if to.Some? && h.error != [] {
        assert Enabled(s, Input(TakeError)) && StepOfInput(Input(TakeError));
      } else {
        assert Enabled(s, Input(BodyError)) && StepOfInput(Input(BodyError));
      }
    case Completing(_, _, _) => assert Enabled(s, Input(Complete)) && StepOfInput(Input(Complete));
    case Stopping => assert Enabled(s, Shut(StopLock)) && StepOfInput(Shut(StopLock));
    case StopLocked => assert Enabled(s, Shut(StopMark)) && StepOfInput(Shut(StopMark));
    case Draining(todo) =>
      if q :| q in todo {
        assert Enabled(s, Shut(DrainOne(q))) && StepOfInput(Shut(DrainOne(q)));
      } else {
        assert Enabled(s, Shut(DrainEnd)) && StepOfInput(Shut(DrainEnd));
      }
    case Unlocking => assert Enabled(s, Shut(StopUnlock)) && StepOfInput(Shut(StopUnlock));
  }

  predicate Unfinished(s: State) {
    !s.input.Stopped? || exists c :: 0 <= c < |s.pc| && !s.pc[c].Idle? && !s.pc[c].Returned?
  }

  /** No deadlock: in every state of every run in which a `send` is under way or `input` has not
      returned, one of these goroutines has a step. */
  lemma NoDeadlock(cfg: Config, run: seq<State>)
    requires IsRun(cfg, run) && |run[|run| - 1].roster| <= TWO_64 && Unfinished(run[|run| - 1])
    ensures var s := run[|run| - 1];
      exists st :: Enabled(s, st) && (StepOfInput(st) || exists c :: 0 <= c < |s.pc| && StepOfSender(st, c))
  {
    RunInv(cfg, run);
    var s := run[|run| - 1];
    if s.reqLock.Some? && s.reqLock.value.Sender? {
      var c := s.reqLock.value.call;
      SenderCanStep(s, c);
    } else if !s.input.Stopped? {
      InputCanStep(s);
    } else {
      var c :| 0 <= c < |s.pc| && !s.pc[c].Idle? && !s.pc[c].Returned?;
      assert !Holds(s.pc[c]);
      assert Enabled(s, Admit(c, Lock)) && StepOfSender(Admit(c, Lock), c);
    }
  }

  /** How many steps a `send` can still take: a request is at most four Writes. */
  function Remaining(p: SendPc): nat {
    match p
    case Idle => 12
    case Waiting => 11
    case Locked => 10
    case Registered(_) => 9
    case Filled(_) => 8
    case Writing(_, rest) => 3 + |rest|
    case Failed(_) => 3
    case Removed(_) => 2
    case Rejected => 2
    case Leaving => 1
    case Returned => 0
  }

  lemma AtMostFourChunks(json: JsonCodec, m: Message)
    ensures Chunks(json, m).Some? ==> |Chunks(json, m).value| <= 4
  {}

  lemma AdmitAdvances(cfg: Config, s: State, c: nat, a: AdmitStep)
    requires Shape(cfg, s) && CanAdmit(s, c, a)
    ensures var t := DoAdmit(cfg, s, c, a); t.pc == s.pc[c := t.pc[c]] && Remaining(t.pc[c]) < Remaining(s.pc[c])
  {}

  lemma TransmitAdvances(cfg: Config, s: State, c: nat, w: WriteStep)
    requires Shape(cfg, s) && CanTransmit(s, c, w)
    ensures var t := DoTransmit(cfg, s, c, w); t.pc == s.pc[c := t.pc[c]] && Remaining(t.pc[c]) < Remaining(s.pc[c])
  {
    if w.Encode? {
      AtMostFourChunks(cfg.json, Encoded(cfg, s, c));
    }
  }

  /** A `send` takes at most twelve steps: each step of its goroutine brings it nearer the end, and
      no step of anybody else takes it back. */
  lemma SendAdvances(cfg: Config, s: State, st: Step, c: nat)
    requires Shape(cfg, s) && Enabled(s, st) && c < |s.pc|
    ensures var t := Apply(cfg, s, st);
      if StepOfSender(st, c) then Remaining(t.pc[c]) < Remaining(s.pc[c]) else t.pc[c] == s.pc[c]
  {
    match st
    case Admit(d, a) => AdmitAdvances(cfg, s, d, a);
    case Transmit(d, w) => TransmitAdvances(cfg, s, d, w);
    case Input(_) =>
    case Shut(_) =>
  }

  /** A `send` that had not got past its lock when `input` returned ends with ErrShutdown alone. */
  lemma RefusedAfterStop(cfg: Config, run: seq<State>, i: nat, k: nat, c: nat)
    requires IsRun(cfg, run) && i <= k < |run| && |run[|run| - 1].roster| <= TWO_64
    requires run[i].input.Stopped? && c < |run[i].pc| && Due(run[i].pc[c]) == 0
    requires c < |run[k].pc| && run[k].pc[c].Returned?
    ensures c < |run[k].results| && run[k].results[c] == [ErrShutdown]
  {
    PrefixInv(cfg, run, i);
    PrefixInv(cfg, run, k);
    assert Tokens(run[i], c) == Due(run[i].pc[c]) && Tokens(run[k], c) == Due(run[k].pc[c]);
    NothingAfterStop(cfg, run, i, k);
  }
}
