/** Client.ping: the goroutine that keeps one live connection published, statement by statement,
    while anybody may load the published value and Close may end it at any time. */
module Supervisor {
  import opened Bytes

  /** One `*client`: its closing flag and how often its socket was closed. */
  datatype Conn = Conn(closing: bool, closes: nat)

  datatype Published = Unset | Live(id: nat) | ErrClient

  datatype Pc =
    | Top            // the select on quit
    | Dialing
    | Storing        // dial succeeded, about to publish
    | Pinging
    | Withdrawing    // the ping failed for good, about to publish errClient
    | Closing        // about to close that connection
    | QuitStoring    // quit was observed, about to publish errClient
    | QuitClosing
    | Returned

  datatype State = State(conns: seq<Conn>, published: Published, client: Option<nat>, err: bool, quit: bool, pc: Pc)

  /** Dial left a connection behind, or could not make one. */
  predicate Init(s: State) {
    && !s.err && !s.quit && s.pc.Top?
    && (s == State([Conn(false, 0)], Live(0), Some(0), false, false, Top)
        || s == State([], Unset, None, false, false, Top))
  }

  datatype PingResult = PingOk | PingOther | PingFatal

  datatype Step = Quit | Look | DialFailed | DialOk | Store | Ping(r: PingResult) | Withdraw | CloseIt | QuitStore | QuitClose

  /** client.Close: the socket is closed only by the first call. */
  function CloseConn(c: Conn): Conn {
    if c.closing then c else Conn(true, c.closes + 1)
  }

  predicate Enabled(s: State, st: Step) {
    match st
    case Quit => !s.quit
    case Look => s.pc.Top?
    case DialFailed => s.pc.Dialing?
    case DialOk => s.pc.Dialing?
    case Store => s.pc.Storing? && s.client.Some?
    case Ping(_) => s.pc.Pinging?
    case Withdraw => s.pc.Withdrawing?
    case CloseIt => s.pc.Closing? && s.client.Some? && s.client.value < |s.conns|
    case QuitStore => s.pc.QuitStoring?
    case QuitClose => s.pc.QuitClosing? && (s.client.Some? ==> s.client.value < |s.conns|)
  }

  function Apply(s: State, st: Step): State
    requires Enabled(s, st)
  {
    match st
    case Quit => s.(quit := true)
    case Look => s.(pc := if s.quit then QuitStoring else if s.client.None? || s.err then Dialing else Pinging)
    case DialFailed => s.(client := None, err := true, pc := Top)
    case DialOk => s.(conns := s.conns + [Conn(false, 0)], client := Some(|s.conns|), err := false, pc := Storing)
    case Store => s.(published := Live(s.client.value), pc := Pinging)
    case Ping(r) => s.(err := r.PingFatal?, pc := if r.PingFatal? then Withdrawing else Top)
    case Withdraw => s.(published := ErrClient, pc := Closing)
    case CloseIt =>
      s.(conns := s.conns[s.client.value := CloseConn(s.conns[s.client.value])], pc := Top)
    case QuitStore => s.(published := ErrClient, pc := QuitClosing)
    case QuitClose =>
      s.(conns := if s.client.None? then s.conns
                  else s.conns[s.client.value := CloseConn(s.conns[s.client.value])], pc := Returned)
  }

  /** Each socket is closed once and only with its flag; only the current client is open; what is
      published is the current client and open. */
  ghost predicate Inv(s: State) {
    && (forall i :: 0 <= i < |s.conns| ==> s.conns[i].closes == if s.conns[i].closing then 1 else 0)
    && (s.client.Some? ==> s.client.value < |s.conns|)
    && (forall i :: 0 <= i < |s.conns| && !s.conns[i].closing ==> s.client == Some(i))
    && (s.published.Live? ==> s.client == Some(s.published.id) && !s.conns[s.published.id].closing)
    && (s.pc.Pinging? || s.pc.Withdrawing? || s.pc.Closing? || s.pc.Storing? ==> s.client.Some?)
    && (s.pc.Storing? || s.pc.Dialing? || s.pc.Closing? || s.pc.QuitClosing? || s.pc.Returned? ==> !s.published.Live?)
    && (s.pc.Top? || s.pc.QuitStoring? ==> (s.client.None? || s.err ==> !s.published.Live?))
    && (s.pc.Dialing? || (s.pc.Top? && s.err) ==> forall i :: 0 <= i < |s.conns| ==> s.conns[i].closing)
    && (s.pc.Storing? && s.client.Some? ==> !s.conns[s.client.value].closing)
    && (s.pc.QuitClosing? || s.pc.Returned? ==> s.published.ErrClient? && s.quit)
    && (s.pc.QuitStoring? ==> s.quit)
    && (s.pc.Returned? ==> forall i :: 0 <= i < |s.conns| ==> s.conns[i].closing)
  }

  lemma StepKeepsInv(s: State, st: Step)
    requires Inv(s) && Enabled(s, st)
    ensures Inv(Apply(s, st))
  {}

  ghost predicate Next(s: State, t: State) {
    exists st :: Enabled(s, st) && t == Apply(s, st)
  }

  ghost predicate IsRun(run: seq<State>) {
    run != [] && Init(run[0]) && forall i :: 0 <= i < |run| - 1 ==> Next(run[i], run[i + 1])
  }

  lemma {:induction false} RunInv(run: seq<State>, k: nat)
    requires IsRun(run) && k < |run|
    ensures Inv(run[k])
  {
    if k > 0 {
      RunInv(run, k - 1);
      assert Next(run[k - 1], run[k - 1 + 1]);
      var st :| Enabled(run[k - 1], st) && run[k] == Apply(run[k - 1], st);
      StepKeepsInv(run[k - 1], st);
    }
  }

  /** Whoever loads the published connection gets one that has not been closed; no socket is
      closed twice; and when ping has returned, every connection it ever had is closed. */
  lemma PublishedIsOpen(run: seq<State>, k: nat)
    requires IsRun(run) && k < |run|
    ensures
      var s := run[k];
      && (s.published.Live? ==> s.published.id < |s.conns| && s.conns[s.published.id].closes == 0)
      && (forall i :: 0 <= i < |s.conns| ==> s.conns[i].closes <= 1)
      && (s.pc.Returned? ==> forall i :: 0 <= i < |s.conns| ==> s.conns[i].closes == 1)
  {
    RunInv(run, k);
  }

  predicate Gone(s: State) {
    s.published.ErrClient? && (s.pc.QuitClosing? || s.pc.Returned?)
  }

  lemma GoneForGood(run: seq<State>, k: nat)
    requires IsRun(run) && k + 1 < |run| && Gone(run[k])
    ensures Gone(run[k + 1])
  {
    assert Next(run[k], run[k + 1]);
  }

  /** Once quit has been acted upon the published value is errClient for ever. */
  lemma {:induction false} ErrClientForEver(run: seq<State>, i: nat, k: nat)
    requires IsRun(run) && i <= k < |run|
    requires run[i].pc.QuitClosing? || run[i].pc.Returned?
    ensures Gone(run[k])
    decreases k
  {
    if i < k {
      ErrClientForEver(run, i, k - 1);
      GoneForGood(run, k - 1);
    } else {
      RunInv(run, i);
    }
  }
}
