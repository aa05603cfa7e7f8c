/**
  The life of a client connection: the goroutine that connects and reconnects (resetTransport
  and transportMonitor), callers of Wait, and callers of Close, all racing under one mutex.
  Each locked section and each unlocked action in between is one step; whether a dial succeeds,
  a deadline passes or a transport breaks is arbitrary.
 */
module GrpcConn {
  import opened Basics

  datatype Connectivity = Idle | Connecting | Ready | TransientFailure | Shutdown

  /** Where the connecting goroutine stands. */
  datatype Pc =
    | ResetTop(closeTransport: bool)
    | ClosingOld
    | Trying
    | DialFailed
    | Sleeping
    | Dialed(t: nat)
    | Discarding(t: nat)
    | GivingUp
    | FinalClose
    | Monitor
    | Broken
    | Returned

  datatype Waiter = Start | Blocked(chan: nat) | Reading | Failed | GotTransport(t: nat)

  /** `closed[i]` counts how often channel i was closed; `open[t]`: transport t is not closed. */
  datatype Conn = Conn(
    state: Connectivity,
    ready: Option<nat>, closed: seq<nat>,
    transport: Option<nat>, open: seq<bool>,
    shutdownClosed: nat,
    pc: Pc, monitoring: bool,
    waiters: seq<Waiter>)

  /** A fresh Conn, with resetTransport(false) just called. */
  function Initial(): Conn {
    Conn(Idle, None, [], None, [], 0, ResetTop(false), false, [])
  }

  datatype Step =
    | Reset
    | DialSucceeds | DialFails | Expires
    | Wakes | GetsLate
    | TransportBreaks
    | SeeShutdown
    | CallClose
    | NewWaiter
    | WaiterMoves(w: nat)
    | WaiterCancelled(w: nat)

  /** close(cc.ready); cc.ready = nil, if there is one. */
  function ReleaseReady(m: Conn): Conn
    requires m.ready.Some? ==> m.ready.value < |m.closed|
  {
    if m.ready.None? then m
    else m.(ready := None, closed := m.closed[m.ready.value := m.closed[m.ready.value] + 1])
  }

  function CloseTransport(m: Conn, t: nat): Conn
    requires t < |m.open|
  {
    m.(open := m.open[t := false])
  }

  predicate Indexed(m: Conn) {
    && (m.ready.Some? ==> m.ready.value < |m.closed|)
    && (m.transport.Some? ==> m.transport.value < |m.open|)
    && (m.pc.Dialed? ==> m.pc.t < |m.open|)
    && (m.pc.Discarding? ==> m.pc.t < |m.open|)
    && (m.pc.ClosingOld? || m.state == Ready ==> m.transport.Some?)
    && (forall w :: 0 <= w < |m.waiters| && m.waiters[w].Blocked? ==> m.waiters[w].chan < |m.closed|)
    && (forall w :: 0 <= w < |m.waiters| && m.waiters[w].Reading? ==> m.transport.Some?)
  }

  /** Close, one locked section. */
  function Close(m: Conn): Conn
    requires Indexed(m)
  {
    if m.state == Shutdown then m
    else
      var m1 := ReleaseReady(m.(state := Shutdown));
      var m2 := if m1.transport.Some? then CloseTransport(m1, m1.transport.value) else m1;
      m2.(shutdownClosed := m2.shutdownClosed + 1)
  }

  /** resetTransport returns an error: the monitor returns, and NewConn calls Close first. */
  function Fail(m: Conn): Conn {
    m.(pc := if m.monitoring then Returned else FinalClose)
  }

  predicate Enabled(m: Conn, s: Step) {
    match s
    case Reset => m.pc.ResetTop? || m.pc.ClosingOld? || m.pc.DialFailed? || m.pc.Dialed? || m.pc.Discarding? || m.pc.GivingUp? || m.pc.FinalClose?
    case DialSucceeds => m.pc.Trying?
    case DialFails => m.pc.Trying?
    case Expires => m.pc.Trying?
    case Wakes => m.pc.Sleeping?
    case GetsLate => m.pc.Sleeping?
    case TransportBreaks => m.pc.Monitor? || m.pc.Broken?
    case SeeShutdown => m.pc.Monitor? && m.shutdownClosed > 0
    case CallClose => true
    case NewWaiter => true
    case WaiterMoves(w) =>
      && w < |m.waiters|
      && match m.waiters[w] {
           case Start => true
           case Blocked(c) => c < |m.closed| && m.closed[c] > 0
           case Reading => true
           case Failed => false
           case GotTransport(_) => false
         }
    case WaiterCancelled(w) => w < |m.waiters| && m.waiters[w].Blocked?
  }

  /** A step of the connecting goroutine that leaves no choice. */
  function Advance(m: Conn): Conn
    requires Indexed(m)
  {
    match m.pc
    case ResetTop(closeTransport) =>
      if m.state == Shutdown then Fail(m)
      else m.(state := Connecting, pc := if closeTransport then ClosingOld else Trying)
    case ClosingOld => CloseTransport(m, m.transport.value).(pc := Trying)
    case DialFailed =>
      if m.state == Shutdown then Fail(m)
      else ReleaseReady(m.(state := TransientFailure)).(pc := Sleeping)
    case Dialed(t) =>
      if m.state == Shutdown then m.(pc := Discarding(t))
      else ReleaseReady(m.(state := Ready, transport := Some(t))).(pc := Monitor, monitoring := true)
    case Discarding(t) => Fail(CloseTransport(m, t))
    case GivingUp => Fail(Close(m))
    case FinalClose => Close(m).(pc := Returned)
    case _ => m
  }

  function Next(m: Conn, s: Step): Conn
    requires Indexed(m) && Enabled(m, s)
  {
    match s
    case Reset => Advance(m)
    case DialSucceeds => m.(open := m.open + [true], pc := Dialed(|m.open|))
    case DialFails => m.(pc := DialFailed)
    case Expires => m.(pc := GivingUp)
    case Wakes => m.(pc := ResetTop(false))
    // The deadline would pass during the sleep.
    case GetsLate => m.(pc := GivingUp)
    case TransportBreaks =>
      if m.pc.Monitor? then m.(pc := Broken)
      else if m.state == Shutdown then m.(pc := Returned)
      else m.(state := TransientFailure, pc := ResetTop(true))
    case SeeShutdown => m.(pc := Returned)
    case CallClose => Close(m)
    case NewWaiter => m.(waiters := m.waiters + [Start])
    case WaiterMoves(w) => MoveWaiter(m, w)
    case WaiterCancelled(w) => m.(waiters := m.waiters[w := Failed])
  }

  /** Wait: the transport is read after the mutex is released. */
  function MoveWaiter(m: Conn, w: nat): Conn
    requires Indexed(m) && Enabled(m, WaiterMoves(w))
  {
    match m.waiters[w]
    case Start =>
      if m.state == Shutdown then m.(waiters := m.waiters[w := Failed])
      else if m.state == Ready then m.(waiters := m.waiters[w := Reading])
      else if m.ready.Some? then m.(waiters := m.waiters[w := Blocked(m.ready.value)])
      else m.(ready := Some(|m.closed|), closed := m.closed + [0], waiters := m.waiters[w := Blocked(|m.closed|)])
    case Blocked(_) => m.(waiters := m.waiters[w := Start])
    case Reading => m.(waiters := m.waiters[w := GotTransport(m.transport.value)])
    case _ => m
  }

  // ---- The invariant ----

  predicate AllClosedBut(open: seq<bool>, t: int) {
    forall i :: 0 <= i < |open| && i != t ==> !open[i]
  }

  predicate ChannelsOk(m: Conn) {
    forall c :: 0 <= c < |m.closed| ==> m.closed[c] == if m.ready == Some(c) then 0 else 1
  }

  predicate Holding(pc: Pc) {
    pc == ResetTop(true) || pc.ClosingOld? || pc.Monitor? || pc.Broken?
  }

  /** Which transports may be open, by where the connecting goroutine stands. */
  predicate TransportsOk(m: Conn) {
    if Holding(m.pc) then
      && m.transport.Some? && m.transport.value < |m.open| && AllClosedBut(m.open, m.transport.value)
      && (m.state == Shutdown ==> !m.open[m.transport.value])
      && (m.state != Shutdown ==> m.open[m.transport.value])
    else if m.pc.Dialed? || m.pc.Discarding? then
      m.pc.t < |m.open| && m.open[m.pc.t] && AllClosedBut(m.open, m.pc.t) && m.transport != Some(m.pc.t)
    else AllClosedBut(m.open, -1)
  }

  predicate Inv(m: Conn) {
    && Indexed(m) && ChannelsOk(m) && TransportsOk(m)
    && (m.ready.Some? ==> m.state != Ready && m.state != Shutdown)
    && (m.state == Ready ==> m.pc.Monitor? || m.pc.Broken?)
    && (m.pc.Discarding? || m.pc.Returned? ==> m.state == Shutdown)
    && (m.pc.FinalClose? ==> m.state == Shutdown)
    && (m.pc.Monitor? || m.pc.Broken? ==> m.monitoring && (m.state == Ready || m.state == Shutdown))
    && m.shutdownClosed == (if m.state == Shutdown then 1 else 0)
  }

  lemma CloseKeeps(m: Conn)
    requires Inv(m)
    ensures Inv(Close(m)) && Close(m).state == Shutdown && Close(m).pc == m.pc
  {
  }

  /** After a dial. */
  lemma DialedKeeps(m: Conn)
    requires Inv(m) && (m.pc.Dialed? || m.pc.DialFailed? || m.pc.Discarding?)
    ensures Inv(Advance(m))
  {
  }

  lemma AdvanceKeeps(m: Conn)
    requires Inv(m) && Enabled(m, Reset)
    ensures Inv(Advance(m))
  {
    if m.pc.Dialed? || m.pc.DialFailed? || m.pc.Discarding? {
      DialedKeeps(m);
    } else if m.pc.GivingUp? || m.pc.FinalClose? {
      CloseKeeps(m);
      hide Close;
    } else {
      hide ReleaseReady;
    }
  }

  lemma WaiterKeeps(m: Conn, w: nat)
    requires Inv(m) && Enabled(m, WaiterMoves(w))
    ensures Inv(MoveWaiter(m, w))
  {
  }

  /** Every step keeps the invariant, and none leaves Shutdown. */
  lemma StepKeeps(m: Conn, s: Step)
    requires Inv(m) && Enabled(m, s)
    ensures Inv(Next(m, s))
    ensures m.state == Shutdown ==> Next(m, s).state == Shutdown
  {
    hide ReleaseReady;
    if s.Reset? {
      AdvanceKeeps(m);
    } else if s.CallClose? {
      CloseKeeps(m);
    } else if s.WaiterMoves? {
      WaiterKeeps(m, s.w);
    } else if s.DialSucceeds? || s.DialFails? || s.Expires? || s.Wakes? || s.GetsLate? {
      DialKeeps(m, s);
    }
  }

  lemma DialKeeps(m: Conn, s: Step)
    requires Inv(m) && Enabled(m, s) && (s.DialSucceeds? || s.DialFails? || s.Expires? || s.Wakes? || s.GetsLate?)
    ensures Inv(Next(m, s)) && (m.state == Shutdown ==> Next(m, s).state == Shutdown)
  {
  }

  // ---- Whole runs ----

  predicate Possible(m: Conn, ss: seq<Step>)
    decreases |ss|
  {
    ss == [] || (Indexed(m) && Enabled(m, ss[0]) && Possible(Next(m, ss[0]), ss[1..]))
  }

  function Run(m: Conn, ss: seq<Step>): Conn
    requires Possible(m, ss)
    decreases |ss|
  {
    if ss == [] then m else Run(Next(m, ss[0]), ss[1..])
  }

  lemma {:induction false} RunKeeps(m: Conn, ss: seq<Step>)
    requires Inv(m) && Possible(m, ss)
    ensures Inv(Run(m, ss))
    ensures m.state == Shutdown ==> Run(m, ss).state == Shutdown
    decreases |ss|
  {
    if ss != [] {
      StepKeeps(m, ss[0]);
      RunKeeps(Next(m, ss[0]), ss[1..]);
    }
  }

  /** No run gets stuck on an index: steps are always defined where they are enabled. */
  lemma ExtendsRun(ss: seq<Step>, s: Step)
    requires Possible(Initial(), ss) && Enabled(Run(Initial(), ss), s)
    ensures Possible(Initial(), ss + [s])
  {
    RunKeeps(Initial(), ss);
    PossibleAppend(Initial(), ss, s);
  }

  lemma {:induction false} PossibleAppend(m: Conn, ss: seq<Step>, s: Step)
    requires Possible(m, ss) && Indexed(Run(m, ss)) && Enabled(Run(m, ss), s)
    ensures Possible(m, ss + [s])
    decreases |ss|
  {
    if ss != [] {
      assert (ss + [s])[1..] == ss[1..] + [s];
      PossibleAppend(Next(m, ss[0]), ss[1..], s);
    }
  }

  /**
    In every run: Ready implies an installed transport that was not closed; a ready channel is
    pending only outside Ready and Shutdown, and every other one was closed exactly once; at
    most one transport is open; the shutdown channel is closed exactly once, with Shutdown; and
    when the connecting goroutine has returned, it is Shutdown and all transports are closed.
   */
  lemma ConnectionIsSafe(ss: seq<Step>)
    requires Possible(Initial(), ss)
    ensures var m := Run(Initial(), ss);
            && (m.state == Ready ==> m.transport.Some? && m.transport.value < |m.open| && m.open[m.transport.value])
            && (m.ready.Some? ==> m.state != Ready && m.state != Shutdown)
            && (forall c :: 0 <= c < |m.closed| ==> m.closed[c] == if m.ready == Some(c) then 0 else 1)
            && (forall i, j :: 0 <= i < |m.open| && 0 <= j < |m.open| && m.open[i] && m.open[j] ==> i == j)
            && m.shutdownClosed == (if m.state == Shutdown then 1 else 0)
            && (m.pc.Returned? ==> m.state == Shutdown && forall t :: 0 <= t < |m.open| ==> !m.open[t])
  {
    RunKeeps(Initial(), ss);
  }

  /** Shutdown is absorbing: the state after any continuation is Shutdown, too. */
  lemma ShutdownStays(ss: seq<Step>, more: seq<Step>)
    requires Possible(Initial(), ss) && Run(Initial(), ss).state == Shutdown && Possible(Run(Initial(), ss), more)
    ensures Run(Run(Initial(), ss), more).state == Shutdown
  {
    RunKeeps(Initial(), ss);
    RunKeeps(Run(Initial(), ss), more);
  }

  /** No caller of Wait stays blocked in Ready or Shutdown, or on a channel nobody will close;
      and one that succeeds gets a transport. */
  lemma WaitersAreReleased(ss: seq<Step>, w: nat)
    requires Possible(Initial(), ss) && w < |Run(Initial(), ss).waiters|
    ensures var m := Run(Initial(), ss);
            && (m.waiters[w].Blocked? && (m.state == Ready || m.state == Shutdown) ==> Enabled(m, WaiterMoves(w)))
            && (m.waiters[w].Blocked? ==> m.ready == Some(m.waiters[w].chan) || Enabled(m, WaiterMoves(w)))
            && (m.waiters[w].Reading? ==> m.transport.Some?)
  {
    RunKeeps(Initial(), ss);
  }
}
