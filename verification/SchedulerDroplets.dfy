/**
  How executors join: LaunchExecutors starts a goroutine (a launcher) for each droplet it
  creates; each droplet registers itself when it is up, and RegisterExecutorUp passes its port
  to the launcher that waits for it, or has the droplet deleted. The steps of all calls,
  launchers, registrations and cancellations interleave arbitrarily; a section under db.lock is
  one step, except that a registration may block inside it on a full channel, holding the lock.
 */
module SchedulerDroplets {
  import opened Basics

  datatype Phase = Creating | Waiting | GotPort(port: nat) | Leaving | Finished

  /** `joined`: the launcher has sent its executor to the collector. */
  datatype Launcher = Launcher(call: nat, phase: Phase, droplet: Option<nat>, joined: bool)

  /** An executor; `launcher` is who sent it. */
  datatype Executor = Executor(launcher: nat, droplet: nat, port: nat)

  datatype Result = Running | Success | Failure

  /** One call of LaunchExecutors for `count` executors: what its collector has, and what is in
      the channels. */
  datatype Call = Call(count: nat, executors: seq<Executor>, queue: seq<Executor>, errors: nat, cancelled: bool, result: Result)

  datatype Registration = Registration(droplet: nat, port: nat)

  datatype System = System(
    calls: seq<Call>,
    launchers: seq<Launcher>,
    /** waitDroplets: for each droplet what is in its channel. */
    wait: map<nat, Option<nat>>,
    /** A registration that blocks, with the lock held. */
    blocked: Option<Registration>,
    created: set<nat>, deleted: set<nat>, registered: set<Registration>)

  function Initial(): System {
    System([], [], map[], None, {}, {}, {})
  }

  datatype Step =
    | Launch(count: nat)
    | Create(l: nat, id: nat) | CreateFails(l: nat)
    | Register(id: nat, port: nat) | Unblock
    | TakePort(l: nat) | SeeCancel(l: nat)
    | Join(l: nat) | JoinFails(l: nat)
    | Leave(l: nat)
    | CancelCall(c: nat)
    | Collect(c: nat) | CollectDone(c: nat) | CollectError(c: nat) | CollectCancel(c: nat)

  predicate InPhase(m: System, l: nat, p: Phase) {
    l < |m.launchers| && m.launchers[l].phase == p && m.launchers[l].call < |m.calls|
  }

  predicate Has(m: System, l: nat) {
    l < |m.launchers| && m.launchers[l].call < |m.calls| && m.launchers[l].droplet.Some?
  }

  predicate AllFinished(m: System, c: nat) {
    forall l :: 0 <= l < |m.launchers| && m.launchers[l].call == c ==> m.launchers[l].phase == Finished
  }

  predicate Enabled(m: System, t: Step) {
    match t
    case Launch(_) => true
    // Droplet IDs are fresh.
    case Create(l, id) => m.blocked.None? && InPhase(m, l, Creating) && id !in m.created && id !in m.deleted
    case CreateFails(l) => m.blocked.None? && InPhase(m, l, Creating)
    case Register(_, _) => m.blocked.None?
    case Unblock => m.blocked.Some? && m.blocked.value.droplet in m.wait && m.wait[m.blocked.value.droplet].None?
    case TakePort(l) => InPhase(m, l, Waiting) && Has(m, l) && m.launchers[l].droplet.value in m.wait && m.wait[m.launchers[l].droplet.value].Some?
    case SeeCancel(l) => InPhase(m, l, Waiting) && m.calls[m.launchers[l].call].cancelled
    case Join(l) => Has(m, l) && m.launchers[l].phase.GotPort?
    case JoinFails(l) => Has(m, l) && m.launchers[l].phase.GotPort?
    case Leave(l) => m.blocked.None? && Has(m, l) && m.launchers[l].phase == Leaving
    case CancelCall(c) => c < |m.calls|
    case Collect(c) => c < |m.calls| && m.calls[c].result.Running? && m.calls[c].queue != []
    // The channel is closed when all launchers are done, and then drained.
    case CollectDone(c) => c < |m.calls| && m.calls[c].result.Running? && m.calls[c].queue == [] && AllFinished(m, c)
    case CollectError(c) => c < |m.calls| && m.calls[c].result.Running? && m.calls[c].errors > 0
    case CollectCancel(c) => c < |m.calls| && m.calls[c].result.Running? && m.calls[c].cancelled
  }

  function SetPhase(m: System, l: nat, p: Phase): System
    requires l < |m.launchers|
  {
    m.(launchers := m.launchers[l := m.launchers[l].(phase := p)])
  }

  function Report(m: System, c: nat): System
    requires c < |m.calls|
  {
    m.(calls := m.calls[c := m.calls[c].(errors := m.calls[c].errors + 1)])
  }

  function Next(m: System, t: Step): System
    requires Enabled(m, t)
  {
    match t
    case Launch(count) =>
      m.(calls := m.calls + [Call(count, [], [], 0, false, Running)],
         launchers := m.launchers + seq(count, _ => Launcher(|m.calls|, Creating, None, false)))
    case Create(l, id) =>
      m.(launchers := m.launchers[l := m.launchers[l].(phase := Waiting, droplet := Some(id))],
         wait := m.wait[id := None], created := m.created + {id})
    case CreateFails(l) => SetPhase(Report(m, m.launchers[l].call), l, Finished)
    case Register(id, port) => RegisterUp(m, id, port)
    case Unblock =>
      m.(wait := m.wait[m.blocked.value.droplet := Some(m.blocked.value.port)], blocked := None)
    case TakePort(l) =>
      var d := m.launchers[l].droplet.value;
      SetPhase(m.(wait := m.wait[d := None]), l, GotPort(m.wait[d].value))
    case SeeCancel(l) => SetPhase(m, l, Leaving)
    case Join(l) =>
      var lr := m.launchers[l];
      var c := lr.call;
      var e := Executor(l, lr.droplet.value, lr.phase.port);
      m.(launchers := m.launchers[l := lr.(phase := Leaving, joined := true)],
         calls := m.calls[c := m.calls[c].(queue := m.calls[c].queue + [e])])
    case JoinFails(l) => SetPhase(Report(m, m.launchers[l].call), l, Leaving)
    case Leave(l) => SetPhase(m.(wait := m.wait - {m.launchers[l].droplet.value}), l, Finished)
    case CancelCall(c) => m.(calls := m.calls[c := m.calls[c].(cancelled := true)])
    case Collect(c) =>
      var q := m.calls[c].queue;
      m.(calls := m.calls[c := m.calls[c].(executors := m.calls[c].executors + [q[0]], queue := q[1..])])
    case CollectDone(c) => m.(calls := m.calls[c := m.calls[c].(result := Success)])
    case CollectError(c) => m.(calls := m.calls[c := m.calls[c].(result := Failure)])
    case CollectCancel(c) => m.(calls := m.calls[c := m.calls[c].(result := Failure)])
  }

  /** RegisterExecutorUp. */
  function RegisterUp(m: System, id: nat, port: nat): System {
    var m' := m.(registered := m.registered + {Registration(id, port)});
    if id !in m.wait then m'.(deleted := m.deleted + {id})
    else if m.wait[id].None? then m'.(wait := m.wait[id := Some(port)])
    else m'.(blocked := Some(Registration(id, port)))
  }

  // ---- The invariant ----

  predicate Active(l: Launcher) {
    l.droplet.Some? && l.phase != Finished
  }

  predicate LauncherOk(m: System, l: nat)
    requires l < |m.launchers|
  {
    var lr := m.launchers[l];
    && lr.call < |m.calls|
    && (lr.droplet.None? ==> (lr.phase == Creating || lr.phase == Finished) && !lr.joined)
    && (lr.droplet.Some? ==> lr.phase != Creating && lr.droplet.value in m.created)
    && (Active(lr) ==> lr.droplet.value in m.wait && lr.droplet.value !in m.deleted)
    && (lr.phase.GotPort? ==> lr.droplet.Some? && Registration(lr.droplet.value, lr.phase.port) in m.registered)
    && (lr.joined ==> lr.phase == Leaving || lr.phase == Finished)
    && (Missed(lr) ==> m.calls[lr.call].errors > 0 || m.calls[lr.call].cancelled)
  }

  /** A launcher that is not going to join any more. */
  predicate Missed(lr: Launcher) {
    (lr.phase == Leaving || lr.phase == Finished) && !lr.joined
  }

  function LaunchersOf(ls: seq<Launcher>, c: nat): set<nat> {
    set l: nat | l < |ls| && ls[l].call == c
  }

  predicate MissedBy(m: System, c: nat, l: nat) {
    l < |m.launchers| && m.launchers[l].call == c && Missed(m.launchers[l])
  }

  /** A call has as many launchers as it was asked for, and an error is that of a launcher which
      does not join. */
  ghost predicate CountsOk(m: System, c: nat)
    requires c < |m.calls|
  {
    && |LaunchersOf(m.launchers, c)| == m.calls[c].count
    && (m.calls[c].errors > 0 ==> exists l :: MissedBy(m, c, l))
  }

  /** No two launchers have the same droplet. */
  predicate DropletsDistinct(ls: seq<Launcher>) {
    forall k, l :: 0 <= k < l < |ls| && ls[k].droplet.Some? ==> ls[k].droplet != ls[l].droplet
  }

  predicate Owns(m: System, l: nat, d: nat) {
    l < |m.launchers| && m.launchers[l].droplet == Some(d) && Active(m.launchers[l])
  }

  /** A droplet that is waited for belongs to a launcher that has not finished. */
  ghost predicate WaitOk(m: System) {
    && (forall d :: d in m.wait ==> exists l :: Owns(m, l, d))
    && (forall d :: d in m.wait && m.wait[d].Some? ==> Registration(d, m.wait[d].value) in m.registered)
    && (m.blocked.Some? ==> m.blocked.value in m.registered && m.blocked.value.droplet in m.wait)
  }

  /** What the collector has or will get, against the launchers. */
  function Sent(c: Call): seq<Executor> {
    c.executors + c.queue
  }

  predicate ExecutorOk(m: System, c: nat, e: Executor) {
    && e.launcher < |m.launchers| && m.launchers[e.launcher].call == c && m.launchers[e.launcher].joined
    && m.launchers[e.launcher].droplet == Some(e.droplet)
    && Registration(e.droplet, e.port) in m.registered
  }

  predicate SentBy(s: seq<Executor>, l: nat) {
    exists k :: 0 <= k < |s| && s[k].launcher == l
  }

  predicate CallOk(m: System, c: nat)
    requires c < |m.calls|
  {
    var s := Sent(m.calls[c]);
    && (forall k :: 0 <= k < |s| ==> ExecutorOk(m, c, s[k]))
    && (forall j, k :: 0 <= j < k < |s| ==> s[j].launcher != s[k].launcher)
    && (forall l :: 0 <= l < |m.launchers| && m.launchers[l].call == c && m.launchers[l].joined ==>
          SentBy(s, l))
    && (m.calls[c].result.Success? ==> m.calls[c].queue == [] && AllFinished(m, c))
  }

  ghost predicate Inv(m: System) {
    && (forall l :: 0 <= l < |m.launchers| ==> LauncherOk(m, l))
    && DropletsDistinct(m.launchers)
    && WaitOk(m)
    && (forall c :: 0 <= c < |m.calls| ==> CallOk(m, c))
    && (forall c :: 0 <= c < |m.calls| ==> CountsOk(m, c))
  }

  predicate CallStep(t: Step) {
    t.Launch? || t.CancelCall? || t.Collect? || t.CollectDone? || t.CollectError? || t.CollectCancel?
  }

  lemma CallStepsKeep(m: System, t: Step, l: nat)
    requires Inv(m) && Enabled(m, t) && CallStep(t) && l < |Next(m, t).launchers|
    ensures LauncherOk(Next(m, t), l)
  {
    if l < |m.launchers| {
      assert LauncherOk(m, l);
    }
  }

  predicate ReportStep(t: Step) {
    t.CreateFails? || t.Join? || t.JoinFails? || t.Leave?
  }

  lemma ReportStepsKeep(m: System, t: Step, l: nat)
    requires Inv(m) && Enabled(m, t) && ReportStep(t) && l < |Next(m, t).launchers|
    ensures LauncherOk(Next(m, t), l)
  {
    assert LauncherOk(m, l);
  }

  lemma LaunchersKeep(m: System, t: Step, l: nat)
    requires Inv(m) && Enabled(m, t) && l < |Next(m, t).launchers|
    ensures LauncherOk(Next(m, t), l)
  {
    hide DropletsDistinct, CallOk;
    if CallStep(t) {
      CallStepsKeep(m, t, l);
    } else if ReportStep(t) {
      ReportStepsKeep(m, t, l);
    } else {
      assert LauncherOk(m, l);
    }
  }

  lemma DropletsKeep(m: System, t: Step)
    requires Inv(m) && Enabled(m, t)
    ensures DropletsDistinct(Next(m, t).launchers)
  {
    forall l | 0 <= l < |m.launchers| && m.launchers[l].droplet.Some? ensures m.launchers[l].droplet.value in m.created {
      assert LauncherOk(m, l);
    }
  }

  lemma OwnerStays(m: System, t: Step, d: nat)
    requires Inv(m) && Enabled(m, t) && d in Next(m, t).wait
    ensures exists l :: Owns(Next(m, t), l, d)
  {
    var m' := Next(m, t);
    if t.Create? && d == t.id {
      assert Owns(m', t.l, d);
    } else {
      var l :| Owns(m, l, d);
      assert LauncherOk(m, l);
      assert Owns(m', l, d);
    }
  }

  lemma WaitKeeps(m: System, t: Step)
    requires Inv(m) && Enabled(m, t)
    ensures WaitOk(Next(m, t))
  {
    hide Owns;
    forall d | d in Next(m, t).wait ensures exists l :: Owns(Next(m, t), l, d) {
      OwnerStays(m, t, d);
    }
  }

  predicate Evolved(a: Launcher, b: Launcher) {
    && b.call == a.call && b.joined == a.joined
    && (a.droplet.Some? ==> b.droplet == a.droplet)
    && (a.phase == Finished ==> b.phase == Finished)
  }

  lemma LaunchersEvolve(m: System, t: Step)
    requires Inv(m) && Enabled(m, t) && !t.Join?
    ensures var m' := Next(m, t);
            && |m.launchers| <= |m'.launchers|
            && (forall l :: 0 <= l < |m.launchers| ==> Evolved(m.launchers[l], m'.launchers[l]))
            && (forall l :: |m.launchers| <= l < |m'.launchers| ==> m'.launchers[l].call == |m.calls| && !m'.launchers[l].joined)
  {
    forall l | 0 <= l < |m.launchers| ensures Evolved(m.launchers[l], Next(m, t).launchers[l]) {
      assert LauncherOk(m, l);
    }
  }

  /** Steps that leave alone what was sent by the launchers of a call. */
  lemma CallKept(m: System, m': System, c: nat)
    requires c < |m.calls| && c < |m'.calls| && CallOk(m, c)
    requires Sent(m'.calls[c]) == Sent(m.calls[c]) && m.registered <= m'.registered && |m.launchers| <= |m'.launchers|
    requires forall l :: 0 <= l < |m.launchers| ==> Evolved(m.launchers[l], m'.launchers[l])
    requires forall l :: |m.launchers| <= l < |m'.launchers| ==> m'.launchers[l].call != c
    requires m'.calls[c].result.Success? ==> m'.calls[c].queue == [] && AllFinished(m', c)
    ensures CallOk(m', c)
  {
    var s := Sent(m.calls[c]);
    forall k | 0 <= k < |s| ensures ExecutorOk(m', c, s[k]) {
      assert ExecutorOk(m, c, s[k]);
    }
  }

  lemma JoinKeeps(m: System, t: Step, c: nat)
    requires Inv(m) && Enabled(m, t) && t.Join? && c < |m.calls|
    ensures CallOk(Next(m, t), c)
  {
    var m' := Next(m, t);
    assert CallOk(m, c) && LauncherOk(m, t.l);
    var s, s' := Sent(m.calls[c]), Sent(m'.calls[c]);
    if c == m.launchers[t.l].call {
      var e := m'.calls[c].queue[|m'.calls[c].queue| - 1];
      assert s' == s + [e];
      assert s'[|s|].launcher == t.l;
      forall l | 0 <= l < |m.launchers| && m'.launchers[l].call == c && m'.launchers[l].joined ensures SentBy(s', l) {
        if l != t.l {
          var k :| 0 <= k < |s| && s[k].launcher == l;
          assert s'[k].launcher == l;
        }
      }
    }
    forall k | 0 <= k < |s| ensures ExecutorOk(m', c, s[k]) {
      assert ExecutorOk(m, c, s[k]);
    }
  }

  lemma CallsKeep(m: System, t: Step, c: nat)
    requires Inv(m) && Enabled(m, t) && c < |Next(m, t).calls|
    ensures CallOk(Next(m, t), c)
  {
    var m' := Next(m, t);
    if c == |m.calls| {
      NewCallKeeps(m, t);
    } else if t.Join? {
      JoinKeeps(m, t, c);
    } else {
      LaunchersEvolve(m, t);
      assert CallOk(m, c);
      assert Sent(m'.calls[c]) == Sent(m.calls[c]);
      FinishedStays(m, t, c);
      CallKept(m, m', c);
    }
  }

  lemma FinishedStays(m: System, t: Step, c: nat)
    requires Inv(m) && Enabled(m, t) && !t.Join? && c < |m.calls|
    ensures var m' := Next(m, t); m'.calls[c].result.Success? ==> m'.calls[c].queue == [] && AllFinished(m', c)
  {
    assert CallOk(m, c);
    LaunchersEvolve(m, t);
  }

  lemma NewCallKeeps(m: System, t: Step)
    requires Inv(m) && Enabled(m, t) && |Next(m, t).calls| > |m.calls|
    ensures CallOk(Next(m, t), |m.calls|)
  {
    forall l | 0 <= l < |m.launchers| ensures m.launchers[l].call < |m.calls| {
      assert LauncherOk(m, l);
    }
  }

  /** Every step keeps the invariant. */
  lemma StepKeeps(m: System, t: Step)
    requires Inv(m) && Enabled(m, t)
    ensures Inv(Next(m, t))
  {
    var m' := Next(m, t);
    forall l | 0 <= l < |m'.launchers| ensures LauncherOk(m', l) {
      LaunchersKeep(m, t, l);
    }
    DropletsKeep(m, t);
    WaitKeeps(m, t);
    forall c | 0 <= c < |m'.calls| ensures CallOk(m', c) && CountsOk(m', c) {
      CallsKeep(m, t, c);
      CountsKeep(m, t, c);
    }
  }

  lemma {:induction false} NewLaunchers(ls: seq<Launcher>, a: nat, c: nat)
    requires a <= |ls| && forall l :: 0 <= l < |ls| ==> (ls[l].call == c <==> a <= l)
    ensures |LaunchersOf(ls, c)| == |ls| - a
  {
    if a == |ls| {
      assert LaunchersOf(ls, c) == {};
    } else {
      var n := |ls| - 1;
      NewLaunchers(ls[..n], a, c);
      assert LaunchersOf(ls, c) == LaunchersOf(ls[..n], c) + {n};
    }
  }

  lemma SizeKeeps(m: System, t: Step, c: nat)
    requires Inv(m) && Enabled(m, t) && c < |Next(m, t).calls|
    ensures |LaunchersOf(Next(m, t).launchers, c)| == Next(m, t).calls[c].count
  {
    var m' := Next(m, t);
    forall l | 0 <= l < |m.launchers| ensures m.launchers[l].call < |m.calls| {
      assert LauncherOk(m, l);
    }
    var s := LaunchersOf(m'.launchers, c);
    if c == |m.calls| {
      NewLaunchers(m'.launchers, |m.launchers|, c);
    } else {
      assert CountsOk(m, c);
      assert s == LaunchersOf(m.launchers, c);
    }
  }

  lemma MissedStays(m: System, t: Step, c: nat, l: nat)
    requires Inv(m) && Enabled(m, t) && MissedBy(m, c, l)
    ensures MissedBy(Next(m, t), c, l)
  {
    assert LauncherOk(m, l);
  }

  lemma CountsKeep(m: System, t: Step, c: nat)
    requires Inv(m) && Enabled(m, t) && c < |Next(m, t).calls|
    ensures CountsOk(Next(m, t), c)
  {
    var m' := Next(m, t);
    SizeKeeps(m, t, c);
    if c < |m.calls| && m.calls[c].errors > 0 {
      assert CountsOk(m, c);
      var l :| MissedBy(m, c, l);
      MissedStays(m, t, c, l);
    } else if m'.calls[c].errors > 0 {
      assert LauncherOk(m, t.l);
      assert MissedBy(m', c, t.l);
    }
  }

  // ---- Whole runs ----

  predicate Possible(m: System, ts: seq<Step>)
    decreases |ts|
  {
    ts == [] || (Enabled(m, ts[0]) && Possible(Next(m, ts[0]), ts[1..]))
  }

  function Run(m: System, ts: seq<Step>): System
    requires Possible(m, ts)
    decreases |ts|
  {
    if ts == [] then m else Run(Next(m, ts[0]), ts[1..])
  }

  lemma {:induction false} RunKeeps(m: System, ts: seq<Step>)
    requires Inv(m) && Possible(m, ts)
    ensures Inv(Run(m, ts))
    decreases |ts|
  {
    if ts != [] {
      StepKeeps(m, ts[0]);
      RunKeeps(Next(m, ts[0]), ts[1..]);
    }
  }

  /** In every run, waitDroplets has exactly the droplets whose launchers have not finished, none
      of them was deleted as unexpected, and a launcher only gets a port of its own droplet. */
  lemma WaitDropletsAreExact(ts: seq<Step>)
    requires Possible(Initial(), ts)
    ensures var m := Run(Initial(), ts);
            && (forall d :: d in m.wait <==> exists l :: Owns(m, l, d))
            && (forall l, d :: Owns(m, l, d) ==> d !in m.deleted)
            && (forall l :: 0 <= l < |m.launchers| && m.launchers[l].phase.GotPort? ==>
                  m.launchers[l].droplet.Some? && Registration(m.launchers[l].droplet.value, m.launchers[l].phase.port) in m.registered)
  {
    RunKeeps(Initial(), ts);
    var m := Run(Initial(), ts);
    forall l, d | Owns(m, l, d) ensures d in m.wait && d !in m.deleted {
      assert LauncherOk(m, l);
    }
    forall l | 0 <= l < |m.launchers| && m.launchers[l].phase.GotPort?
      ensures m.launchers[l].droplet.Some? && Registration(m.launchers[l].droplet.value, m.launchers[l].phase.port) in m.registered
    {
      assert LauncherOk(m, l);
    }
  }

  /** In every run, a call that succeeds has exactly the executors of its launchers that joined:
      one for each, with distinct droplets and with ports that those registered. */
  lemma SuccessIsExact(ts: seq<Step>, c: nat)
    requires Possible(Initial(), ts) && c < |Run(Initial(), ts).calls| && Run(Initial(), ts).calls[c].result.Success?
    ensures var m := Run(Initial(), ts);
            var es := m.calls[c].executors;
            && (forall l :: 0 <= l < |m.launchers| && m.launchers[l].call == c ==> (m.launchers[l].joined <==> SentBy(es, l)))
            && (forall k :: 0 <= k < |es| ==> ExecutorOk(m, c, es[k]))
            && (forall j, k :: 0 <= j < k < |es| ==> es[j].launcher != es[k].launcher && es[j].droplet != es[k].droplet)
            && AllFinished(m, c)
  {
    RunKeeps(Initial(), ts);
    var m := Run(Initial(), ts);
    assert CallOk(m, c);
    var es := m.calls[c].executors;
    assert Sent(m.calls[c]) == es;
    forall j, k | 0 <= j < k < |es| ensures es[j].droplet != es[k].droplet {
      assert ExecutorOk(m, c, es[j]) && ExecutorOk(m, c, es[k]);
    }
    forall l: nat | SentBy(es, l) ensures l < |m.launchers| && m.launchers[l].joined {
      var k :| 0 <= k < |es| && es[k].launcher == l;
      assert ExecutorOk(m, c, es[k]);
    }
  }

  function Senders(es: seq<Executor>): set<nat> {
    set k | 0 <= k < |es| :: es[k].launcher
  }

  lemma {:induction false} DistinctSize(es: seq<Executor>)
    requires forall j, k :: 0 <= j < k < |es| ==> es[j].launcher != es[k].launcher
    ensures |Senders(es)| == |es|
  {
    if es != [] {
      var n := |es| - 1;
      DistinctSize(es[..n]);
      assert forall k :: 0 <= k < n ==> es[..n][k] == es[k];
      assert Senders(es) == Senders(es[..n]) + {es[n].launcher};
      assert es[n].launcher !in Senders(es[..n]);
    }
  }

  lemma SizeOfSubset(a: set<nat>, b: set<nat>)
    requires a <= b
    ensures |a| <= |b| && (|a| == |b| <==> a == b)
  {
    var rest := b - a;
    assert b == a + rest;
    if rest != {} {
      assert |rest| > 0;
    }
  }

  /** A call that succeeds has all the executors asked for exactly if every launcher joined: in
      any case when there was no error and no cancellation, and never when there was an error,
      though the call may succeed with an error pending. */
  lemma FullSuccessIff(ts: seq<Step>, c: nat)
    requires Possible(Initial(), ts) && c < |Run(Initial(), ts).calls| && Run(Initial(), ts).calls[c].result.Success?
    ensures var m := Run(Initial(), ts);
            var call := m.calls[c];
            && |call.executors| <= call.count
            && (|call.executors| == call.count <==>
                  forall l :: 0 <= l < |m.launchers| && m.launchers[l].call == c ==> m.launchers[l].joined)
            && (call.errors == 0 && !call.cancelled ==> |call.executors| == call.count)
            && (call.errors > 0 ==> |call.executors| < call.count)
  {
    SuccessIsExact(ts, c);
    RunKeeps(Initial(), ts);
    var m := Run(Initial(), ts);
    var es := m.calls[c].executors;
    var joined := Senders(es);
    var all := LaunchersOf(m.launchers, c);
    assert CountsOk(m, c);
    forall l | l in joined ensures l in all && m.launchers[l].joined {
      var k :| 0 <= k < |es| && es[k].launcher == l;
      assert ExecutorOk(m, c, es[k]);
    }
    forall l | l in all && m.launchers[l].joined ensures l in joined {
      assert SentBy(es, l);
    }
    DistinctSize(es);
    SizeOfSubset(joined, all);
    forall l | 0 <= l < |m.launchers| && m.launchers[l].call == c && !m.launchers[l].joined
      ensures m.calls[c].errors > 0 || m.calls[c].cancelled
    {
      assert LauncherOk(m, l) && AllFinished(m, c);
    }
    if m.calls[c].errors > 0 {
      var l :| MissedBy(m, c, l);
      assert l in all && l !in joined;
    }
  }

  // ---- When a registration gets through ----

  /** The registrations of a run, by droplet. */
  predicate RegistersOnce(ts: seq<Step>) {
    forall j, k :: 0 <= j < k < |ts| && ts[j].Register? && ts[k].Register? ==> ts[j].id != ts[k].id
  }

  /** Only droplets that have registered have a port in their channel. */
  ghost predicate Quiet(m: System, seen: set<nat>) {
    m.blocked.None? && forall d :: d in m.wait && m.wait[d].Some? ==> d in seen
  }

  lemma {:induction false} QuietRun(m: System, ts: seq<Step>, seen: set<nat>)
    requires Possible(m, ts) && RegistersOnce(ts) && Quiet(m, seen)
    requires forall k :: 0 <= k < |ts| && ts[k].Register? ==> ts[k].id !in seen
    ensures Run(m, ts).blocked.None?
    decreases |ts|
  {
    if ts != [] {
      var seen' := if ts[0].Register? then seen + {ts[0].id} else seen;
      assert Quiet(Next(m, ts[0]), seen');
      forall k | 0 <= k < |ts[1..]| && ts[1..][k].Register? ensures ts[1..][k].id !in seen' {
        assert ts[1..][k] == ts[k + 1];
      }
      QuietRun(Next(m, ts[0]), ts[1..], seen');
    }
  }

  /** In every run in which no droplet registers twice, every registration gets through. */
  lemma OnceNeverBlocks(ts: seq<Step>)
    requires Possible(Initial(), ts) && RegistersOnce(ts)
    ensures Run(Initial(), ts).blocked.None?
  {
    QuietRun(Initial(), ts, {});
  }

  /** The port of an earlier registration of the droplet is still in its channel. */
  predicate ChannelFull(m: System, id: nat) {
    id in m.wait && m.wait[id].Some?
  }

  /** A launcher is still going to read the channel, unless it is cancelled. */
  ghost predicate Awaited(m: System, id: nat) {
    exists l: nat :: Owns(m, l, id) && m.launchers[l].phase == Waiting
  }

  /** A registration holds the lock and waits for room in a channel that no launcher reads any
      more. */
  ghost predicate Deadlocked(m: System) {
    m.blocked.Some? && ChannelFull(m, m.blocked.value.droplet) && !Awaited(m, m.blocked.value.droplet)
  }

  /** Before the call: a registration blocks exactly if the droplet's channel is full, and it
      blocks for good from the start exactly if, besides, the droplet's launcher has taken its
      port or has seen the cancellation. */
  lemma RegisterBlocksIff(m: System, id: nat, port: nat)
    requires Inv(m) && m.blocked.None?
    ensures var m' := Next(m, Register(id, port));
            && (m'.blocked.Some? <==> ChannelFull(m, id))
            && (Deadlocked(m') <==> ChannelFull(m, id) && !Awaited(m, id))
  {
    var m' := Next(m, Register(id, port));
    assert forall l: nat :: Owns(m', l, id) <==> Owns(m, l, id);
  }

  lemma StepStaysDeadlocked(m: System, t: Step)
    requires Inv(m) && Enabled(m, t) && Deadlocked(m)
    ensures Deadlocked(Next(m, t)) && Next(m, t).blocked == m.blocked
  {
    var m', d := Next(m, t), m.blocked.value.droplet;
    if t.TakePort? {
      assert LauncherOk(m, t.l);
      assert !Owns(m, t.l, d);
    }
    forall l: nat | Owns(m', l, d) ensures m'.launchers[l].phase != Waiting {
      assert l < |m.launchers| && Owns(m, l, d);
    }
  }

  /** Once it is so, it stays so: over every continuation the lock is never released. */
  lemma {:induction false} StaysDeadlocked(m: System, ts: seq<Step>)
    requires Inv(m) && Possible(m, ts) && Deadlocked(m)
    ensures Deadlocked(Run(m, ts)) && Run(m, ts).blocked == m.blocked
    decreases |ts|
  {
    if ts != [] {
      StepStaysDeadlocked(m, ts[0]);
      StepKeeps(m, ts[0]);
      StaysDeadlocked(Next(m, ts[0]), ts[1..]);
    }
  }

  /** And not before: a registration that is blocked but not deadlocked can get through, in one
      step or after its launcher has taken the port. */
  lemma BlockedCanProceed(m: System)
    requires Inv(m) && m.blocked.Some?
    ensures !Deadlocked(m) <==>
      Enabled(m, Unblock) || exists l :: Enabled(m, TakePort(l)) && Enabled(Next(m, TakePort(l)), Unblock)
  {
    var d := m.blocked.value.droplet;
    if Deadlocked(m) {
      forall l | Enabled(m, TakePort(l)) ensures !Enabled(Next(m, TakePort(l)), Unblock) {
        StepStaysDeadlocked(m, TakePort(l));
      }
    } else if m.wait[d].Some? {
      var l: nat :| Owns(m, l, d) && m.launchers[l].phase == Waiting;
      assert LauncherOk(m, l);
      assert Enabled(m, TakePort(l));
    }
  }

  /** Two registrations of one droplet are enough, as when its service restarts: here the call
      is cancelled between them. */
  lemma SecondRegistrationDeadlocks()
    ensures var ts := [Launch(1), Create(0, 7), CancelCall(0), Register(7, 1), SeeCancel(0), Register(7, 2)];
            Possible(Initial(), ts) && Deadlocked(Run(Initial(), ts))
  {
    var call, cancelled := [Call(1, [], [], 0, false, Running)], [Call(1, [], [], 0, true, Running)];
    var waiting, leaving := [Launcher(0, Waiting, Some(7), false)], [Launcher(0, Leaving, Some(7), false)];
    var r1, r2 := Registration(7, 1), Registration(7, 2);
    var m1 := System(call, [Launcher(0, Creating, None, false)], map[], None, {}, {}, {});
    var m2 := System(call, waiting, map[7 := None], None, {7}, {}, {});
    var m3 := System(cancelled, waiting, map[7 := None], None, {7}, {}, {});
    var m4 := System(cancelled, waiting, map[7 := Some(1)], None, {7}, {}, {r1});
    var m5 := System(cancelled, leaving, map[7 := Some(1)], None, {7}, {}, {r1});
    var m6 := System(cancelled, leaving, map[7 := Some(1)], Some(r2), {7}, {}, {r1, r2});
    assert Deadlocked(m6);
    assert Next(Initial(), Launch(1)) == m1;
    assert Next(m1, Create(0, 7)) == m2;
    assert Next(m2, CancelCall(0)) == m3;
    assert Next(m3, Register(7, 1)) == m4;
    assert Next(m4, SeeCancel(0)) == m5;
    assert Next(m5, Register(7, 2)) == m6;
    hide Next, Deadlocked, Enabled;
    RunsTo(m5, [Register(7, 2)]);
    RunsTo(m4, [SeeCancel(0), Register(7, 2)]);
    RunsTo(m3, [Register(7, 1), SeeCancel(0), Register(7, 2)]);
    RunsTo(m2, [CancelCall(0), Register(7, 1), SeeCancel(0), Register(7, 2)]);
    RunsTo(m1, [Create(0, 7), CancelCall(0), Register(7, 1), SeeCancel(0), Register(7, 2)]);
    RunsTo(Initial(), [Launch(1), Create(0, 7), CancelCall(0), Register(7, 1), SeeCancel(0), Register(7, 2)]);
  }

  lemma RunsTo(m: System, ts: seq<Step>)
    requires ts != [] && Enabled(m, ts[0]) && Possible(Next(m, ts[0]), ts[1..])
    ensures Possible(m, ts) && Run(m, ts) == Run(Next(m, ts[0]), ts[1..])
  {
  }
}
