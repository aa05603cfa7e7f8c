/**
  Flow control of outgoing DATA frames (sections 5.2 and 6.9 of RFC 7540). Quota pools for the
  connection and for each stream collect the credit that the peer grants; any number of writers
  take from them, give back what they overbooked, and may give up at each of their waits. Every
  body under a mutex and every channel operation is one step, and the steps of all writers, of
  the reader (window updates) and of the controller (settings) interleave arbitrarily.
 */
module GrpcSendFlow {
  import opened Basics

  const MAX_FRAME: nat := 16384

  // ---- Quota pools ----

  /** The amount set aside and the amount offered on the one-slot channel. */
  datatype Pool = Pool(quota: int, offered: Option<int>)

  function Total(p: Pool): int {
    p.quota + if p.offered.Some? then p.offered.value else 0
  }

  predicate PoolOk(p: Pool) {
    p.quota >= 0 && (p.offered.Some? ==> p.offered.value > 0)
  }

  function NewPool(q: int): (p: Pool)
    ensures Total(p) == q && (q >= 0 ==> PoolOk(p))
  {
    if q > 0 then Pool(0, Some(q)) else Pool(q, None)
  }

  /** What add and reset do last: offer the quota if there is any and the channel is empty. */
  function Offer(p: Pool): (r: Pool)
    ensures Total(r) == Total(p) && (PoolOk(p) ==> PoolOk(r))
    ensures PoolOk(p) && Total(p) > 0 ==> r.offered.Some?
  {
    if p.quota > 0 && p.offered.None? then Pool(0, Some(p.quota)) else p
  }

  function Add(p: Pool, n: int): (r: Pool)
    ensures Total(r) == Total(p) + n && (PoolOk(p) && n >= 0 ==> PoolOk(r))
    ensures PoolOk(p) && n >= 0 && Total(p) + n > 0 ==> r.offered.Some?
  {
    Offer(p.(quota := p.quota + n))
  }

  function Cancel(p: Pool): (r: Pool)
    ensures Total(r) == Total(p) && r.offered.None? && (PoolOk(p) ==> PoolOk(r))
  {
    Pool(Total(p), None)
  }

  function Reset(p: Pool, v: int): (r: Pool)
    ensures Total(r) == Total(p) + v && (PoolOk(p) && v >= 0 ==> PoolOk(r))
  {
    Add(Cancel(p), v)
  }

  function Take(p: Pool): (r: Pool)
    requires p.offered.Some?
    ensures Total(r) + p.offered.value == Total(p) && (PoolOk(p) ==> PoolOk(r))
  {
    p.(offered := None)
  }

  /** The pool as an object; each method is atomic. */
  class QuotaPool {
    var quota: int
    var c: Option<int>

    ghost function State(): Pool
      reads this
    {
      Pool(quota, c)
    }

    constructor (q: int)
      ensures State() == NewPool(q)
    {
      quota, c := 0, None;
      if q > 0 {
        c := Some(q);
      } else {
        quota := q;
      }
    }

    method AddQuota(n: int)
      modifies this
      ensures State() == Add(old(State()), n)
    {
      quota := quota + n;
      if quota <= 0 {
        return;
      }
      if c.None? {
        c, quota := Some(quota), 0;
      }
    }

    method CancelOffer()
      modifies this
      ensures State() == Cancel(old(State()))
    {
      if c.Some? {
        quota, c := quota + c.value, None;
      }
    }

    method ResetQuota(v: int)
      modifies this
      ensures State() == Reset(old(State()), v)
    {
      if c.Some? {
        quota, c := quota + c.value, None;
      }
      quota := quota + v;
      if quota <= 0 {
        return;
      }
      if c.None? {
        c, quota := Some(quota), 0;
      }
    }
  }

  // ---- The system ----

  /** Where a call of Write stands. */
  datatype Phase =
    | Begin
    | AwaitStream
    | GotStream(sq: int)
    | AwaitConn(sq: int)
    | GotBoth(sq: int, tq: int, ps: int)
    | Returned(tq: int, ps: int)
    | AwaitWritable(ps: int)
    | Done
    | Failed

  datatype Writer = Writer(stream: nat, remaining: int, phase: Phase)

  /** `credit` is what the peer has granted; `lost` is what writers that gave up took along. */
  datatype Stream = Stream(pool: Pool, credit: int, active: bool, lost: int, leaked: bool)

  datatype Frame = Frame(stream: nat, size: int)

  /** The connection's own pool, accounted for in the same way. */
  datatype Conn = Conn(pool: Pool, credit: int, lost: int, leaked: bool)

  datatype System = System(
    streams: seq<Stream>,
    writers: seq<Writer>,
    conn: Conn,
    window: nat,
    frames: seq<Frame>)

  /** What one writer works on: its own state, its stream, the connection, and a frame it sends. */
  datatype View = View(writer: Writer, stream: Stream, conn: Conn, frame: Option<int>)

  datatype Step =
    | OpenStream
    | CloseStream(s: nat)
    | StartWrite(s: nat, n: nat)
    | ConnUpdate(n: nat)
    | StreamUpdate(s: nat, n: nat)
    | ApplyWindow(v: nat)
    | Proceed(w: nat)
    | GiveUp(w: nat, streamError: bool)

  function Min(a: int, b: int): int {
    if a < b then a else b
  }

  /** The bytes that go into the next frame. */
  function FrameSize(sq: int, tq: int, remaining: int): (ps: int)
    ensures sq > 0 && tq > 0 && remaining > 0 ==> 0 < ps <= MAX_FRAME
    ensures ps <= sq && ps <= tq && ps <= remaining
  {
    Min(Min(Min(MAX_FRAME, sq), tq), remaining)
  }

  predicate Enabled(m: System, t: Step) {
    match t
    case OpenStream => true
    case CloseStream(s) => s < |m.streams|
    case StartWrite(s, _) => s < |m.streams|
    case ConnUpdate(_) => true
    case StreamUpdate(s, _) => s < |m.streams|
    case ApplyWindow(v) => v >= m.window
    case Proceed(w) =>
      && w < |m.writers| && m.writers[w].stream < |m.streams|
      && CanProceed(m.writers[w], m.streams[m.writers[w].stream].pool, m.conn.pool)
    case GiveUp(w, _) => w < |m.writers| && m.writers[w].stream < |m.streams| && Waiting(m.writers[w].phase)
  }

  predicate Waiting(p: Phase) {
    p.AwaitStream? || p.AwaitConn? || p.AwaitWritable?
  }

  /** The first two waits end when there is an offer; the third when the connection is free. */
  predicate CanProceed(w: Writer, stream: Pool, conn: Pool) {
    && !w.phase.Done? && !w.phase.Failed?
    && (w.phase.AwaitStream? ==> stream.offered.Some?)
    && (w.phase.AwaitConn? ==> conn.offered.Some?)
  }

  /** Raising the initial window grants the difference to each active stream. */
  function Raise(s: Stream, more: nat): Stream {
    if s.active then s.(pool := Reset(s.pool, more), credit := s.credit + more) else s
  }

  function Next(m: System, t: Step): System
    requires Enabled(m, t)
  {
    match t
    case OpenStream =>
      m.(streams := m.streams + [Stream(NewPool(m.window), m.window, true, 0, false)])
    case CloseStream(s) =>
      m.(streams := m.streams[s := m.streams[s].(active := false)])
    case StartWrite(s, n) =>
      m.(writers := m.writers + [Writer(s, n, Begin)])
    case ConnUpdate(n) =>
      m.(conn := m.conn.(pool := Add(m.conn.pool, n), credit := m.conn.credit + n))
    case StreamUpdate(s, n) =>
      if m.streams[s].active then
        m.(streams := m.streams[s := m.streams[s].(pool := Add(m.streams[s].pool, n), credit := m.streams[s].credit + n)])
      else m
    case ApplyWindow(v) =>
      m.(streams := seq(|m.streams|, i requires 0 <= i < |m.streams| => Raise(m.streams[i], v - m.window)), window := v)
    case Proceed(w) => Update(m, w, Advance(ViewOf(m, w)))
    case GiveUp(w, streamError) => Update(m, w, Abandon(ViewOf(m, w), streamError))
  }

  function ViewOf(m: System, w: nat): View
    requires w < |m.writers| && m.writers[w].stream < |m.streams|
  {
    View(m.writers[w], m.streams[m.writers[w].stream], m.conn, None)
  }

  function Update(m: System, w: nat, v: View): System
    requires w < |m.writers| && m.writers[w].stream < |m.streams|
  {
    var s := m.writers[w].stream;
    m.(writers := m.writers[w := v.writer], streams := m.streams[s := v.stream], conn := v.conn,
       frames := if v.frame.None? then m.frames else m.frames + [Frame(s, v.frame.value)])
  }

  function To(v: View, p: Phase): View {
    v.(writer := v.writer.(phase := p))
  }

  function AddStream(v: View, n: int): View {
    v.(stream := v.stream.(pool := Add(v.stream.pool, n)))
  }

  function AddConn(v: View, n: int): View {
    v.(conn := v.conn.(pool := Add(v.conn.pool, n)))
  }

  function LoseStream(v: View, n: int): View {
    v.(stream := v.stream.(lost := v.stream.lost + n, leaked := true))
  }

  function LoseConn(v: View, n: int): View {
    v.(conn := v.conn.(lost := v.conn.lost + n, leaked := true))
  }

  /** The next step of a call of Write. */
  function Advance(v: View): View
    requires CanProceed(v.writer, v.stream.pool, v.conn.pool)
  {
    var remaining := v.writer.remaining;
    match v.writer.phase
    case Begin =>
      if remaining == 0 then To(v, AwaitWritable(0)) else To(AddStream(v, 0), AwaitStream)
    case AwaitStream =>
      To(v.(stream := v.stream.(pool := Take(v.stream.pool))), GotStream(v.stream.pool.offered.value))
    case GotStream(sq) => To(AddConn(v, 0), AwaitConn(sq))
    case AwaitConn(sq) =>
      var tq := v.conn.pool.offered.value;
      To(v.(conn := v.conn.(pool := Take(v.conn.pool))), GotBoth(sq, tq, FrameSize(sq, tq, remaining)))
    case GotBoth(sq, tq, ps) => To(if ps < sq then AddStream(v, sq - ps) else v, Returned(tq, ps))
    case Returned(tq, ps) => To(if ps < tq then AddConn(v, tq - ps) else v, AwaitWritable(ps))
    case AwaitWritable(ps) =>
      v.(writer := v.writer.(remaining := remaining - ps, phase := if ps == remaining then Done else Begin),
         frame := Some(ps))
    case _ => v
  }

  /** A wait ends with an error: what the writer holds at that point is not given back. */
  function Abandon(v: View, streamError: bool): View
    requires Waiting(v.writer.phase)
  {
    match v.writer.phase
    case AwaitStream => To(v, Failed)
    case AwaitConn(sq) =>
      var v' := if streamError then v.(conn := v.conn.(pool := Cancel(v.conn.pool))) else v;
      To(LoseStream(v', sq), Failed)
    case AwaitWritable(ps) =>
      if ps == 0 then To(v, Failed) else To(LoseStream(LoseConn(v, ps), ps), Failed)
  }

  // ---- Accounting ----

  /** Stream quota in the hands of a writer. */
  function StreamHeld(p: Phase): int {
    match p
    case GotStream(sq) => sq
    case AwaitConn(sq) => sq
    case GotBoth(sq, _, _) => sq
    case Returned(_, ps) => ps
    case AwaitWritable(ps) => ps
    case _ => 0
  }

  /** Connection quota in the hands of a writer. */
  function ConnHeld(p: Phase): int {
    match p
    case GotBoth(_, tq, _) => tq
    case Returned(tq, _) => tq
    case AwaitWritable(ps) => ps
    case _ => 0
  }

  function HeldOn(ws: seq<Writer>, s: nat): int {
    if ws == [] then 0
    else
      var last := ws[|ws| - 1];
      HeldOn(ws[..|ws| - 1], s) + if last.stream == s then StreamHeld(last.phase) else 0
  }

  function HeldOnConn(ws: seq<Writer>): int {
    if ws == [] then 0 else HeldOnConn(ws[..|ws| - 1]) + ConnHeld(ws[|ws| - 1].phase)
  }

  /** DATA bytes sent on a stream, and on the connection. */
  function SentOn(fs: seq<Frame>, s: nat): int {
    if fs == [] then 0
    else
      var last := fs[|fs| - 1];
      SentOn(fs[..|fs| - 1], s) + if last.stream == s then last.size else 0
  }

  function SentOnConn(fs: seq<Frame>): int {
    if fs == [] then 0 else SentOnConn(fs[..|fs| - 1]) + fs[|fs| - 1].size
  }

  // ---- The invariant ----

  predicate WriterOk(w: Writer, streams: nat) {
    && w.stream < streams && w.remaining >= 0
    && match w.phase
       case GotStream(sq) => sq > 0 && w.remaining > 0
       case AwaitConn(sq) => sq > 0 && w.remaining > 0
       case AwaitStream => w.remaining > 0
       case GotBoth(sq, tq, ps) => 0 < ps <= sq && ps <= tq && ps <= w.remaining && ps <= MAX_FRAME
       case Returned(tq, ps) => 0 < ps <= tq && ps <= w.remaining && ps <= MAX_FRAME
       case AwaitWritable(ps) => 0 <= ps <= w.remaining && ps <= MAX_FRAME && (ps == 0 ==> w.remaining == 0)
       case _ => true
  }

  /** Conservation on one stream. */
  predicate StreamOk(m: System, s: nat)
    requires s < |m.streams|
  {
    var st := m.streams[s];
    && PoolOk(st.pool) && st.lost >= 0 && (st.lost > 0 <==> st.leaked)
    && Total(st.pool) + HeldOn(m.writers, s) + SentOn(m.frames, s) + st.lost == st.credit
  }

  predicate ConnOk(m: System) {
    && PoolOk(m.conn.pool) && m.conn.lost >= 0 && (m.conn.lost > 0 <==> m.conn.leaked)
    && Total(m.conn.pool) + HeldOnConn(m.writers) + SentOnConn(m.frames) + m.conn.lost == m.conn.credit
  }

  predicate Inv(m: System) {
    && (forall w :: 0 <= w < |m.writers| ==> WriterOk(m.writers[w], |m.streams|))
    && (forall s :: 0 <= s < |m.streams| ==> StreamOk(m, s))
    && ConnOk(m)
    && (forall k :: 0 <= k < |m.frames| ==> m.frames[k].stream < |m.streams| && m.frames[k].size <= MAX_FRAME)
  }

  lemma {:induction false} HeldOnUpdate(ws: seq<Writer>, w: nat, x: Writer, s: nat)
    requires w < |ws|
    ensures HeldOn(ws[w := x], s)
            == HeldOn(ws, s) - (if ws[w].stream == s then StreamHeld(ws[w].phase) else 0)
                             + (if x.stream == s then StreamHeld(x.phase) else 0)
  {
    var n := |ws| - 1;
    if w == n {
      assert ws[w := x][..n] == ws[..n];
    } else {
      assert ws[w := x][..n] == ws[..n][w := x];
      HeldOnUpdate(ws[..n], w, x, s);
    }
  }

  lemma {:induction false} HeldOnConnUpdate(ws: seq<Writer>, w: nat, x: Writer)
    requires w < |ws|
    ensures HeldOnConn(ws[w := x]) == HeldOnConn(ws) - ConnHeld(ws[w].phase) + ConnHeld(x.phase)
  {
    var n := |ws| - 1;
    if w == n {
      assert ws[w := x][..n] == ws[..n];
    } else {
      assert ws[w := x][..n] == ws[..n][w := x];
      HeldOnConnUpdate(ws[..n], w, x);
    }
  }

  /** Writers hold nothing on a stream that they do not belong to. */
  lemma {:induction false} HeldOnNone(ws: seq<Writer>, s: nat)
    requires forall w :: 0 <= w < |ws| ==> ws[w].stream != s
    ensures HeldOn(ws, s) == 0
  {
    if ws != [] {
      HeldOnNone(ws[..|ws| - 1], s);
    }
  }

  lemma {:induction false} SentOnNone(fs: seq<Frame>, s: nat)
    requires forall k :: 0 <= k < |fs| ==> fs[k].stream != s
    ensures SentOn(fs, s) == 0
  {
    if fs != [] {
      SentOnNone(fs[..|fs| - 1], s);
    }
  }

  /** A writer's step is balanced: quota that leaves a pool is held, sent or lost. */
  ghost predicate Balanced(v: View, v': View) {
    var sent := if v'.frame.None? then 0 else v'.frame.value;
    && v'.writer.stream == v.writer.stream && sent <= MAX_FRAME
    && v'.stream.credit == v.stream.credit && v'.conn.credit == v.conn.credit
    && PoolOk(v'.stream.pool) && PoolOk(v'.conn.pool)
    && v'.stream.lost >= v.stream.lost && (v'.stream.leaked <==> v.stream.leaked || v'.stream.lost > v.stream.lost)
    && v'.conn.lost >= v.conn.lost && (v'.conn.leaked <==> v.conn.leaked || v'.conn.lost > v.conn.lost)
    && Total(v'.stream.pool) + StreamHeld(v'.writer.phase) + sent + v'.stream.lost
       == Total(v.stream.pool) + StreamHeld(v.writer.phase) + v.stream.lost
    && Total(v'.conn.pool) + ConnHeld(v'.writer.phase) + sent + v'.conn.lost
       == Total(v.conn.pool) + ConnHeld(v.writer.phase) + v.conn.lost
  }

  lemma AdvanceBalanced(v: View, streams: nat)
    requires CanProceed(v.writer, v.stream.pool, v.conn.pool) && v.frame.None?
    requires WriterOk(v.writer, streams) && PoolOk(v.stream.pool) && PoolOk(v.conn.pool)
    ensures WriterOk(Advance(v).writer, streams) && Balanced(v, Advance(v))
  {
    hide Add, Take, FrameSize;
  }

  lemma AbandonBalanced(v: View, streamError: bool, streams: nat)
    requires Waiting(v.writer.phase) && v.frame.None?
    requires WriterOk(v.writer, streams) && PoolOk(v.stream.pool) && PoolOk(v.conn.pool)
    ensures WriterOk(Abandon(v, streamError).writer, streams) && Balanced(v, Abandon(v, streamError))
  {
  }

  lemma UpdateKeeps(m: System, w: nat, v': View)
    requires Inv(m) && w < |m.writers| && m.writers[w].stream < |m.streams|
    requires WriterOk(v'.writer, |m.streams|) && Balanced(ViewOf(m, w), v')
    ensures Inv(Update(m, w, v'))
  {
    hide WriterOk, StreamHeld, ConnHeld, PoolOk, Total;
    var m' := Update(m, w, v');
    forall q | 0 <= q < |m.streams| ensures StreamOk(m', q) {
      assert StreamOk(m, q);
      HeldOnUpdate(m.writers, w, v'.writer, q);
      SentOnUpdate(m.frames, m'.frames, q);
    }
    HeldOnConnUpdate(m.writers, w, v'.writer);
    SentOnUpdate(m.frames, m'.frames, 0);
  }

  lemma SentOnUpdate(fs: seq<Frame>, fs': seq<Frame>, q: nat)
    requires fs' == fs || (|fs'| == |fs| + 1 && fs' == fs + [fs'[|fs|]])
    ensures fs' != fs ==>
      && SentOn(fs', q) == SentOn(fs, q) + (if fs'[|fs|].stream == q then fs'[|fs|].size else 0)
      && SentOnConn(fs') == SentOnConn(fs) + fs'[|fs|].size
  {
    if fs' != fs {
      assert fs'[..|fs|] == fs;
    }
  }

  lemma StreamKept(m: System, t: Step, q: nat)
    requires Inv(m) && Enabled(m, t) && !t.OpenStream? && !t.Proceed? && !t.GiveUp? && q < |m.streams|
    ensures StreamOk(Next(m, t), q)
  {
    assert StreamOk(m, q);
    if t.StartWrite? {
      assert Next(m, t).writers[..|m.writers|] == m.writers;
    }
  }

  lemma OpenStreamKeeps(m: System)
    requires Inv(m) && Enabled(m, OpenStream)
    ensures Inv(Next(m, OpenStream))
  {
    HeldOnNone(m.writers, |m.streams|);
    SentOnNone(m.frames, |m.streams|);
    var m' := Next(m, OpenStream);
    forall s | 0 <= s < |m'.streams| ensures StreamOk(m', s) {
      assert s < |m.streams| ==> StreamOk(m, s);
    }
  }

  /** Every step, by whomever, keeps the accounts. */
  lemma StepKeeps(m: System, t: Step)
    requires Inv(m) && Enabled(m, t)
    ensures Inv(Next(m, t))
  {
    if t.OpenStream? {
      OpenStreamKeeps(m);
    } else if t.Proceed? {
      assert StreamOk(m, m.writers[t.w].stream);
      AdvanceBalanced(ViewOf(m, t.w), |m.streams|);
      UpdateKeeps(m, t.w, Advance(ViewOf(m, t.w)));
    } else if t.GiveUp? {
      assert StreamOk(m, m.writers[t.w].stream);
      AbandonBalanced(ViewOf(m, t.w), t.streamError, |m.streams|);
      UpdateKeeps(m, t.w, Abandon(ViewOf(m, t.w), t.streamError));
    } else {
      forall q | 0 <= q < |m.streams| ensures StreamOk(Next(m, t), q) {
        StreamKept(m, t, q);
      }
      if t.StartWrite? {
        assert Next(m, t).writers[..|m.writers|] == m.writers;
      }
    }
  }

  // ---- Whole runs ----

  /** The connection before its first stream: both sides start from the same window. */
  function Initial(connWindow: nat, streamWindow: nat): System {
    System([], [], Conn(NewPool(connWindow), connWindow, 0, false), streamWindow, [])
  }

  predicate Possible(m: System, ts: seq<Step>)
    decreases |ts|
  {
    ts == [] || (Enabled(m, ts[0]) && Possible(Next(m, ts[0]), ts[1..]))
  }

  function Run(m: System, ts: seq<Step>): System
    requires Possible(m, ts)
    decreases |ts|
  {
    if ts == [] then m else Run(Next(m, ts[0]), ts[1..])
  }

  /** In this step a writer on the stream fails in a wait while it holds stream quota. */
  predicate FailsHolding(m: System, t: Step, s: nat) {
    t.GiveUp? && t.w < |m.writers| && m.writers[t.w].stream == s && StreamHeld(m.writers[t.w].phase) > 0
  }

  predicate FailsHoldingConn(m: System, t: Step) {
    t.GiveUp? && t.w < |m.writers| && ConnHeld(m.writers[t.w].phase) > 0
  }

  predicate SomeFails(m: System, ts: seq<Step>, s: nat)
    requires Possible(m, ts)
    decreases |ts|
  {
    ts != [] && (FailsHolding(m, ts[0], s) || SomeFails(Next(m, ts[0]), ts[1..], s))
  }

  predicate SomeFailsConn(m: System, ts: seq<Step>)
    requires Possible(m, ts)
    decreases |ts|
  {
    ts != [] && (FailsHoldingConn(m, ts[0]) || SomeFailsConn(Next(m, ts[0]), ts[1..]))
  }

  predicate Leaked(m: System, s: nat) {
    s < |m.streams| && m.streams[s].leaked
  }

  lemma StepLeaks(m: System, t: Step, s: nat)
    requires Inv(m) && Enabled(m, t)
    ensures Leaked(Next(m, t), s) <==> Leaked(m, s) || FailsHolding(m, t, s)
    ensures Next(m, t).conn.leaked <==> m.conn.leaked || FailsHoldingConn(m, t)
  {
    if t.GiveUp? || t.Proceed? {
      assert WriterOk(m.writers[t.w], |m.streams|);
    }
  }

  lemma {:induction false} RunKeeps(m: System, ts: seq<Step>, s: nat)
    requires Inv(m) && Possible(m, ts)
    ensures Inv(Run(m, ts))
    ensures Leaked(Run(m, ts), s) <==> Leaked(m, s) || SomeFails(m, ts, s)
    ensures Run(m, ts).conn.leaked <==> m.conn.leaked || SomeFailsConn(m, ts)
    decreases |ts|
  {
    if ts != [] {
      StepKeeps(m, ts[0]);
      StepLeaks(m, ts[0], s);
      RunKeeps(Next(m, ts[0]), ts[1..], s);
    }
  }

  lemma {:induction false} HeldNonNegative(ws: seq<Writer>, streams: nat, s: nat)
    requires forall w :: 0 <= w < |ws| ==> WriterOk(ws[w], streams)
    ensures HeldOn(ws, s) >= 0 && HeldOnConn(ws) >= 0
  {
    if ws != [] {
      assert WriterOk(ws[|ws| - 1], streams);
      HeldNonNegative(ws[..|ws| - 1], streams, s);
    }
  }

  /**
    Section 6.9.1 of RFC 7540, over every run: the bytes sent on a stream and on the connection
    never exceed the credit granted, and no frame is longer than 16384 bytes. Nothing of the
    credit is ever created, and the pools, the writers and the frames account for all of it
    exactly if no writer failed in a wait while holding quota.
   */
  lemma NeverExceedsCredit(connWindow: nat, streamWindow: nat, ts: seq<Step>, s: nat)
    requires Possible(Initial(connWindow, streamWindow), ts)
    ensures var m0 := Initial(connWindow, streamWindow);
            var m := Run(m0, ts);
            && SentOnConn(m.frames) <= m.conn.credit
            && Total(m.conn.pool) + HeldOnConn(m.writers) + SentOnConn(m.frames) <= m.conn.credit
            && (Total(m.conn.pool) + HeldOnConn(m.writers) + SentOnConn(m.frames) == m.conn.credit
                <==> !SomeFailsConn(m0, ts))
            && (forall k :: 0 <= k < |m.frames| ==> m.frames[k].size <= MAX_FRAME)
            && (s < |m.streams| ==>
                  && SentOn(m.frames, s) <= m.streams[s].credit
                  && Total(m.streams[s].pool) + HeldOn(m.writers, s) + SentOn(m.frames, s) <= m.streams[s].credit
                  && (Total(m.streams[s].pool) + HeldOn(m.writers, s) + SentOn(m.frames, s) == m.streams[s].credit
                      <==> !SomeFails(m0, ts, s)))
  {
    var m0 := Initial(connWindow, streamWindow);
    RunKeeps(m0, ts, s);
    var m := Run(m0, ts);
    HeldNonNegative(m.writers, |m.streams|, s);
    assert s < |m.streams| ==> StreamOk(m, s);
  }
}
