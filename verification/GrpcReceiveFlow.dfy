/**
  Flow control of incoming DATA frames (section 6.9 of RFC 7540). A stream's inFlow charges
  received bytes to itself and to the connection; reading them gives them back, and window
  updates are sent in batches of at least a quarter of the limit. The peer is any sender that
  keeps to the credit it was given. Frames and updates are under way for any length of time.
 */
module GrpcReceiveFlow {

  const TWO_32: nat := 0x1_0000_0000

  /** uint32 arithmetic. */
  function Add32(a: int, b: int): (r: nat)
    ensures 0 <= a + b < TWO_32 ==> r == a + b
  {
    (a + b) % TWO_32
  }

  function Sub32(a: int, b: int): (r: nat)
    ensures 0 <= a - b < TWO_32 ==> r == a - b
  {
    (a - b) % TWO_32
  }

  // ---- inFlow ----

  datatype Flow = Flow(limit: nat, pendingData: nat, pendingUpdate: nat)

  datatype Charged = Charged(stream: Flow, conn: Flow) | StreamError | ConnError

  predicate Exceeds(f: Flow, n: nat) {
    Add32(Add32(f.pendingData, f.pendingUpdate), n) > f.limit
  }

  /** onData, on a stream. */
  function OnData(s: Flow, c: Flow, n: nat): Charged {
    if n == 0 then Charged(s, c)
    else if Exceeds(s, n) then StreamError
    else if Exceeds(c, n) then ConnError
    else Charged(s.(pendingData := Add32(s.pendingData, n)), c.(pendingData := Add32(c.pendingData, n)))
  }

  datatype Read = Read(flow: Flow, update: nat)

  /** From data to update, and the update out when it is large enough. */
  function Consume(f: Flow, n: nat): Read {
    var g := f.(pendingData := Sub32(f.pendingData, n), pendingUpdate := Add32(f.pendingUpdate, n));
    if g.pendingUpdate >= g.limit / 4 then Read(g.(pendingUpdate := 0), g.pendingUpdate) else Read(g, 0)
  }

  /** connOnRead, on the connection. */
  function ConnOnRead(c: Flow, n: nat): Read {
    if n == 0 then Read(c, 0) else Consume(c, n)
  }

  /** onRead, on a stream. */
  function OnRead(s: Flow, c: Flow, n: nat): (Read, Read) {
    if n == 0 || s.pendingData == 0 then (Read(s, 0), Read(c, 0))
    else (Consume(s, n), ConnOnRead(c, n))
  }

  function RestoreConn(s: Flow, c: Flow): (Flow, Read) {
    (Flow(s.limit, 0, 0), ConnOnRead(c, s.pendingData))
  }

  class InFlow {
    const limit: nat
    const conn: InFlow?
    var pendingData: nat
    var pendingUpdate: nat

    constructor (limit: nat, conn: InFlow?)
      ensures State() == Flow(limit, 0, 0) && this.conn == conn
    {
      this.limit, this.conn := limit, conn;
      pendingData, pendingUpdate := 0, 0;
    }

    function State(): Flow
      reads this
    {
      Flow(limit, pendingData, pendingUpdate)
    }

    /** onData. The call on the connection's inFlow is the nested one. */
    method Charge(n: nat) returns (r: Charged)
      requires conn == null || (conn != this && conn.conn == null)
      modifies this, conn
      ensures conn != null ==> r == OnData(old(State()), old(conn.State()), n)
      ensures conn == null ==> r.Charged? == (n == 0 || !Exceeds(old(State()), n))
      ensures r.Charged? && conn != null ==> State() == r.stream && conn.State() == r.conn
      ensures r.Charged? && conn == null ==> State() == old(State()).(pendingData := if n == 0 then old(pendingData) else Add32(old(pendingData), n))
      ensures !r.Charged? ==> State() == old(State()) && (conn != null ==> conn.State() == old(conn.State()))
      decreases conn != null
    {
      var top := if conn == null then State() else conn.State();
      if n == 0 {
        return Charged(State(), top);
      }
      if Add32(Add32(pendingData, pendingUpdate), n) > limit {
        return StreamError;
      }
      if conn != null {
        var inner := conn.Charge(n);
        if !inner.Charged? {
          return ConnError;
        }
        top := conn.State();
      }
      pendingData := Add32(pendingData, n);
      return Charged(State(), top);
    }

    method ConnOnReadUpdate(n: nat) returns (update: nat)
      requires conn == null
      modifies this
      ensures Read(State(), update) == ConnOnRead(old(State()), n)
    {
      if n == 0 {
        return 0;
      }
      pendingData := Sub32(pendingData, n);
      pendingUpdate := Add32(pendingUpdate, n);
      if pendingUpdate >= limit / 4 {
        update := pendingUpdate;
        pendingUpdate := 0;
        return;
      }
      return 0;
    }

    method OnReadUpdate(n: nat) returns (swu: nat, cwu: nat)
      requires conn != null && conn.conn == null && conn != this
      modifies this, conn
      ensures (Read(State(), swu), Read(conn.State(), cwu)) == OnRead(old(State()), old(conn.State()), n)
    {
      swu, cwu := 0, 0;
      if n == 0 {
        return;
      }
      if pendingData == 0 {
        return;
      }
      pendingData := Sub32(pendingData, n);
      pendingUpdate := Add32(pendingUpdate, n);
      if pendingUpdate >= limit / 4 {
        swu := pendingUpdate;
        pendingUpdate := 0;
      }
      cwu := conn.ConnOnReadUpdate(n);
    }

    method Restore() returns (cwu: nat)
      requires conn != null && conn.conn == null && conn != this
      modifies this, conn
      ensures (State(), Read(conn.State(), cwu)) == RestoreConn(old(State()), old(conn.State()))
    {
      var n := pendingData;
      pendingData := 0;
      pendingUpdate := 0;
      cwu := conn.ConnOnReadUpdate(n);
    }
  }

  // ---- Receiver and peer ----

  /** `unread` are bytes that were received and are not yet reported as read; `credit` is the
      peer's: what it may still send on the stream. */
  datatype Stream = Stream(flow: Flow, active: bool, unread: nat, credit: int)

  datatype Data = Data(s: nat, n: nat)

  /** A window update for a stream, or for the connection. */
  datatype Update = ForStream(s: nat, n: nat) | ForConn(n: nat)

  datatype System = System(
    streams: seq<Stream>,
    conn: Flow,
    connCredit: int,
    data: seq<Data>,
    updates: seq<Update>,
    /** Bytes that came in for streams closed before: nobody charges them. */
    dropped: nat,
    /** onData returned an error; a uint32 operation wrapped around. */
    rejected: bool, wrapped: bool)

  datatype Step =
    | Open(limit: nat)
    | PeerSends(s: nat, n: nat)
    | DataArrives
    | AppReads(s: nat, n: nat)
    | Close(s: nat)
    | UpdateArrives

  /** Data arrives in the order sent. The peer keeps to its credit. */
  predicate Enabled(m: System, t: Step) {
    match t
    case Open(limit) => limit < TWO_32
    case PeerSends(s, n) => s < |m.streams| && n <= m.streams[s].credit && n <= m.connCredit
    case DataArrives => m.data != [] && m.data[0].s < |m.streams|
    case AppReads(s, n) => s < |m.streams| && n <= m.streams[s].unread
    case Close(s) => s < |m.streams|
    case UpdateArrives => m.updates != [] && (m.updates[0].ForStream? ==> m.updates[0].s < |m.streams|)
  }

  function StreamUpdate(s: nat, n: nat): seq<Update> {
    if n > 0 then [ForStream(s, n)] else []
  }

  function ConnUpdate(n: nat): seq<Update> {
    if n > 0 then [ForConn(n)] else []
  }

  /** Taking n from data to update leaves the range of uint32. */
  predicate ConsumeWraps(f: Flow, n: nat) {
    n > f.pendingData || f.pendingUpdate + n >= TWO_32
  }

  predicate ChargeWraps(f: Flow, n: nat) {
    f.pendingData + f.pendingUpdate + n >= TWO_32
  }

  function Next(m: System, t: Step): System
    requires Enabled(m, t)
  {
    match t
    case Open(limit) => m.(streams := m.streams + [Stream(Flow(limit, 0, 0), true, 0, limit)])
    case PeerSends(s, n) =>
      m.(streams := m.streams[s := m.streams[s].(credit := m.streams[s].credit - n)],
         connCredit := m.connCredit - n, data := m.data + [Data(s, n)])
    case DataArrives =>
      var s, n := m.data[0].s, m.data[0].n;
      var st := m.streams[s];
      var r := OnData(st.flow, m.conn, n);
      if !st.active then
        m.(data := m.data[1..], dropped := m.dropped + n)
      else if r.Charged? then
        m.(streams := m.streams[s := st.(flow := r.stream, unread := st.unread + n)], conn := r.conn, data := m.data[1..],
           wrapped := m.wrapped || ChargeWraps(st.flow, n) || ChargeWraps(m.conn, n))
      else
        m.(data := m.data[1..], rejected := true)
    case AppReads(s, n) =>
      var st := m.streams[s];
      var r := OnRead(st.flow, m.conn, n);
      m.(streams := m.streams[s := st.(flow := r.0.flow, unread := st.unread - n)], conn := r.1.flow,
         updates := m.updates + StreamUpdate(s, r.0.update) + ConnUpdate(r.1.update),
         wrapped := m.wrapped || (st.flow.pendingData > 0 && (ConsumeWraps(st.flow, n) || ConsumeWraps(m.conn, n))))
    case Close(s) =>
      var st := m.streams[s];
      var r := RestoreConn(st.flow, m.conn);
      m.(streams := m.streams[s := st.(flow := r.0, active := false)], conn := r.1.flow,
         updates := m.updates + ConnUpdate(r.1.update),
         wrapped := m.wrapped || ConsumeWraps(m.conn, st.flow.pendingData))
    case UpdateArrives =>
      var u := m.updates[0];
      if u.ForConn? then m.(connCredit := m.connCredit + u.n, updates := m.updates[1..])
      else
        m.(streams := m.streams[u.s := m.streams[u.s].(credit := m.streams[u.s].credit + u.n)], updates := m.updates[1..])
  }

  // ---- Accounting ----

  function DataOn(ds: seq<Data>, s: nat): nat {
    if ds == [] then 0 else (if ds[0].s == s then ds[0].n else 0) + DataOn(ds[1..], s)
  }

  function DataOnConn(ds: seq<Data>): nat {
    if ds == [] then 0 else ds[0].n + DataOnConn(ds[1..])
  }

  function UpdatesFor(us: seq<Update>, s: nat): nat {
    if us == [] then 0
    else (if us[0].ForStream? && us[0].s == s then us[0].n else 0) + UpdatesFor(us[1..], s)
  }

  function UpdatesForConn(us: seq<Update>): nat {
    if us == [] then 0 else (if us[0].ForConn? then us[0].n else 0) + UpdatesForConn(us[1..])
  }

  function PendingOn(ss: seq<Stream>): nat {
    if ss == [] then 0 else PendingOn(ss[..|ss| - 1]) + ss[|ss| - 1].flow.pendingData
  }

  // ---- The invariant ----

  /** Updates are held back only below a quarter of the limit. */
  predicate FlowOk(f: Flow) {
    f.limit < TWO_32 && (f.pendingUpdate == 0 || f.pendingUpdate < f.limit / 4)
  }

  /** The peer's credit, what is under way, what is unread, and what is not yet given back make
      up the limit. */
  predicate StreamOk(m: System, s: nat)
    requires s < |m.streams|
  {
    var st := m.streams[s];
    && FlowOk(st.flow)
    && (st.active ==>
          && st.flow.pendingData == st.unread && st.credit >= 0
          && st.credit + DataOn(m.data, s) + UpdatesFor(m.updates, s) + st.flow.pendingData + st.flow.pendingUpdate == st.flow.limit)
    && (!st.active ==> st.flow.pendingData == 0 && st.flow.pendingUpdate == 0)
  }

  predicate Inv(m: System) {
    && !m.rejected && !m.wrapped
    && (forall s :: 0 <= s < |m.streams| ==> StreamOk(m, s))
    && FlowOk(m.conn) && m.connCredit >= 0
    && m.connCredit + DataOnConn(m.data) + UpdatesForConn(m.updates) + m.conn.pendingData + m.conn.pendingUpdate + m.dropped
       == m.conn.limit
    && m.conn.pendingData == PendingOn(m.streams)
    && (forall k :: 0 <= k < |m.data| ==> m.data[k].s < |m.streams|)
    && (forall k :: 0 <= k < |m.updates| && m.updates[k].ForStream? ==> m.updates[k].s < |m.streams|)
  }

  lemma {:induction false} DataAppend(ds: seq<Data>, d: Data, s: nat)
    ensures DataOn(ds + [d], s) == DataOn(ds, s) + if d.s == s then d.n else 0
    ensures DataOnConn(ds + [d]) == DataOnConn(ds) + d.n
  {
    if ds != [] {
      assert (ds + [d])[1..] == ds[1..] + [d];
      DataAppend(ds[1..], d, s);
    }
  }

  lemma {:induction false} UpdatesAppend(us: seq<Update>, vs: seq<Update>, s: nat)
    ensures UpdatesFor(us + vs, s) == UpdatesFor(us, s) + UpdatesFor(vs, s)
    ensures UpdatesForConn(us + vs) == UpdatesForConn(us) + UpdatesForConn(vs)
  {
    if us == [] {
      assert us + vs == vs;
    } else {
      assert (us + vs)[1..] == us[1..] + vs;
      UpdatesAppend(us[1..], vs, s);
    }
  }

  lemma UpdatesSent(us: seq<Update>, s: nat, n: nat, c: nat, q: nat)
    ensures var vs := us + StreamUpdate(s, n) + ConnUpdate(c);
            && UpdatesFor(vs, q) == UpdatesFor(us, q) + (if q == s then n else 0)
            && UpdatesForConn(vs) == UpdatesForConn(us) + c
  {
    UpdatesAppend(us, StreamUpdate(s, n), q);
    UpdatesAppend(us + StreamUpdate(s, n), ConnUpdate(c), q);
  }

  lemma {:induction false} PendingUpdate(ss: seq<Stream>, s: nat, x: Stream)
    requires s < |ss|
    ensures PendingOn(ss[s := x]) == PendingOn(ss) - ss[s].flow.pendingData + x.flow.pendingData
    ensures PendingOn(ss) >= ss[s].flow.pendingData
  {
    var n := |ss| - 1;
    if s == n {
      assert ss[s := x][..n] == ss[..n];
    } else {
      assert ss[s := x][..n] == ss[..n][s := x];
      PendingUpdate(ss[..n], s, x);
    }
  }

  /** Without wrap-around, consuming moves bytes between the accounts and sends out the rest. */
  lemma ConsumeMoves(f: Flow, n: nat)
    requires FlowOk(f) && n <= f.pendingData && f.pendingData + f.pendingUpdate <= f.limit
    ensures var r := Consume(f, n);
            && !ConsumeWraps(f, n) && FlowOk(r.flow) && r.flow.limit == f.limit
            && r.flow.pendingData == f.pendingData - n
            && r.flow.pendingUpdate + r.update == f.pendingUpdate + n
  {
  }

  lemma ChargeAccepted(s: Flow, c: Flow, n: nat)
    requires s.limit < TWO_32 && c.limit < TWO_32
    requires s.pendingData + s.pendingUpdate + n <= s.limit && c.pendingData + c.pendingUpdate + n <= c.limit
    ensures OnData(s, c, n) == Charged(s.(pendingData := s.pendingData + n), c.(pendingData := c.pendingData + n))
    ensures !ChargeWraps(s, n) && !ChargeWraps(c, n)
  {
    hide Add32;
  }

  /** Data for a closed stream: only the connection's account has a gap, of just these bytes. */
  lemma DropKeeps(m: System)
    requires Inv(m) && Enabled(m, DataArrives) && !m.streams[m.data[0].s].active
    ensures var m' := Next(m, DataArrives);
            && Inv(m') && m'.dropped == m.dropped + m.data[0].n
            && m' == m.(data := m.data[1..], dropped := m'.dropped)
  {
    var m' := Next(m, DataArrives);
    forall q | 0 <= q < |m.streams| ensures StreamOk(m', q) {
      assert StreamOk(m, q);
    }
  }

  lemma ArrivalKeeps(m: System)
    requires Inv(m) && Enabled(m, DataArrives) && m.streams[m.data[0].s].active
    ensures Inv(Next(m, DataArrives)) && Next(m, DataArrives).dropped == m.dropped
  {
    var d := m.data[0];
    var st := m.streams[d.s];
    assert StreamOk(m, d.s);
    assert DataOn(m.data, d.s) >= d.n && DataOnConn(m.data) >= d.n;
    var m' := Next(m, DataArrives);
    ChargeAccepted(st.flow, m.conn, d.n);
    hide OnData, ChargeWraps;
    PendingUpdate(m.streams, d.s, m'.streams[d.s]);
    forall q | 0 <= q < |m.streams| ensures StreamOk(m', q) {
      assert StreamOk(m, q);
    }
  }

  lemma ReadKeeps(m: System, s: nat, n: nat)
    requires Inv(m) && Enabled(m, AppReads(s, n))
    ensures Inv(Next(m, AppReads(s, n)))
  {
    hide Consume, ConsumeWraps, PendingOn;
    var st := m.streams[s];
    assert StreamOk(m, s);
    var m' := Next(m, AppReads(s, n));
    var r := OnRead(st.flow, m.conn, n);
    PendingUpdate(m.streams, s, m'.streams[s]);
    if st.flow.pendingData > 0 {
      ConsumeMoves(st.flow, n);
      ConsumeMoves(m.conn, n);
    }
    UpdatesSent(m.updates, s, r.0.update, r.1.update, s);
    forall q | 0 <= q < |m.streams| ensures StreamOk(m', q) {
      assert StreamOk(m, q);
      UpdatesSent(m.updates, s, r.0.update, r.1.update, q);
    }
  }

  lemma CloseKeeps(m: System, s: nat)
    requires Inv(m) && Enabled(m, Close(s))
    ensures Inv(Next(m, Close(s)))
  {
    var st := m.streams[s];
    assert StreamOk(m, s);
    var m' := Next(m, Close(s));
    var r := RestoreConn(st.flow, m.conn);
    PendingUpdate(m.streams, s, m'.streams[s]);
    ConsumeMoves(m.conn, st.flow.pendingData);
    assert m.updates + StreamUpdate(s, 0) == m.updates;
    UpdatesSent(m.updates, s, 0, r.1.update, s);
    forall q | 0 <= q < |m.streams| ensures StreamOk(m', q) {
      assert StreamOk(m, q);
      UpdatesSent(m.updates, s, 0, r.1.update, q);
    }
  }

  /** Every step keeps: nothing rejected, nothing wrapped, all bytes accounted for. */
  lemma StepKeeps(m: System, t: Step)
    requires Inv(m) && Enabled(m, t)
    ensures Inv(Next(m, t))
  {
    match t
    case DataArrives =>
      if m.streams[m.data[0].s].active {
        ArrivalKeeps(m);
      } else {
        DropKeeps(m);
      }
    case AppReads(s, n) => ReadKeeps(m, s, n);
    case Close(s) => CloseKeeps(m, s);
    case Open(limit) => OpenKeeps(m, limit);
    case PeerSends(s, n) => SendKeeps(m, s, n);
    case UpdateArrives => UpdateKeeps(m);
  }

  lemma OpenKeeps(m: System, limit: nat)
    requires Inv(m) && limit < TWO_32
    ensures Inv(Next(m, Open(limit)))
  {
    var m' := Next(m, Open(limit));
    assert m'.streams[..|m.streams|] == m.streams;
    NothingOn(m.data, m.updates, |m.streams|);
    forall q | 0 <= q < |m'.streams| ensures StreamOk(m', q) {
      assert q < |m.streams| ==> StreamOk(m, q);
    }
  }

  lemma {:induction false} NothingOn(ds: seq<Data>, us: seq<Update>, s: nat)
    requires forall k :: 0 <= k < |ds| ==> ds[k].s < s
    requires forall k :: 0 <= k < |us| && us[k].ForStream? ==> us[k].s < s
    ensures DataOn(ds, s) == 0 && UpdatesFor(us, s) == 0
    decreases |ds| + |us|
  {
    if ds != [] {
      NothingOn(ds[1..], us, s);
    } else if us != [] {
      NothingOn(ds, us[1..], s);
    }
  }

  lemma SendKeeps(m: System, s: nat, n: nat)
    requires Inv(m) && Enabled(m, PeerSends(s, n))
    ensures Inv(Next(m, PeerSends(s, n)))
  {
    var m' := Next(m, PeerSends(s, n));
    PendingUpdate(m.streams, s, m'.streams[s]);
    DataAppend(m.data, Data(s, n), s);
    forall q | 0 <= q < |m.streams| ensures StreamOk(m', q) {
      assert StreamOk(m, q);
      DataAppend(m.data, Data(s, n), q);
    }
  }

  lemma UpdateKeeps(m: System)
    requires Inv(m) && Enabled(m, UpdateArrives)
    ensures Inv(Next(m, UpdateArrives))
  {
    var m' := Next(m, UpdateArrives);
    var u := m.updates[0];
    if u.ForStream? {
      PendingUpdate(m.streams, u.s, m'.streams[u.s]);
    }
    forall q | 0 <= q < |m.streams| ensures StreamOk(m', q) {
      assert StreamOk(m, q);
    }
  }

  // ---- Whole runs ----

  function Initial(limit: nat): System {
    System([], Flow(limit, 0, 0), limit, [], [], 0, false, false)
  }

  predicate Possible(m: System, ts: seq<Step>)
    decreases |ts|
  {
    ts == [] || (Enabled(m, ts[0]) && Possible(Next(m, ts[0]), ts[1..]))
  }

  function Run(m: System, ts: seq<Step>): System
    requires Possible(m, ts)
    decreases |ts|
  {
    if ts == [] then m else Run(Next(m, ts[0]), ts[1..])
  }

  lemma {:induction false} RunKeeps(m: System, ts: seq<Step>)
    requires Inv(m) && Possible(m, ts)
    ensures Inv(Run(m, ts))
    decreases |ts|
  {
    if ts != [] {
      StepKeeps(m, ts[0]);
      RunKeeps(Next(m, ts[0]), ts[1..]);
    }
  }

  /** Over every run with a conforming peer: no frame is rejected, no counter wraps around, the
      connection's pending data is the sum over the streams, and the peer's credit is the limit
      less what is under way, pending or not yet given back. On the connection, and only there,
      it is also less what came in for closed streams. */
  lemma ConformingPeerIsServed(limit: nat, ts: seq<Step>)
    requires limit < TWO_32 && Possible(Initial(limit), ts)
    ensures var m := Run(Initial(limit), ts);
            && !m.rejected && !m.wrapped
            && m.conn.pendingData == PendingOn(m.streams)
            && m.connCredit == m.conn.limit - m.conn.pendingData - m.conn.pendingUpdate
                               - DataOnConn(m.data) - UpdatesForConn(m.updates) - m.dropped
            && forall s :: 0 <= s < |m.streams| && m.streams[s].active ==>
                 var st := m.streams[s];
                 && st.flow.pendingData == st.unread
                 && st.credit == st.flow.limit - st.flow.pendingData - st.flow.pendingUpdate - DataOn(m.data, s) - UpdatesFor(m.updates, s)
  {
    RunKeeps(Initial(limit), ts);
    var m := Run(Initial(limit), ts);
    forall s | 0 <= s < |m.streams| && m.streams[s].active
      ensures var st := m.streams[s];
              && st.flow.pendingData == st.unread
              && st.credit == st.flow.limit - st.flow.pendingData - st.flow.pendingUpdate - DataOn(m.data, s) - UpdatesFor(m.updates, s)
    {
      assert StreamOk(m, s);
    }
  }

  /** The sender is not stalled: with everything read and nothing under way, it has more than
      three quarters of each window (of one that is at least 4), of the connection's less what
      came in for closed streams. */
  lemma NeverStalled(limit: nat, ts: seq<Step>)
    requires limit < TWO_32 && Possible(Initial(limit), ts)
    requires var m := Run(Initial(limit), ts);
             && m.data == [] && m.updates == []
             && forall s :: 0 <= s < |m.streams| ==> m.streams[s].unread == 0
    ensures var m := Run(Initial(limit), ts);
            var c := m.connCredit + m.dropped;
            && m.conn.limit - m.conn.limit / 4 <= c <= m.conn.limit
            && (m.conn.limit >= 4 ==> c > m.conn.limit - m.conn.limit / 4)
            && forall s :: 0 <= s < |m.streams| && m.streams[s].active ==>
                 m.streams[s].credit >= m.streams[s].flow.limit - m.streams[s].flow.limit / 4
  {
    RunKeeps(Initial(limit), ts);
    var m := Run(Initial(limit), ts);
    forall s | 0 <= s < |m.streams|
      ensures m.streams[s].flow.pendingData == 0
      ensures m.streams[s].active ==> m.streams[s].credit >= m.streams[s].flow.limit - m.streams[s].flow.limit / 4
    {
      assert StreamOk(m, s);
    }
    NothingPending(m.streams);
  }

  /** No byte is dropped in a run exactly if data arrives before its stream is closed. */
  predicate InTime(m: System, ts: seq<Step>)
    requires Possible(m, ts)
    decreases |ts|
  {
    ts == [] ||
    (&& (ts[0].DataArrives? ==> m.streams[m.data[0].s].active || m.data[0].n == 0)
     && InTime(Next(m, ts[0]), ts[1..]))
  }

  lemma {:induction false} DroppedIff(m: System, ts: seq<Step>)
    requires Inv(m) && Possible(m, ts)
    ensures Run(m, ts).dropped >= m.dropped && Run(m, ts).conn.limit == m.conn.limit
    ensures Run(m, ts).dropped == m.dropped <==> InTime(m, ts)
    decreases |ts|
  {
    if ts != [] {
      StepKeeps(m, ts[0]);
      StepDrops(m, ts[0]);
      DroppedIff(Next(m, ts[0]), ts[1..]);
    }
  }

  lemma StepDrops(m: System, t: Step)
    requires Inv(m) && Enabled(m, t)
    ensures var m' := Next(m, t);
            && m'.conn.limit == m.conn.limit
            && m'.dropped == m.dropped + if t.DataArrives? && !m.streams[m.data[0].s].active then m.data[0].n else 0
  {
  }

  /** What was dropped never comes back: in every continuation the connection's credit is at
      most the rest of its window, and with a whole window dropped no stream sends any more. */
  lemma DroppedIsLost(limit: nat, ts: seq<Step>, us: seq<Step>)
    requires limit < TWO_32 && Possible(Initial(limit), ts) && Possible(Run(Initial(limit), ts), us)
    ensures var m, m' := Run(Initial(limit), ts), Run(Run(Initial(limit), ts), us);
            m.dropped <= limit && m'.connCredit <= limit - m.dropped
            && (m.dropped == limit ==> m'.connCredit == 0 && forall s, n :: n > 0 ==> !Enabled(m', PeerSends(s, n)))
  {
    StartsWell(limit);
    hide Inv, Enabled, Next, Possible, Run, Initial;
    var m0 := Initial(limit);
    RunKeeps(m0, ts);
    DroppedIff(m0, ts);
    var m := Run(m0, ts);
    RunKeeps(m, us);
    DroppedIff(m, us);
    CreditLeft(m);
    CreditLeft(Run(m, us));
  }

  lemma StartsWell(limit: nat)
    requires limit < TWO_32
    ensures var m := Initial(limit); Inv(m) && m.conn.limit == limit && m.dropped == 0
  {
  }

  lemma CreditLeft(m: System)
    requires Inv(m)
    ensures 0 <= m.connCredit <= m.conn.limit - m.dropped
    ensures m.dropped == m.conn.limit ==> forall s, n :: n > 0 ==> !Enabled(m, PeerSends(s, n))
  {
  }

  /** A stream that is closed with a whole window under way takes the window along. */
  lemma WindowDropped(limit: nat)
    requires limit < TWO_32
    ensures var ts := [Open(limit), PeerSends(0, limit), Close(0), DataArrives];
            Possible(Initial(limit), ts) && Run(Initial(limit), ts).dropped == limit
  {
    var m1 := Next(Initial(limit), Open(limit));
    assert m1.streams == [Stream(Flow(limit, 0, 0), true, 0, limit)];
    var m2 := Next(m1, PeerSends(0, limit));
    var m3 := Next(m2, Close(0));
    var m4 := Next(m3, DataArrives);
    RunOne(m3, DataArrives, []);
    RunOne(m2, Close(0), [DataArrives]);
    RunOne(m1, PeerSends(0, limit), [Close(0), DataArrives]);
    RunOne(Initial(limit), Open(limit), [PeerSends(0, limit), Close(0), DataArrives]);
  }

  lemma RunOne(m: System, t: Step, ts: seq<Step>)
    requires Enabled(m, t) && Possible(Next(m, t), ts)
    ensures Possible(m, [t] + ts) && Run(m, [t] + ts) == Run(Next(m, t), ts)
  {
    assert ([t] + ts)[1..] == ts;
  }

  lemma {:induction false} NothingPending(ss: seq<Stream>)
    requires forall s :: 0 <= s < |ss| ==> ss[s].flow.pendingData == 0
    ensures PendingOn(ss) == 0
  {
    if ss != [] {
      NothingPending(ss[..|ss| - 1]);
    }
  }
}
