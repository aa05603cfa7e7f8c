/**
  How messages travel over one stream: encode puts a five-byte header before each, Write cuts
  the bytes into DATA frames as the quotas allow, the transport's reader queues the frames in
  an unbounded buffer, and recvMsg reads them back in pieces of any size. The frames arrive at
  any time relative to what the receiving side does.
 */
module GrpcMessages {
  import opened Basics

  const MAX_UINT32: nat := 0xFFFF_FFFF
  const MAX_FRAME: nat := 16384

  datatype Message = Message(format: byte, body: seq<byte>)

  // ---- Framing ----

  /** encoding/binary's big-endian uint32. */
  function Uint32(n: nat): (r: seq<byte>)
    requires n <= MAX_UINT32
    ensures |r| == 4
  {
    [(n / 0x100_0000) as byte, (n / 0x1_0000 % 0x100) as byte, (n / 0x100 % 0x100) as byte, (n % 0x100) as byte]
  }

  function FromUint32(b: seq<byte>): nat
    requires |b| == 4
  {
    ((b[0] as nat * 0x100 + b[1] as nat) * 0x100 + b[2] as nat) * 0x100 + b[3] as nat
  }

  lemma Uint32RoundTrip(n: nat)
    requires n <= MAX_UINT32
    ensures FromUint32(Uint32(n)) == n
  {
    var h1 := n / 0x100;
    var h2 := h1 / 0x100;
    assert n / 0x1_0000 == h2 && n / 0x100_0000 == h2 / 0x100;
  }

  function Header(m: Message): (r: seq<byte>)
    requires |m.body| <= MAX_UINT32
    ensures |r| == 5
  {
    [m.format] + Uint32(|m.body|)
  }

  /** The bytes of a message; there are none for a body that the header cannot describe. */
  function Framed(m: Message): Option<seq<byte>> {
    if |m.body| > MAX_UINT32 then None else Some(Header(m) + m.body)
  }

  /** encode fills a buffer of the final size. */
  method Encode(m: Message) returns (r: Option<seq<byte>>)
    ensures r == Framed(m)
  {
    if |m.body| > MAX_UINT32 {
      return None;
    }
    var buf := new byte[5 + |m.body|](_ => 0);
    buf[0] := m.format;
    var length := Uint32(|m.body|);
    for i := 0 to 4
      invariant buf[0] == m.format && forall k :: 0 <= k < i ==> buf[1 + k] == length[k]
    {
      buf[1 + i] := length[i];
    }
    for i := 0 to |m.body|
      invariant buf[0] == m.format && forall k :: 0 <= k < 4 ==> buf[1 + k] == length[k]
      invariant forall k :: 0 <= k < i ==> buf[5 + k] == m.body[k]
    {
      buf[5 + i] := m.body[i];
    }
    assert buf[..] == Header(m) + m.body;
    return Some(buf[..]);
  }

  /** What recvMsg finds at the front of a byte stream that ends. */
  datatype Received = Got(message: Message, rest: seq<byte>) | Eof | UnexpectedEof

  function Receive(s: seq<byte>): Received {
    if s == [] then Eof
    else if |s| < 5 then UnexpectedEof
    else
      var n := FromUint32(s[1..5]);
      if |s| < 5 + n then UnexpectedEof else Got(Message(s[0], s[5..5 + n]), s[5 + n..])
  }

  /** The header says where the next message begins. */
  lemma ReceivesFramed(m: Message, rest: seq<byte>)
    requires |m.body| <= MAX_UINT32
    ensures Receive(Framed(m).value + rest) == Got(m, rest)
  {
    var s := Header(m) + m.body + rest;
    assert s[1..5] == Uint32(|m.body|);
    Uint32RoundTrip(|m.body|);
    assert s[5..5 + |m.body|] == m.body && s[5 + |m.body|..] == rest;
  }

  /** The messages that encode accepts, and their bytes. */
  function Accepted(ms: seq<Message>): seq<Message> {
    if ms == [] then []
    else if |ms[0].body| <= MAX_UINT32 then [ms[0]] + Accepted(ms[1..]) else Accepted(ms[1..])
  }

  function Wire(ms: seq<Message>): seq<byte> {
    if ms == [] then []
    else if |ms[0].body| <= MAX_UINT32 then Framed(ms[0]).value + Wire(ms[1..]) else Wire(ms[1..])
  }

  // ---- Frames ----

  datatype Item = Data(bytes: seq<byte>) | End

  /** The payload of a sequence of items. */
  function Payload(items: seq<Item>): seq<byte> {
    if items == [] then []
    else (if items[0].Data? then items[0].bytes else []) + Payload(items[1..])
  }

  lemma {:induction false} PayloadAppend(a: seq<Item>, b: seq<Item>)
    ensures Payload(a + b) == Payload(a) + Payload(b)
  {
    if a == [] {
      assert a + b == b;
    } else {
      assert (a + b)[1..] == a[1..] + b;
      PayloadAppend(a[1..], b);
    }
  }

  /** Frames with data; those without are not queued. */
  predicate Filled(items: seq<Item>) {
    forall k :: 0 <= k < |items| ==> items[k].Data? && items[k].bytes != []
  }

  predicate Legal(frames: seq<Item>) {
    forall k :: 0 <= k < |frames| ==> frames[k].Data? && 0 < |frames[k].bytes| <= MAX_FRAME
  }

  function Min(a: nat, b: nat): nat {
    if a < b then a else b
  }

  /** Write, when no wait fails. What the two pools offer each time is arbitrary but positive. */
  method Write(data: seq<byte>) returns (frames: seq<Item>)
    ensures Legal(frames) && Payload(frames) == data
  {
    frames := [];
    var r := data;
    while r != []
      invariant Legal(frames) && Payload(frames) + r == data
      decreases |r|
    {
      var sq: nat, tq: nat :| sq > 0 && tq > 0;
      var size := Min(Min(MAX_FRAME, sq), tq);
      var p := r[..Min(size, |r|)];
      r := r[|p|..];
      PayloadAppend(frames, [Data(p)]);
      frames := frames + [Data(p)];
    }
  }

  // ---- The receive buffer ----

  /** An unbounded channel: a one-slot channel with a backlog behind it. */
  class RecvBuffer {
    var c: Option<Item>
    var backlog: seq<Item>

    ghost function Contents(): seq<Item>
      reads this
    {
      (if c.Some? then [c.value] else []) + backlog
    }

    constructor ()
      ensures Contents() == [] && c.None?
    {
      c, backlog := None, [];
    }

    method Put(r: Item)
      modifies this
      ensures Contents() == old(Contents()) + [r] && c.Some?
      ensures old(c).Some? ==> c == old(c)
    {
      backlog := backlog + [r];
      if c.None? {
        c, backlog := Some(backlog[0]), backlog[1..];
      }
    }

    method Load()
      modifies this
      ensures Contents() == old(Contents())
      ensures backlog != [] ==> c.Some?
    {
      if |backlog| > 0 {
        if c.None? {
          c, backlog := Some(backlog[0]), backlog[1..];
        }
      }
    }

    method Get() returns (r: Item)
      requires c.Some?
      modifies this
      ensures old(Contents()) == [r] + Contents() && c.None?
    {
      r := c.value;
      c := None;
    }
  }

  // ---- The reader ----

  function Pending(last: seq<byte>): seq<Item> {
    if last == [] then [] else [Data(last)]
  }

  class Reader {
    const recv: RecvBuffer
    var last: seq<byte>
    var ended: bool
    /** Frames that have not been dispatched to the stream yet. */
    var wire: seq<Item>

    /** All that is still to be read, in order. */
    ghost function Ahead(): seq<Item>
      reads this, recv
    {
      Pending(last) + recv.Contents() + wire
    }

    ghost function Bytes(): seq<byte>
      reads this, recv
    {
      Payload(Ahead())
    }

    ghost predicate Valid()
      reads this, recv
    {
      && (recv.backlog != [] ==> recv.c.Some?)
      && (if ended then Ahead() == [] else EndsWell(Ahead()))
    }

    constructor (frames: seq<Item>)
      requires Filled(frames)
      ensures Valid() && fresh(this) && fresh(recv) && !ended
      ensures Bytes() == Payload(frames)
    {
      recv := new RecvBuffer();
      last, ended, wire := [], false, frames + [End];
      new;
      assert Ahead() == frames + [End];
      PayloadAppend(frames, [End]);
    }

    /** While this side is anywhere in its code, some frames may arrive: handleData puts them
        into the buffer. */
    method Arrivals(atLeast: nat)
      requires atLeast <= |wire|
      modifies this`wire, recv
      ensures Ahead() == old(Ahead())
      ensures old(recv.c).Some? || atLeast > 0 ==> recv.c.Some?
      ensures (old(recv.backlog) != [] ==> old(recv.c).Some?) ==> (recv.backlog != [] ==> recv.c.Some?)
    {
      hide Pending, RecvBuffer.Contents;
      var n: nat :| atLeast <= n <= |wire|;
      for i := 0 to n
        invariant Ahead() == old(Ahead()) && |wire| == |old(wire)| - i
        invariant old(recv.c).Some? || i > 0 ==> recv.c.Some?
        invariant (old(recv.backlog) != [] ==> old(recv.c).Some?) ==> (recv.backlog != [] ==> recv.c.Some?)
      {
        ShiftOne(Pending(last), recv.Contents(), wire);
        recv.Put(wire[0]);
        wire := wire[1..];
      }
    }

    /** Blocks until there is an item, and takes it. */
    method Take() returns (item: Item)
      requires Valid() && !ended && last == []
      modifies this`wire, recv
      ensures |old(Ahead())| > 0 && item == old(Ahead())[0] && Ahead() == old(Ahead())[1..]
    {
      EndsWellCons(Ahead());
      hide EndsWell, RecvBuffer.Contents;
      Arrivals(0);
      if recv.c.None? {
        Arrivals(1);
      }
      item := recv.Get();
      PopOne(item, recv.Contents(), wire);
    }

    /** The select of recvBufferReader.Read, and what follows it. */
    method Fetch()
      requires Valid() && !ended && last == []
      modifies this, recv
      ensures Valid() && Bytes() == old(Bytes())
      ensures if ended then Bytes() == [] else last != []
    {
      hide RecvBuffer.Contents, Payload;
      EndsWellCons(Ahead());
      PayloadEnd();
      hide EndsWell;
      var item := Take();
      Arrivals(0);
      recv.Load();
      if item.End? {
        ended := true;
        assert old(Ahead()) == [End];
      } else {
        PopOne(item, recv.Contents(), wire);
        last := item.bytes;
        assert Ahead() == old(Ahead());
      }
    }

    /** recvBufferReader.Read, for a buffer of `max` bytes: at least one byte, in order, unless
        the stream has ended. */
    method Read(max: nat) returns (p: seq<byte>, eof: bool)
      requires Valid() && max > 0
      modifies this, recv
      ensures Valid()
      ensures old(Bytes()) == p + Bytes() && |p| <= max
      ensures eof == (old(Bytes()) == []) && (eof ==> p == []) && (!eof ==> p != [])
    {
      if ended {
        return [], true;
      }
      if last == [] {
        Fetch();
        if ended {
          return [], true;
        }
      }
      p := TakeLast(max);
      return p, false;
    }

    method TakeLast(max: nat) returns (p: seq<byte>)
      requires Valid() && last != [] && max > 0
      modifies this`last
      ensures Valid() && p != [] && |p| <= max && old(Bytes()) == p + Bytes()
    {
      hide EndsWell, Payload;
      ghost var tail := recv.Contents() + wire;
      assert Ahead() == [Data(last)] + tail;
      p := last[..Min(max, |last|)];
      TakeFront(last, |p|, tail);
      last := last[|p|..];
      assert Ahead() == Pending(last) + tail;
    }

    /** io.ReadFull into a buffer of n bytes. */
    method ReadFull(n: nat) returns (p: seq<byte>, full: bool)
      requires Valid()
      modifies this, recv
      ensures Valid() && old(Bytes()) == p + Bytes()
      ensures full == (|old(Bytes())| >= n)
      ensures if full then |p| == n else Bytes() == []
    {
      hide Bytes, Valid;
      p := [];
      while |p| < n
        invariant Valid() && old(Bytes()) == p + Bytes() && |p| <= n
        decreases n - |p|
      {
        var q, eof := Read(n - |p|);
        if eof {
          return p, false;
        }
        p := p + q;
      }
      return p, true;
    }

    /** parser.recvMsg. */
    method RecvMsg() returns (m: Option<Message>, unexpected: bool)
      requires Valid()
      modifies this, recv
      ensures Valid()
      ensures Receive(old(Bytes())) == if m.Some? then Got(m.value, Bytes()) else if unexpected then UnexpectedEof else Eof
    {
      ghost var s := Bytes();
      var buf, full := ReadFull(5);
      if !full {
        return None, buf != [];
      }
      assert s[..5] == buf && s[5..] == Bytes() && s[1..5] == buf[1..5];
      var length := FromUint32(buf[1..5]);
      if length == 0 {
        assert s[5..5 + 0] == [];
        return Some(Message(buf[0], [])), false;
      }
      var msg;
      msg, full := ReadFull(length);
      if !full {
        return None, true;
      }
      assert s == buf + msg + Bytes();
      assert s[5..5 + length] == msg && s[5 + length..] == Bytes();
      return Some(Message(buf[0], msg)), false;
    }
  }

  /** Frames with data, and the end of the stream behind them. */
  predicate EndsWell(items: seq<Item>) {
    items != [] && items[|items| - 1] == End && Filled(items[..|items| - 1])
  }

  lemma EndsWellCons(items: seq<Item>)
    requires items != []
    ensures EndsWell(items) <==> items == [End] || (items[0].Data? && items[0].bytes != [] && EndsWell(items[1..]))
  {
    var n := |items| - 1;
    if n > 0 {
      assert items[..n] == [items[0]] + items[1..][..n - 1];
    }
  }

  lemma ShiftOne(p: seq<Item>, c: seq<Item>, w: seq<Item>)
    requires w != []
    ensures p + (c + [w[0]]) + w[1..] == p + c + w
  {
  }

  lemma PopOne(i: Item, c: seq<Item>, w: seq<Item>)
    ensures [] + ([i] + c) + w == [i] + ([] + c + w) == [i] + c + w
    ensures ([] + ([i] + c) + w)[1..] == [] + c + w
  {
  }

  lemma PayloadEnd()
    ensures Payload([End]) == Payload([]) == []
  {
  }

  lemma PayloadCons(d: seq<byte>, tail: seq<Item>)
    ensures Payload([Data(d)] + tail) == d + Payload(tail)
  {
    assert ([Data(d)] + tail)[1..] == tail;
  }

  /** Reading the first k bytes of the item in front. */
  lemma TakeFront(d: seq<byte>, k: nat, tail: seq<Item>)
    requires EndsWell([Data(d)] + tail) && 0 < k <= |d|
    ensures EndsWell(Pending(d[k..]) + tail)
    ensures Payload([Data(d)] + tail) == d[..k] + Payload(Pending(d[k..]) + tail)
  {
    hide EndsWell, Payload;
    var rest := d[k..];
    EndsWellCons([Data(d)] + tail);
    EndsWellCons([Data(rest)] + tail);
    PayloadCons(d, tail);
    PayloadCons(rest, tail);
    assert ([Data(d)] + tail)[1..] == tail && ([Data(rest)] + tail)[1..] == tail;
    assert d + Payload(tail) == d[..k] + (rest + Payload(tail));
    assert [] + tail == tail;
    assert rest == [] ==> rest + Payload(tail) == Payload(tail);
  }

  // ---- End to end ----

  lemma {:induction false} WireReceives(ms: seq<Message>)
    ensures Accepted(ms) == [] ==> Receive(Wire(ms)) == Eof
    ensures Accepted(ms) != [] ==>
      exists rest :: Accepted(rest) == Accepted(ms)[1..] && Receive(Wire(ms)) == Got(Accepted(ms)[0], Wire(rest))
  {
    if ms != [] {
      if |ms[0].body| <= MAX_UINT32 {
        ReceivesFramed(ms[0], Wire(ms[1..]));
        assert Accepted(ms[1..]) == Accepted(ms)[1..];
      } else {
        WireReceives(ms[1..]);
      }
    }
  }

  /**
    For every sequence of messages, all quotas, all moments at which frames arrive and all sizes
    of reads: the receiver gets exactly the messages that encode accepted, in order.
   */
  method Transfer(ms: seq<Message>) returns (got: seq<Message>)
    ensures got == Accepted(ms)
  {
    hide Reader.Valid, Reader.Bytes;
    var frames: seq<Item> := [];
    for i := 0 to |ms|
      invariant Legal(frames) && Payload(frames) + Wire(ms[i..]) == Wire(ms)
    {
      assert ms[i..][1..] == ms[i + 1..];
      var data := Encode(ms[i]);
      if data.Some? {
        var more := Write(data.value);
        PayloadAppend(frames, more);
        frames := frames + more;
      }
    }
    assert ms[|ms|..] == [];
    var reader := new Reader(frames);
    got := Drain(reader, ms);
  }

  /** Receives until the stream ends. */
  method Drain(reader: Reader, ghost ms: seq<Message>) returns (got: seq<Message>)
    requires reader.Valid() && reader.Bytes() == Wire(ms)
    modifies reader, reader.recv
    ensures got == Accepted(ms)
    decreases |Accepted(ms)|
  {
    hide Payload, EndsWell, RecvBuffer.Contents;
    WireReceives(ms);
    var m, unexpected := reader.RecvMsg();
    if m.Some? {
      ghost var rest :| Accepted(rest) == Accepted(ms)[1..] && reader.Bytes() == Wire(rest);
      var more := Drain(reader, rest);
      return [m.value] + more;
    }
    return [];
  }
}
