/**
  The protocol buffer wire format: varints, length-delimited values whose length is patched in
  afterwards, and skipping of unknown fields.
 */
module Protobuf {
  import opened Basics

  const TWO_63: int := 0x8000_0000_0000_0000
  const TWO_64: int := 0x1_0000_0000_0000_0000
  const MAX_VARINT_BYTES: nat := 10

  function Pow128(k: nat): (r: nat)
    ensures r > 0
  {
    if k == 0 then 1 else 128 * Pow128(k - 1)
  }

  // ---- Varints ----

  /** Seven bits to a byte, lowest first; the top bit says that more follow. */
  function Varint(x: nat): (r: seq<byte>)
    ensures |r| > 0
  {
    if x < 128 then [x as byte] else [(128 + x % 128) as byte] + Varint(x / 128)
  }

  datatype Var = Var(value: nat, n: nat) | UnexpectedEof | Overflow

  /** The varint at the front, which may take `room` bytes. */
  function ParseVar(s: seq<byte>, room: nat): (r: Var)
    ensures r.Var? ==> 0 < r.n <= |s| && r.n <= room
  {
    if room == 0 then Overflow
    else if s == [] then UnexpectedEof
    else if s[0] < 128 then Var(s[0] as nat, 1)
    else
      var r := ParseVar(s[1..], room - 1);
      if r.Var? then Var(s[0] as nat - 128 + 128 * r.value, r.n + 1) else r
  }

  function DecodeVar(s: seq<byte>): (r: Var)
    ensures r.Var? ==> 0 < r.n <= |s| && r.value < TWO_64
  {
    var r := ParseVar(s, MAX_VARINT_BYTES);
    if r.Var? then Var(r.value % TWO_64, r.n) else r
  }

  lemma {:induction false} VarintLength(x: nat, k: nat)
    requires k > 0 && x < Pow128(k)
    ensures |Varint(x)| <= k
  {
    if x >= 128 {
      VarintLength(x / 128, k - 1);
    }
  }

  lemma VarintFits(x: nat)
    requires x < TWO_64
    ensures |Varint(x)| <= MAX_VARINT_BYTES
  {
    assert TWO_64 <= Pow128(10) by {
      assert Pow128(5) == 0x8_0000_0000;
      assert Pow128(10) == Pow128(5) * 0x8_0000_0000;
    }
    VarintLength(x, 10);
  }

  lemma {:induction false} ParsesVarint(x: nat, rest: seq<byte>, room: nat)
    requires |Varint(x)| <= room
    ensures ParseVar(Varint(x) + rest, room) == Var(x, |Varint(x)|)
  {
    var s := Varint(x) + rest;
    if x >= 128 {
      assert s[1..] == Varint(x / 128) + rest;
      ParsesVarint(x / 128, rest, room - 1);
    }
  }

  /** Round trip, whatever follows. */
  lemma DecodesVarint(x: nat, rest: seq<byte>)
    requires x < TWO_64
    ensures DecodeVar(Varint(x) + rest) == Var(x, |Varint(x)|)
  {
    VarintFits(x);
    ParsesVarint(x, rest, MAX_VARINT_BYTES);
  }

  method EncodeVarintBytes(x0: nat) returns (r: seq<byte>)
    requires x0 < TWO_64
    ensures r == Varint(x0)
  {
    VarintFits(x0);
    var buf := new byte[MAX_VARINT_BYTES](_ => 0);
    var n, x := 0, x0;
    while x > 127
      invariant 0 <= n && n + |Varint(x)| <= MAX_VARINT_BYTES
      invariant buf[..n] + Varint(x) == Varint(x0)
      decreases x
    {
      ghost var before := buf[..n];
      buf[n] := (128 + x % 128) as byte;
      assert buf[..n + 1] == before + [(128 + x % 128) as byte];
      assert before + ([(128 + x % 128) as byte] + Varint(x / 128)) == before + [(128 + x % 128) as byte] + Varint(x / 128);
      x := x / 128;
      n := n + 1;
    }
    buf[n] := x as byte;
    n := n + 1;
    return buf[..n];
  }

  /** sizeVarint: the size without encoding. */
  method SizeVarint(x0: nat) returns (n: nat)
    ensures n == |Varint(x0)|
  {
    n := 0;
    var x := x0;
    while true
      invariant n + |Varint(x)| == |Varint(x0)|
      decreases x
    {
      n := n + 1;
      x := x / 128;
      if x == 0 {
        break;
      }
    }
  }

  // ---- Things preceded by their length ----

  /** What an encoder may write: plain bytes, a nested thing with its length, a required field
      that is not set (the error is remembered), or something that cannot be encoded. */
  datatype Thing = Raw(bytes: seq<byte>) | Delimited(parts: seq<Thing>) | NotSet | Bad

  datatype Error = NoError | RequiredNotSet | Fatal

  function Wire(t: Thing): seq<byte> {
    match t
    case Raw(b) => b
    case Delimited(ts) => Varint(|WireAll(ts)|) + WireAll(ts)
    case NotSet => []
    case Bad => []
  }

  function WireAll(ts: seq<Thing>): seq<byte> {
    if ts == [] then [] else Wire(ts[0]) + WireAll(ts[1..])
  }

  /** The error reported for what is encoded after the error `e`. */
  function ErrorOf(t: Thing, e: Error): Error {
    match t
    case Raw(_) => e
    case Delimited(ts) => ErrorOfAll(ts, e)
    case NotSet => if e == NoError then RequiredNotSet else e
    case Bad => Fatal
  }

  function ErrorOfAll(ts: seq<Thing>, e: Error): Error {
    if ts == [] || e == Fatal then e else ErrorOfAll(ts[1..], ErrorOf(ts[0], e))
  }

  class Buffer {
    /** The backing array of the slice, of which the first `len` bytes are the buffer. */
    var store: seq<byte>
    var len: nat
    var index: nat

    ghost predicate Valid()
      reads this
    {
      len <= |store|
    }

    ghost function Buf(): seq<byte>
      reads this
      requires Valid()
    {
      store[..len]
    }

    constructor (buf: seq<byte>)
      ensures Valid() && Buf() == buf && index == 0
    {
      store, len, index := buf, |buf|, 0;
    }

    /** Go's append: in place while there is room, else in a new and larger array. */
    method Append(b: byte)
      requires Valid()
      modifies this`store, this`len
      ensures Valid() && Buf() == old(Buf()) + [b]
      ensures old(len) < |old(store)| ==> store == old(store)[old(len) := b]
    {
      if len == |store| {
        var spare: nat :| true;
        store := store + [0] + seq(spare, _ => 0);
      }
      store := store[len := b];
      len := len + 1;
    }

    /** buf[:n]: may also uncover bytes of the backing array. */
    method Reslice(n: nat)
      requires n <= |store|
      modifies this`len
      ensures Valid() && len == n
    {
      len := n;
    }

    /** copy(buf[to:], buf[from:from+n]), as if through an intermediate buffer. */
    method Move(to: nat, from: nat, n: nat)
      requires Valid() && from + n <= len && to + n <= len
      modifies this`store
      ensures Valid() && |store| == |old(store)|
      ensures store[to..to + n] == old(store)[from..from + n]
      ensures store[..to] == old(store)[..to]
    {
      store := store[..to] + store[from..from + n] + store[to + n..];
    }

    /** Buffer.EncodeVarint. As long as there is room, the bytes behind stay what they are. */
    method EncodeVarint(x0: nat)
      requires Valid()
      modifies this`store, this`len
      ensures Valid() && Buf() == old(Buf()) + Varint(x0)
      ensures old(len) + |Varint(x0)| <= |old(store)| ==>
        |store| == |old(store)| && store[len..] == old(store)[old(len) + |Varint(x0)|..]
    {
      var x := x0;
      while x >= 128
        invariant Valid() && len + |Varint(x)| == old(len) + |Varint(x0)|
        invariant Buf() + Varint(x) == old(Buf()) + Varint(x0)
        invariant old(len) + |Varint(x0)| <= |old(store)| ==> |store| == |old(store)| && store[len..] == old(store)[len..]
        decreases x
      {
        Append((128 + x % 128) as byte);
        x := x / 128;
      }
      Append(x as byte);
    }

    method AppendAll(bs: seq<byte>)
      requires Valid()
      modifies this`store, this`len
      ensures Valid() && Buf() == old(Buf()) + bs
    {
      for i := 0 to |bs|
        invariant Valid() && Buf() == old(Buf()) + bs[..i]
      {
        Append(bs[i]);
      }
      assert bs[..|bs|] == bs;
    }

    /** An encoder; the error state `e` goes in and comes out. */
    method Encode(t: Thing, e: Error) returns (e': Error)
      requires Valid() && e != Fatal
      modifies this`store, this`len
      ensures Valid() && len >= old(len) && Buf()[..old(len)] == old(Buf())
      ensures e' == ErrorOf(t, e)
      ensures e' != Fatal ==> Buf() == old(Buf()) + Wire(t)
      decreases t, 0
    {
      e' := e;
      match t
      case Raw(b) =>
        AppendAll(b);
      case Delimited(ts) =>
        e' := EncodeDelimited(ts, e);
      case NotSet =>
        if e == NoError {
          e' := RequiredNotSet;
        }
      case Bad =>
        e' := Fatal;
    }

    method EncodeAll(ts: seq<Thing>, e: Error) returns (e': Error)
      requires Valid() && e != Fatal
      modifies this`store, this`len
      ensures Valid() && len >= old(len) && Buf()[..old(len)] == old(Buf())
      ensures e' == ErrorOfAll(ts, e)
      ensures e' != Fatal ==> Buf() == old(Buf()) + WireAll(ts)
      decreases ts, 0
    {
      e' := e;
      if ts == [] {
        return;
      }
      e' := Encode(ts[0], e);
      if e' == Fatal {
        return;
      }
      ghost var first := Buf();
      hide Wire;
      e' := EncodeAll(ts[1..], e');
      assert Buf()[..old(len)] == Buf()[..|first|][..old(len)];
      assert e' != Fatal ==> Buf() == old(Buf()) + (Wire(ts[0]) + WireAll(ts[1..]));
    }

    /** Moves the body from iMsg to right behind a length of lLen bytes at iLen. */
    method Shift(iLen: nat, iMsg: nat, lLen: nat, lMsg: nat, ghost prefix: seq<byte>, ghost body: seq<byte>)
      requires Valid() && iLen <= iMsg && |prefix| == iLen && |body| == lMsg && len == iMsg + lMsg
      requires Buf() == prefix + Buf()[iLen..iMsg] + body
      modifies this`store, this`len
      ensures Valid() && iLen + lLen + lMsg <= |store|
      ensures store[..iLen] == prefix && store[iLen + lLen..iLen + lLen + lMsg] == body
    {
      assert store[..iLen] == prefix && store[iMsg..iMsg + lMsg] == body by {
        assert Buf()[..iLen] == prefix && Buf()[iMsg..] == body;
      }
      var x := lLen - (iMsg - iLen);
      if x > 0 {
        AppendAll(seq(x, _ => 0));
        assert store[..iLen] == prefix && store[iMsg..iMsg + lMsg] == body by {
          assert Buf()[..iLen] == prefix && Buf()[iMsg..iMsg + lMsg] == body;
        }
        Move(iMsg + x, iMsg, lMsg);
        assert store[..iLen] == store[..iMsg + x][..iLen];
      } else if x < 0 {
        Move(iMsg + x, iMsg, lMsg);
        assert store[..iLen] == store[..iMsg + x][..iLen];
        Reslice(len + x);
      }
    }

    /** Writes the length over what was reserved and uncovers the body behind it. */
    method Patch(iLen: nat, lMsg: nat, ghost prefix: seq<byte>, ghost body: seq<byte>)
      requires |prefix| == iLen && |body| == lMsg && iLen + |Varint(lMsg)| + lMsg <= |store|
      requires store[..iLen] == prefix && store[iLen + |Varint(lMsg)|..iLen + |Varint(lMsg)| + lMsg] == body
      modifies this`store, this`len
      ensures Valid() && Buf() == prefix + (Varint(lMsg) + body)
    {
      ghost var behind := iLen + |Varint(lMsg)|;
      assert store[behind..][..lMsg] == body;
      Reslice(iLen);
      EncodeVarint(lMsg);
      assert store[len..][..lMsg] == body;
      Reslice(len + lMsg);
    }

    /**
      enc_len_thing: reserve four bytes, encode behind them, move the encoding to where it
      belongs once its length is known, and write the length over the reserved bytes.
     */
    method EncodeDelimited(ts: seq<Thing>, e: Error) returns (e': Error)
      requires Valid() && e != Fatal
      modifies this`store, this`len
      ensures Valid() && len >= old(len) && Buf()[..old(len)] == old(Buf())
      ensures e' == ErrorOfAll(ts, e)
      ensures e' != Fatal ==> Buf() == old(Buf()) + Wire(Delimited(ts))
      decreases ts, 1
    {
      var iLen := len;
      ghost var prefix := Buf();
      AppendAll([0, 0, 0, 0]);
      var iMsg := len;
      ghost var reserved := Buf();
      e' := EncodeAll(ts, e);
      if e' == Fatal {
        assert Buf()[..iLen] == Buf()[..iMsg][..iLen];
        return;
      }
      var lMsg := len - iMsg;
      ghost var body := WireAll(ts);
      assert Buf() == prefix + Buf()[iLen..iMsg] + body;
      var lLen := SizeVarint(lMsg);
      Shift(iLen, iMsg, lLen, lMsg, prefix, body);
      Patch(iLen, lMsg, prefix, body);
    }

    // ---- Decoding ----

    ghost function Rest(): seq<byte>
      reads this
      requires Valid() && index <= len
    {
      store[index..len]
    }

    /** Buffer.DecodeVarint. The seven bits of a byte are above those so far, so that or-ing them
        in is adding them. */
    method DecodeVarint() returns (r: Var)
      requires Valid() && index <= len
      modifies this`index
      ensures index <= len && r == DecodeVar(old(Rest()))
      ensures index == old(index) + if r.Var? then r.n else 0
    {
      hide Pow128, ParseVar;
      var x, i, shift, k := 0, index, 0, 0;
      ghost var acc: nat := 0;
      ghost var s := Rest();
      ParseVarEnds(s, 10);
      while shift < 64
        invariant 0 <= k <= 10 && shift == 7 * k
        invariant index == old(index) <= i <= len && i == index + k
        invariant x == acc % TWO_64
        invariant ParseVar(s, 10) == Prepend(acc, k, ParseVar(store[i..len], 10 - k))
      {
        ParseVarEnds(store[i..len], 10 - k);
        if i >= len {
          return UnexpectedEof;
        }
        var b := store[i];
        PrependStep(acc, k, store[i..len], 10 - k);
        assert store[i..len][1..] == store[i + 1..len];
        i := i + 1;
        var bits := (b as nat % 128) * Pow128(k);
        AddModulo(x, acc, bits);
        x := (x + bits) % TWO_64;
        acc := acc + bits;
        if b < 128 {
          r := Var(x, i - index);
          index := i;
          return;
        }
        shift, k := shift + 7, k + 1;
      }
      ParseVarEnds(store[i..len], 0);
      return Overflow;
    }

    /** DecodeRawBytes, with the int conversions of a 64-bit machine. */
    method DecodeRawBytes() returns (r: Option<seq<byte>>)
      requires Valid() && index <= len < TWO_63
      modifies this`index
      ensures index <= len
      ensures r.Some? <==> RawLen(old(Rest())).Some?
      ensures r.Some? ==>
        && index == old(index) + RawLen(old(Rest())).value
        && r.value == old(Rest())[DecodeVar(old(Rest())).n..RawLen(old(Rest())).value]
    {
      ghost var s := Rest();
      var v := DecodeVarint();
      if !v.Var? {
        return None;
      }
      var nb := Int64(v.value);
      if nb < 0 {
        return None;
      }
      var end := Int64(index + nb);
      if end < index || end > len {
        return None;
      }
      r := Some(store[index..end]);
      assert r.value == s[v.n..v.n + nb];
      index := index + nb;
    }

    method DecodeFixed(size: nat) returns (ok: bool)
      requires Valid() && index <= len
      modifies this`index
      ensures index <= len && ok == (|old(Rest())| >= size) && index == old(index) + if ok then size else 0
    {
      var i := index + size;
      if i > len {
        return false;
      }
      index := i;
      return true;
    }

    /** skip: where it ends up, and when it fails. */
    method Skip(wire: nat) returns (ok: bool)
      requires Valid() && index <= len < TWO_63
      modifies this`index
      ensures index <= len
      ensures ok == FieldLen(old(Rest()), wire).Some?
      ensures ok ==> index == old(index) + FieldLen(old(Rest()), wire).value
      decreases len - index, 1
    {
      match wire
      case 0 =>
        var v := DecodeVarint();
        return v.Var?;
      case 1 => ok := DecodeFixed(8);
      case 2 =>
        var r := DecodeRawBytes();
        return r.Some?;
      case 5 => ok := DecodeFixed(4);
      case 3 => ok := SkipGroup();
      case _ => return false;
    }

    /** The fields of a group, up to an end-group key. */
    method SkipGroup() returns (ok: bool)
      requires Valid() && index <= len < TWO_63
      modifies this`index
      ensures index <= len
      ensures ok == GroupLen(old(Rest())).Some?
      ensures ok ==> index == old(index) + GroupLen(old(Rest())).value
      decreases len - index, 0
    {
      hide DecodeVar, FieldLen, GroupLen;
      ghost var all, d := Rest(), 0;
      assert all[0..] == all;
      while true
        invariant index == old(index) + d <= len && Rest() == all[d..]
        invariant GroupLen(all) == Plus(d, GroupLen(all[d..]))
        decreases len - index
      {
        GroupLenAt(all, d);
        var v := DecodeVarint();
        if !v.Var? {
          return false;
        }
        var fwire := v.value % 8;
        if fwire == END_GROUP {
          return true;
        }
        ghost var n := d + v.n;
        assert Rest() == all[n..];
        ok := Skip(fwire);
        if !ok {
          return false;
        }
        d := n + FieldLen(all[n..], fwire).value;
        assert Rest() == all[d..];
      }
    }
  }

  /** Conversion to a 64-bit integer. */
  function Int64(x: int): (r: int)
    ensures -TWO_63 <= r < TWO_63
    ensures -TWO_63 <= x < TWO_63 ==> r == x
    ensures TWO_63 <= x < TWO_64 ==> r == x - TWO_64
  {
    (x + TWO_63) % TWO_64 - TWO_63
  }

  const END_GROUP: nat := 4

  function Plus(n: nat, r: Option<nat>): Option<nat> {
    if r.Some? then Some(n + r.value) else None
  }

  /** The bytes that a length-delimited value takes. */
  function RawLen(s: seq<byte>): (r: Option<nat>)
    ensures r.Some? ==> DecodeVar(s).Var? && DecodeVar(s).n <= r.value <= |s|
  {
    var v := DecodeVar(s);
    if v.Var? && v.n + v.value <= |s| then Some(v.n + v.value) else None
  }

  /** The bytes that a field of a wire type takes, behind its key. */
  function FieldLen(s: seq<byte>, wire: nat): (r: Option<nat>)
    ensures r.Some? ==> r.value <= |s|
    decreases |s|, 1
  {
    match wire
    case 0 => if DecodeVar(s).Var? then Some(DecodeVar(s).n) else None
    case 1 => if |s| >= 8 then Some(8) else None
    case 2 => RawLen(s)
    case 3 => GroupLen(s)
    case 5 => if |s| >= 4 then Some(4) else None
    case _ => None
  }

  function GroupLen(s: seq<byte>): (r: Option<nat>)
    ensures r.Some? ==> r.value <= |s|
    decreases |s|, 0
  {
    var v := DecodeVar(s);
    if !v.Var? then None
    else if v.value % 8 == END_GROUP then Some(v.n)
    else
      var f := FieldLen(s[v.n..], v.value % 8);
      if f.None? then None else Plus(v.n + f.value, GroupLen(s[v.n + f.value..]))
  }

  /** A varint of which k bytes, worth acc, have been read. */
  function Prepend(acc: nat, k: nat, r: Var): Var {
    if r.Var? then Var(acc + Pow128(k) * r.value, k + r.n) else r
  }

  lemma ParseVarEnds(s: seq<byte>, room: nat)
    ensures room == 0 ==> ParseVar(s, room) == Overflow
    ensures room > 0 && s == [] ==> ParseVar(s, room) == UnexpectedEof
    ensures Prepend(0, 0, ParseVar(s, room)) == ParseVar(s, room)
  {
  }

  lemma PrependStep(acc: nat, k: nat, s: seq<byte>, room: nat)
    requires s != [] && room > 0
    ensures var acc' := acc + (s[0] as nat % 128) * Pow128(k);
            Prepend(acc, k, ParseVar(s, room))
            == if s[0] < 128 then Var(acc', k + 1) else Prepend(acc', k + 1, ParseVar(s[1..], room - 1))
  {
    var r := ParseVar(s[1..], room - 1);
    if s[0] >= 128 && r.Var? {
      var p, b := Pow128(k), s[0] as nat - 128;
      assert p * (b + 128 * r.value) == b * p + (128 * p) * r.value;
    }
  }

  lemma AddModulo(x: nat, acc: nat, y: nat)
    requires x == acc % TWO_64
    ensures (x + y) % TWO_64 == (acc + y) % TWO_64
  {
    assert acc + y == (x + y) + TWO_64 * (acc / TWO_64);
  }

  /** One more field of a group, d bytes into it. */
  lemma GroupLenAt(all: seq<byte>, d: nat)
    requires d <= |all|
    ensures var v := DecodeVar(all[d..]);
            if !v.Var? then GroupLen(all[d..]) == None
            else if v.value % 8 == END_GROUP then GroupLen(all[d..]) == Some(v.n)
            else
              var n := d + v.n;
              var f := FieldLen(all[n..], v.value % 8);
              if f.None? then GroupLen(all[d..]) == None
              else GroupLen(all[d..]) == Plus(v.n + f.value, GroupLen(all[n + f.value..]))
  {
    hide DecodeVar, FieldLen;
    var v := DecodeVar(all[d..]);
    if v.Var? && v.value % 8 != END_GROUP {
      assert all[d..][v.n..] == all[d + v.n..];
      var f := FieldLen(all[d + v.n..], v.value % 8);
      if f.Some? {
        assert all[d..][v.n + f.value..] == all[d + v.n + f.value..];
      }
    }
  }

  // ---- Fields on the wire ----

  /** A field behind its key; `key`, `size` and `end` are varints, canonical or not. */
  datatype Field =
    | VarintField(bytes: seq<byte>)
    | Fixed64Field(bytes: seq<byte>)
    | BytesField(size: seq<byte>, body: seq<byte>)
    | GroupField(entries: seq<Entry>, end: seq<byte>)
    | Fixed32Field(bytes: seq<byte>)

  datatype Entry = Entry(key: seq<byte>, field: Field)

  predicate IsVar(s: seq<byte>) {
    DecodeVar(s).Var? && DecodeVar(s).n == |s|
  }

  function WireType(f: Field): nat {
    match f
    case VarintField(_) => 0
    case Fixed64Field(_) => 1
    case BytesField(_, _) => 2
    case GroupField(_, _) => 3
    case Fixed32Field(_) => 5
  }

  predicate WellFormed(f: Field) {
    match f
    case VarintField(b) => IsVar(b)
    case Fixed64Field(b) => |b| == 8
    case BytesField(size, body) => IsVar(size) && DecodeVar(size).value == |body|
    case GroupField(es, end) => WellFormedAll(es) && IsVar(end) && DecodeVar(end).value % 8 == END_GROUP
    case Fixed32Field(b) => |b| == 4
  }

  predicate WellFormedAll(es: seq<Entry>) {
    es == [] ||
    (IsVar(es[0].key) && DecodeVar(es[0].key).value % 8 == WireType(es[0].field) && WellFormed(es[0].field) && WellFormedAll(es[1..]))
  }

  function FieldBytes(f: Field): seq<byte> {
    match f
    case VarintField(b) => b
    case Fixed64Field(b) => b
    case BytesField(size, body) => size + body
    case GroupField(es, end) => EntryBytes(es) + end
    case Fixed32Field(b) => b
  }

  function EntryBytes(es: seq<Entry>): seq<byte> {
    if es == [] then [] else es[0].key + FieldBytes(es[0].field) + EntryBytes(es[1..])
  }

  lemma {:induction false} ParseVarPrefix(s: seq<byte>, rest: seq<byte>, room: nat)
    requires ParseVar(s, room).Var?
    ensures ParseVar(s + rest, room) == ParseVar(s, room)
  {
    if s[0] >= 128 {
      assert (s + rest)[1..] == s[1..] + rest;
      ParseVarPrefix(s[1..], rest, room - 1);
    }
  }

  lemma DecodeVarPrefix(s: seq<byte>, rest: seq<byte>)
    requires DecodeVar(s).Var?
    ensures DecodeVar(s + rest) == DecodeVar(s)
  {
    ParseVarPrefix(s, rest, MAX_VARINT_BYTES);
  }

  /** Skipping a well-formed field of any nesting consumes exactly that field. */
  lemma {:induction false} SkipsField(f: Field, rest: seq<byte>)
    requires WellFormed(f)
    ensures FieldLen(FieldBytes(f) + rest, WireType(f)) == Some(|FieldBytes(f)|)
    decreases f, 1
  {
    var s := FieldBytes(f) + rest;
    match f
    case VarintField(b) => DecodeVarPrefix(b, rest);
    case Fixed64Field(_) =>
    case Fixed32Field(_) =>
    case BytesField(size, body) =>
      assert s == size + (body + rest);
      DecodeVarPrefix(size, body + rest);
    case GroupField(es, end) => SkipsEntries(es, end, rest);
  }

  lemma {:induction false} SkipsEntries(es: seq<Entry>, end: seq<byte>, rest: seq<byte>)
    requires WellFormedAll(es) && IsVar(end) && DecodeVar(end).value % 8 == END_GROUP
    ensures GroupLen(EntryBytes(es) + end + rest) == Some(|EntryBytes(es) + end|)
    decreases es, 0
  {
    hide DecodeVar, FieldLen;
    var s := EntryBytes(es) + end + rest;
    if es == [] {
      assert s == end + rest;
      DecodeVarPrefix(end, rest);
    } else {
      var key, field, behind := es[0].key, FieldBytes(es[0].field), EntryBytes(es[1..]) + end + rest;
      assert s == key + (field + behind);
      SkipsField(es[0].field, behind);
      GroupStep(key, field, behind);
      SkipsEntries(es[1..], end, rest);
    }
  }

  lemma GroupStep(key: seq<byte>, field: seq<byte>, behind: seq<byte>)
    requires IsVar(key) && DecodeVar(key).value % 8 != END_GROUP
    requires FieldLen(field + behind, DecodeVar(key).value % 8) == Some(|field|)
    ensures GroupLen(key + (field + behind)) == Plus(|key| + |field|, GroupLen(behind))
  {
    hide DecodeVar, FieldLen;
    var s := key + (field + behind);
    DecodeVarPrefix(key, field + behind);
    assert s[|key|..] == field + behind && s[|key| + |field|..] == behind;
  }

  /** And what skip accepts is a well-formed field. */
  lemma {:induction false} SkipIsSound(s: seq<byte>, wire: nat) returns (f: Field)
    requires FieldLen(s, wire).Some?
    ensures WellFormed(f) && WireType(f) == wire && FieldBytes(f) == s[..FieldLen(s, wire).value]
    decreases |s|, 1
  {
    var n := FieldLen(s, wire).value;
    if wire == 0 {
      VarAlone(s);
      return VarintField(s[..n]);
    } else if wire == 1 {
      return Fixed64Field(s[..8]);
    } else if wire == 2 {
      VarAlone(s);
      var k := DecodeVar(s).n;
      assert s[..n] == s[..k] + s[k..n];
      return BytesField(s[..k], s[k..n]);
    } else if wire == 5 {
      return Fixed32Field(s[..4]);
    } else {
      var es, end := GroupIsSound(s);
      return GroupField(es, end);
    }
  }

  lemma {:induction false} GroupIsSound(s: seq<byte>) returns (es: seq<Entry>, end: seq<byte>)
    requires GroupLen(s).Some?
    ensures WellFormedAll(es) && IsVar(end) && DecodeVar(end).value % 8 == END_GROUP
    ensures EntryBytes(es) + end == s[..GroupLen(s).value]
    decreases |s|, 0
  {
    hide *;
    GroupParts(s);
    VarAlone(s);
    var k, wire := DecodeVar(s).n, DecodeVar(s).value % 8;
    if wire == END_GROUP {
      EmptyGroup(s[..k]);
      return [], s[..k];
    }
    var n := FieldLen(s[k..], wire).value;
    var f := SkipIsSound(s[k..], wire);
    var more;
    more, end := GroupIsSound(s[k + n..]);
    es := [Entry(s[..k], f)] + more;
    GroupCons(s, k, n, f, more, end, GroupLen(s[k + n..]).value);
  }

  /** What a group that skip accepts begins with. */
  lemma GroupParts(s: seq<byte>)
    requires GroupLen(s).Some?
    ensures DecodeVar(s).Var?
    ensures var k, wire := DecodeVar(s).n, DecodeVar(s).value % 8;
            if wire == END_GROUP then GroupLen(s).value == k
            else
              && FieldLen(s[k..], wire).Some?
              && var n := FieldLen(s[k..], wire).value;
              GroupLen(s[k + n..]).Some? && GroupLen(s).value == k + n + GroupLen(s[k + n..]).value
  {
    hide DecodeVar, FieldLen;
  }

  lemma EmptyGroup(end: seq<byte>)
    ensures WellFormedAll([]) && EntryBytes([]) + end == end
  {
  }

  lemma GroupCons(s: seq<byte>, k: nat, n: nat, f: Field, more: seq<Entry>, end: seq<byte>, g: nat)
    requires k + n + g <= |s| && IsVar(s[..k]) && DecodeVar(s[..k]).value % 8 == WireType(f)
    requires WellFormed(f) && FieldBytes(f) == s[k..][..n]
    requires WellFormedAll(more) && EntryBytes(more) + end == s[k + n..][..g]
    ensures WellFormedAll([Entry(s[..k], f)] + more)
    ensures EntryBytes([Entry(s[..k], f)] + more) + end == s[..k + n + g]
  {
    hide IsVar, DecodeVar, WellFormed, FieldBytes;
    var es := [Entry(s[..k], f)] + more;
    assert es[1..] == more;
    assert s[..k + n + g] == s[..k] + s[k..][..n] + s[k + n..][..g];
  }

  lemma VarAlone(s: seq<byte>)
    requires DecodeVar(s).Var?
    ensures DecodeVar(s[..DecodeVar(s).n]) == DecodeVar(s) && IsVar(s[..DecodeVar(s).n])
  {
    ParseVarAlone(s, MAX_VARINT_BYTES);
  }

  lemma {:induction false} ParseVarAlone(s: seq<byte>, room: nat)
    requires ParseVar(s, room).Var?
    ensures ParseVar(s[..ParseVar(s, room).n], room) == ParseVar(s, room)
  {
    if s[0] >= 128 {
      var n := ParseVar(s, room).n;
      assert s[..n][1..] == s[1..][..n - 1];
      ParseVarAlone(s[1..], room - 1);
    }
  }

  /** What enc_len_thing wrote, DecodeRawBytes reads: the body, up to right behind it. */
  lemma DecodesDelimited(ts: seq<Thing>, rest: seq<byte>)
    requires |WireAll(ts)| < TWO_63
    ensures var s := Wire(Delimited(ts)) + rest;
            && RawLen(s) == Some(|Wire(Delimited(ts))|)
            && s[DecodeVar(s).n..RawLen(s).value] == WireAll(ts)
  {
    var body := WireAll(ts);
    var s := Wire(Delimited(ts)) + rest;
    assert s == Varint(|body|) + (body + rest);
    DecodesVarint(|body|, body + rest);
  }
}
