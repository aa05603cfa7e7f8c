/**
  The Skip32 block cipher, used to obfuscate integers: a Feistel network of 24 rounds on two
  16-bit halves, run with the round numbers upwards or downwards.
 */
module Skip32 {

  // ---- Any Feistel network ----

  datatype Halves = Halves(l: bv16, r: bv16)

  function Swap(x: Halves): Halves {
    Halves(x.r, x.l)
  }

  function Xor(a: bv16, b: bv16): bv16 {
    a ^ b
  }

  lemma XorUndone(a: bv16, b: bv16)
    ensures Xor(Xor(a, b), b) == a
  {
  }

  /** One round; the halves change places. */
  function Round(f: (int, bv16) -> bv16, k: int, x: Halves): Halves {
    Halves(Xor(x.r, f(k, x.l)), x.l)
  }

  /** n rounds, with the numbers k, k + step, k + 2 * step, ... */
  function Rounds(f: (int, bv16) -> bv16, k: int, step: int, n: nat, x: Halves): Halves
    decreases n
  {
    if n == 0 then x else Rounds(f, k + step, step, n - 1, Round(f, k, x))
  }

  /** A round undoes itself between two swaps, whatever the round function is. */
  lemma RoundUndone(f: (int, bv16) -> bv16, k: int, x: Halves)
    ensures Round(f, k, Swap(Round(f, k, x))) == Swap(x)
  {
    XorUndone(x.r, f(k, x.l));
  }

  lemma {:induction false} RoundsLast(f: (int, bv16) -> bv16, k: int, step: int, n: nat, x: Halves)
    decreases n
    ensures Rounds(f, k, step, n + 1, x) == Round(f, k + n * step, Rounds(f, k, step, n, x))
  {
    if n > 0 {
      RoundsLast(f, k + step, step, n - 1, Round(f, k, x));
      assert k + step + (n - 1) * step == k + n * step;
    }
  }

  /** The rounds in the opposite order undo the rounds, between two swaps. */
  lemma {:induction false} RoundsUndone(f: (int, bv16) -> bv16, k: int, step: int, n: nat, x: Halves)
    decreases n
    ensures Rounds(f, k + (n - 1) * step, -step, n, Swap(Rounds(f, k, step, n, x))) == Swap(x)
  {
    if n > 0 {
      var last := k + (n - 1) * step;
      var y := Rounds(f, k, step, n - 1, x);
      RoundsLast(f, k, step, n - 1, x);
      RoundUndone(f, last, y);
      RoundsUndone(f, k, step, n - 1, x);
      assert last - step == k + (n - 2) * step;
    }
  }

  // ---- The cipher ----

  const FTABLE: seq<bv8> := [
    0xa3, 0xd7, 0x09, 0x83, 0xf8, 0x48, 0xf6, 0xf4, 0xb3, 0x21, 0x15, 0x78, 0x99, 0xb1, 0xaf, 0xf9,
    0xe7, 0x2d, 0x4d, 0x8a, 0xce, 0x4c, 0xca, 0x2e, 0x52, 0x95, 0xd9, 0x1e, 0x4e, 0x38, 0x44, 0x28,
    0x0a, 0xdf, 0x02, 0xa0, 0x17, 0xf1, 0x60, 0x68, 0x12, 0xb7, 0x7a, 0xc3, 0xe9, 0xfa, 0x3d, 0x53,
    0x96, 0x84, 0x6b, 0xba, 0xf2, 0x63, 0x9a, 0x19, 0x7c, 0xae, 0xe5, 0xf5, 0xf7, 0x16, 0x6a, 0xa2,
    0x39, 0xb6, 0x7b, 0x0f, 0xc1, 0x93, 0x81, 0x1b, 0xee, 0xb4, 0x1a, 0xea, 0xd0, 0x91, 0x2f, 0xb8,
    0x55, 0xb9, 0xda, 0x85, 0x3f, 0x41, 0xbf, 0xe0, 0x5a, 0x58, 0x80, 0x5f, 0x66, 0x0b, 0xd8, 0x90,
    0x35, 0xd5, 0xc0, 0xa7, 0x33, 0x06, 0x65, 0x69, 0x45, 0x00, 0x94, 0x56, 0x6d, 0x98, 0x9b, 0x76,
    0x97, 0xfc, 0xb2, 0xc2, 0xb0, 0xfe, 0xdb, 0x20, 0xe1, 0xeb, 0xd6, 0xe4, 0xdd, 0x47, 0x4a, 0x1d,
    0x42, 0xed, 0x9e, 0x6e, 0x49, 0x3c, 0xcd, 0x43, 0x27, 0xd2, 0x07, 0xd4, 0xde, 0xc7, 0x67, 0x18,
    0x89, 0xcb, 0x30, 0x1f, 0x8d, 0xc6, 0x8f, 0xaa, 0xc8, 0x74, 0xdc, 0xc9, 0x5d, 0x5c, 0x31, 0xa4,
    0x70, 0x88, 0x61, 0x2c, 0x9f, 0x0d, 0x2b, 0x87, 0x50, 0x82, 0x54, 0x64, 0x26, 0x7d, 0x03, 0x40,
    0x34, 0x4b, 0x1c, 0x73, 0xd1, 0xc4, 0xfd, 0x3b, 0xcc, 0xfb, 0x7f, 0xab, 0xe6, 0x3e, 0x5b, 0xa5,
    0xad, 0x04, 0x23, 0x9c, 0x14, 0x51, 0x22, 0xf0, 0x29, 0x79, 0x71, 0x7e, 0xff, 0x8c, 0x0e, 0xe2,
    0x0c, 0xef, 0xbc, 0x72, 0x75, 0x6f, 0x37, 0xa1, 0xec, 0xd3, 0x8e, 0x62, 0x8b, 0x86, 0x10, 0xe8,
    0x08, 0x77, 0x11, 0xbe, 0x92, 0x4f, 0x24, 0xc5, 0x32, 0x36, 0x9d, 0xcf, 0xf3, 0xa6, 0xbb, 0xac,
    0x5e, 0x6c, 0xa9, 0x13, 0x57, 0x25, 0xb5, 0xe3, 0xbd, 0xa8, 0x3a, 0x01, 0x05, 0x59, 0x2a, 0x46
  ]

  const KEY_SIZE: nat := 10

  type Key = k: seq<bv8> | |k| == KEY_SIZE witness [0, 0, 0, 0, 0, 0, 0, 0, 0, 0]

  /** Go's remainder for the non-negative numbers that occur. */
  function KeyByte(key: Key, n: nat): bv8 {
    key[n % KEY_SIZE]
  }

  function F(b: bv8): bv8 {
    FTABLE[b as int]
  }

  function G(key: Key, k: nat, w: bv16): bv16 {
    var g1 := ((w >> 8) & 0xff) as bv8;
    var g2 := (w & 0xff) as bv8;
    var g3 := F(g2 ^ KeyByte(key, 4 * k)) ^ g1;
    var g4 := F(g3 ^ KeyByte(key, 4 * k + 1)) ^ g2;
    var g5 := F(g4 ^ KeyByte(key, 4 * k + 2)) ^ g3;
    var g6 := F(g5 ^ KeyByte(key, 4 * k + 3)) ^ g4;
    ((g5 as bv16) << 8) + (g6 as bv16)
  }

  /** What a round mixes in; rounds are numbered 0 to 23. */
  function MixIn(key: Key, k: int, w: bv16): bv16
    requires 0 <= k < 24
  {
    G(key, k, w) ^ (k as bv16)
  }

  function Mix(key: Key, k: int, w: bv16): bv16 {
    if 0 <= k < 24 then MixIn(key, k, w) else 0
  }

  function Mixer(key: Key): (int, bv16) -> bv16 {
    (k: int, w: bv16) => Mix(key, k, w)
  }

  lemma MixerAt(key: Key, k: int, w: bv16)
    requires 0 <= k < 24
    ensures Mixer(key)(k, w) == MixIn(key, k, w)
  {
  }

  function Pack(hi: bv8, lo: bv8): bv16 {
    ((hi as bv16) << 8) + (lo as bv16)
  }

  function High(w: bv16): bv8 {
    (w >> 8) as bv8
  }

  function Low(w: bv16): bv8 {
    (w & 0xFF) as bv8
  }

  lemma PackUnpack(w: bv16)
    ensures Pack(High(w), Low(w)) == w
  {
  }

  lemma UnpackPack(hi: bv8, lo: bv8)
    ensures High(Pack(hi, lo)) == hi && Low(Pack(hi, lo)) == lo
  {
  }

  function ToHalves(b: seq<bv8>): Halves
    requires |b| == 4
  {
    Halves(Pack(b[0], b[1]), Pack(b[2], b[3]))
  }

  function ToBytes(x: Halves): (b: seq<bv8>)
    ensures |b| == 4
  {
    [High(x.l), Low(x.l), High(x.r), Low(x.r)]
  }

  lemma BytesOfHalves(b: seq<bv8>)
    requires |b| == 4
    ensures ToBytes(ToHalves(b)) == b
  {
    UnpackPack(b[0], b[1]);
    UnpackPack(b[2], b[3]);
  }

  lemma HalvesOfBytes(x: Halves)
    ensures ToHalves(ToBytes(x)) == x
  {
    PackUnpack(x.l);
    PackUnpack(x.r);
  }

  function Crypt(key: Key, b: seq<bv8>, encrypt: bool): (r: seq<bv8>)
    requires |b| == 4
    ensures |r| == 4
  {
    var f := Mixer(key);
    ToBytes(Swap(if encrypt then Rounds(f, 0, 1, 24, ToHalves(b)) else Rounds(f, 23, -1, 24, ToHalves(b))))
  }

  /** The loop of crypt32: two rounds at a time, without exchanging the halves. */
  method RunRounds(key: Key, wl0: bv16, wr0: bv16, encrypt: bool) returns (wl: bv16, wr: bv16)
    ensures Halves(wl, wr) == if encrypt then Rounds(Mixer(key), 0, 1, 24, Halves(wl0, wr0)) else Rounds(Mixer(key), 23, -1, 24, Halves(wl0, wr0))
  {
    hide Xor, MixIn, Mixer, Rounds;
    var kstep, k;
    if encrypt {
      kstep, k := 1, 0;
    } else {
      kstep, k := -1, 23;
    }
    wl, wr := wl0, wr0;
    ghost var f := Mixer(key);
    ghost var goal := Rounds(f, k, kstep, 24, Halves(wl, wr));
    for i := 0 to 12
      invariant goal == Rounds(f, k, kstep, 24 - 2 * i, Halves(wl, wr))
      invariant k == if encrypt then 2 * i else 23 - 2 * i
    {
      TwoRounds(f, k, kstep, 24 - 2 * i, Halves(wl, wr));
      MixerAt(key, k, wl);
      wr := Xor(wr, MixIn(key, k, wl));
      k := k + kstep;
      MixerAt(key, k, wr);
      wl := Xor(wl, MixIn(key, k, wr));
      k := k + kstep;
    }
    NoRounds(f, k, kstep, Halves(wl, wr));
  }

  lemma NoRounds(f: (int, bv16) -> bv16, k: int, step: int, x: Halves)
    ensures Rounds(f, k, step, 0, x) == x
  {
  }

  /** crypt32, in place on four bytes. */
  method Crypt32(key: Key, buf: array<bv8>, encrypt: bool)
    requires buf.Length == 4
    modifies buf
    ensures buf[..] == Crypt(key, old(buf[..]), encrypt)
  {
    hide Pack, High, Low, Rounds, Mixer;
    var wl := Pack(buf[0], buf[1]);
    var wr := Pack(buf[2], buf[3]);
    ghost var x := ToHalves(buf[..]);
    wl, wr := RunRounds(key, wl, wr, encrypt);
    buf[0] := High(wr);
    buf[1] := Low(wr);
    buf[2] := High(wl);
    buf[3] := Low(wl);
    assert buf[..] == ToBytes(Swap(Halves(wl, wr)));
  }

  lemma TwoRounds(f: (int, bv16) -> bv16, k: int, step: int, n: nat, x: Halves)
    requires n >= 2
    ensures var r := Xor(x.r, f(k, x.l));
            Rounds(f, k, step, n, x) == Rounds(f, k + 2 * step, step, n - 2, Halves(Xor(x.l, f(k + step, r)), r))
  {
    hide Xor;
    var r := Xor(x.r, f(k, x.l));
    var y := Round(f, k, x);
    assert Rounds(f, k, step, n, x) == Rounds(f, k + step, step, n - 1, y);
    assert Rounds(f, k + step, step, n - 1, y) == Rounds(f, k + step + step, step, n - 2, Round(f, k + step, y));
    assert Round(f, k + step, y) == Halves(Xor(x.l, f(k + step, r)), r);
    assert k + step + step == k + 2 * step;
  }

  /** Decryption undoes encryption, and encryption undoes decryption. */
  lemma CryptInverse(key: Key, b: seq<bv8>, encrypt: bool)
    requires |b| == 4
    ensures Crypt(key, Crypt(key, b, encrypt), !encrypt) == b
  {
    hide Rounds, Mixer, Pack, High, Low, ToBytes, ToHalves;
    var f := Mixer(key);
    var x := ToHalves(b);
    var y := if encrypt then Rounds(f, 0, 1, 24, x) else Rounds(f, 23, -1, 24, x);
    HalvesOfBytes(Swap(y));
    if encrypt {
      RoundsUndone(f, 0, 1, 24, x);
    } else {
      RoundsUndone(f, 23, -1, 24, x);
    }
    assert Swap(Swap(x)) == x;
    BytesOfHalves(b);
  }

  // ---- Obfuscation ----

  function Split32(id: bv32): (b: seq<bv8>)
    ensures |b| == 4
  {
    [((id >> 24) & 0xff) as bv8, ((id >> 16) & 0xff) as bv8, ((id >> 8) & 0xff) as bv8, (id & 0xff) as bv8]
  }

  function Join32(b: seq<bv8>): bv32
    requires |b| == 4
  {
    ((b[0] as bv32) << 24) | ((b[1] as bv32) << 16) | ((b[2] as bv32) << 8) | (b[3] as bv32)
  }

  lemma JoinSplit(id: bv32)
    ensures Join32(Split32(id)) == id
  {
  }

  lemma SplitJoin(b: seq<bv8>)
    requires |b| == 4
    ensures Split32(Join32(b)) == b
  {
    var b0, b1, b2, b3 := b[0], b[1], b[2], b[3];
    var s := Split32(Join32(b));
    assert s[0] == b0 && s[1] == b1 && s[2] == b2 && s[3] == b3;
  }

  /** Obfus (encrypting) and Unobfus (decrypting). */
  function Code(key: Key, id: bv32, encrypt: bool): bv32 {
    Join32(Crypt(key, Split32(id), encrypt))
  }

  method Obfus(key: Key, id: bv32) returns (j: bv32)
    ensures j == Code(key, id, true)
  {
    var buf := new bv8[4] [((id >> 24) & 0xff) as bv8, ((id >> 16) & 0xff) as bv8, ((id >> 8) & 0xff) as bv8, (id & 0xff) as bv8];
    assert buf[..] == Split32(id);
    Crypt32(key, buf, true);
    j := ((buf[0] as bv32) << 24) | ((buf[1] as bv32) << 16) | ((buf[2] as bv32) << 8) | (buf[3] as bv32);
    assert j == Join32(buf[..]);
  }

  method Unobfus(key: Key, id: bv32) returns (j: bv32)
    ensures j == Code(key, id, false)
  {
    var buf := new bv8[4] [((id >> 24) & 0xff) as bv8, ((id >> 16) & 0xff) as bv8, ((id >> 8) & 0xff) as bv8, (id & 0xff) as bv8];
    assert buf[..] == Split32(id);
    Crypt32(key, buf, false);
    j := ((buf[0] as bv32) << 24) | ((buf[1] as bv32) << 16) | ((buf[2] as bv32) << 8) | (buf[3] as bv32);
    assert j == Join32(buf[..]);
  }

  /** For every key: Unobfus inverts Obfus, and Obfus inverts Unobfus. */
  lemma CodeInverse(key: Key, id: bv32, encrypt: bool)
    ensures Code(key, Code(key, id, encrypt), !encrypt) == id
  {
    SplitJoin(Crypt(key, Split32(id), encrypt));
    CryptInverse(key, Split32(id), encrypt);
    JoinSplit(id);
  }

  function Upper(id: bv64): bv32 {
    (id >> 32) as bv32
  }

  function Lower(id: bv64): bv32 {
    (id & 0xffff_ffff) as bv32
  }

  function Wide(a: bv32, b: bv32): bv64 {
    ((a as bv64) << 32) | (b as bv64)
  }

  lemma WideParts(a: bv32, b: bv32)
    ensures Upper(Wide(a, b)) == a && Lower(Wide(a, b)) == b
  {
  }

  lemma PartsWide(id: bv64)
    ensures Wide(Upper(id), Lower(id)) == id
  {
  }

  method Obfus64(key: Key, id: bv64) returns (r: bv64)
    ensures r == Code64(key, id)
  {
    hide Code, Wide, Upper, Lower, Chain;
    var ida, idb := Upper(id), Lower(id);
    var ca := Obfus(key, ida);
    idb := Chain(idb, ca);
    var cb := Obfus(key, idb);
    return Wide(ca, cb);
  }

  method UnObfus64(key: Key, id: bv64) returns (r: bv64)
    ensures r == Decode64(key, id)
  {
    hide Code, Wide, Upper, Lower, Chain;
    var ca, cb := Upper(id), Lower(id);
    var ida := Unobfus(key, ca);
    var idb := Unobfus(key, cb);
    idb := Chain(idb, ca);
    return Wide(ida, idb);
  }

  function Chain(a: bv32, b: bv32): bv32 {
    a ^ b
  }

  /** Two blocks, chained. */
  function Code64(key: Key, id: bv64): bv64 {
    var ca := Code(key, Upper(id), true);
    Wide(ca, Code(key, Chain(Lower(id), ca), true))
  }

  function Decode64(key: Key, id: bv64): bv64 {
    Wide(Code(key, Upper(id), false), Chain(Code(key, Lower(id), false), Upper(id)))
  }

  lemma ChainUndone(a: bv32, b: bv32)
    ensures Chain(Chain(a, b), b) == a
  {
  }

  /** For every key: UnObfus64 inverts Obfus64, ... */
  lemma Decodes64(key: Key, id: bv64)
    ensures Decode64(key, Code64(key, id)) == id
  {
    hide Code, Wide, Upper, Lower, Chain;
    var a, b := Upper(id), Lower(id);
    var ca := Code(key, a, true);
    WideParts(ca, Code(key, Chain(b, ca), true));
    CodeInverse(key, a, true);
    CodeInverse(key, Chain(b, ca), true);
    ChainUndone(b, ca);
    PartsWide(id);
  }

  /** ... and Obfus64 inverts UnObfus64. */
  lemma Codes64(key: Key, id: bv64)
    ensures Code64(key, Decode64(key, id)) == id
  {
    hide Code, Wide, Upper, Lower, Chain;
    var a, b := Upper(id), Lower(id);
    var db := Code(key, b, false);
    WideParts(Code(key, a, false), Chain(db, a));
    CodeInverse(key, a, false);
    CodeInverse(key, b, false);
    ChainUndone(db, a);
    PartsWide(id);
  }
}
