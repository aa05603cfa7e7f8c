/**
  Instructions as 32-bit words: opcode in the low 6 bits, A in the next 8, then C and B with
  9 bits each, or both together as the 18-bit Bx, which as sBx is biased by 131071. Fields are
  words too; a negative sBx is its two's complement.
 */
module LuaInstructions {

  type Word = bv32

  /** A mask of `n` one bits at position `p`. */
  function Mask1(n: bv32, p: bv32): Word
    requires n <= 32 && p <= 32
  {
    !(0xFFFF_FFFF << n) << p
  }

  function OpCode(i: Word): Word { i & 0x3F }
  function A(i: Word): Word { (i >> 6) & 0xFF }
  function B(i: Word): Word { (i >> 23) & 0x1FF }
  function C(i: Word): Word { (i >> 14) & 0x1FF }
  function Bx(i: Word): Word { (i >> 14) & 0x3FFFF }
  function SBx(i: Word): Word { Bx(i) - 0x1FFFF }

  function SetArg(i: Word, pos: bv32, size: bv32, arg: Word): Word
    requires pos <= 32 && size <= 32
  {
    (i & !Mask1(size, pos)) | ((arg << pos) & Mask1(size, pos))
  }

  function SetSBx(i: Word, arg: Word): Word { SetArg(i, 14, 18, arg + 0x1FFFF) }

  function CreateABC(op: Word, a: Word, b: Word, c: Word): (i: Word)
    ensures op < 64 && a < 256 && b < 512 && c < 512 ==> OpCode(i) == op && A(i) == a && B(i) == b && C(i) == c
  {
    op | (a << 6) | (b << 23) | (c << 14)
  }

  function CreateABx(op: Word, a: Word, bx: Word): (i: Word)
    ensures op < 64 && a < 256 && bx < 0x40000 ==> OpCode(i) == op && A(i) == a && Bx(i) == bx
  {
    op | (a << 6) | (bx << 14)
  }

  /** Threading a list through a jump, or giving it its destination: any offset that fixJump
      lets through, 131071 either way, is read back, and opcode and A are as they were. */
  lemma SBxRoundTrip(i: Word, offset: Word)
    requires offset <= 0x1FFFF || offset >= 0xFFFE_0001
    ensures SBx(SetSBx(i, offset)) == offset
    ensures OpCode(SetSBx(i, offset)) == OpCode(i) && A(SetSBx(i, offset)) == A(i)
  {
  }
}
