/**
  The generator's instructions as words: what the proofs say of instructions, the generator does
  to single bit fields, and all other words stay bit for bit what they were.
 */
module LuaWords {
  import opened LuaInstructions
  import opened LuaMachine
  import opened LuaGenerator

  /** The fields have the widths they need; a test names one of 256 registers. */
  predicate Writable(i: Instr) {
    && Encodable(i)
    && (i.Jump? ==> -MAX_ARG_SBX <= i.sbx <= MAX_ARG_SBX)
    && (i.TestSet? ==> i.b <= MAX_ARG_A)
  }

  const OP_TEST: Word := 27
  const OP_TEST_SET: Word := 28

  function RelationCode(rel: Relation): Word {
    match rel
    case Equal => 24
    case LessThan => 25
    case LessOrEqual => 26
  }

  /** A number as a word; a byte by its two halves. */
  function W(n: nat): Word
    requires n < 0x1_0000_0000
  {
    if n < 256 then Pair(Nibble(n / 16), Nibble(n % 16)) else n as Word
  }

  function Nibble(n: nat): bv4
    requires n < 16
  {
    n as bv4
  }

  function Pair(x: bv4, y: bv4): Word {
    ((x as Word) << 4) | (y as Word)
  }

  function Biased(sbx: int): Word
    requires -MAX_ARG_SBX <= sbx <= MAX_ARG_SBX
  {
    W(sbx + MAX_ARG_SBX)
  }

  function WordOf(i: Instr): Word
    requires Writable(i)
  {
    match i
    case Move(a, b) => CreateABC(0, W(a), W(b), 0)
    case LoadConstant(a, bx) => CreateABx(1, W(a), W(bx))
    case LoadBool(a, b, c) => CreateABC(3, W(a), W(b), W(c))
    case LoadNil(a, b) => CreateABC(4, W(a), W(b), 0)
    case Not(a, b) => CreateABC(20, W(a), W(b), 0)
    case Jump(a, sbx) => CreateABx(23, W(a), Biased(sbx))
    case Compare(rel, a, b, c) => CreateABC(RelationCode(rel), W(a), W(b), W(c))
    case Test(a, c) => CreateABC(OP_TEST, W(a), 0, W(c))
    case TestSet(a, b, c) => CreateABC(OP_TEST_SET, W(a), W(b), W(c))
    case ExtraArg(ax) => 39 | (W(ax) << 6)
  }

  // ---- What the generator does to words ----

  /** fixJump. */
  function FixWord(w: Word, offset: int): Word
    requires -MAX_ARG_SBX <= offset <= MAX_ARG_SBX
  {
    SetArg(w, 14, 18, Biased(offset))
  }

  /** patchTestRegister. */
  function PatchTestWord(w: Word, register: nat): Word
    requires register <= MAX_ARG_A
  {
    if OpCode(w) != OP_TEST_SET then w
    else if register != NO_REGISTER && W(register) != B(w) then SetArg(w, 6, 8, W(register))
    else CreateABC(OP_TEST, B(w), 0, C(w))
  }

  // ---- Fields ----

  lemma SmallA(n: nat)
    requires n <= MAX_ARG_A
    ensures W(n) < 256
  {
  }

  lemma SmallB(n: nat)
    requires n <= MAX_ARG_B
    ensures W(n) < 512
  {
  }

  lemma SmallBx(n: nat)
    requires n <= MAX_ARG_BX
    ensures W(n) < 0x40000
  {
  }

  lemma NibbleBack(n: nat)
    requires n < 16
    ensures Nibble(n) as int == n
  {
  }

  lemma SamePair(x: bv4, y: bv4, u: bv4, v: bv4)
    ensures Pair(x, y) == Pair(u, v) <==> x == u && y == v
  {
  }

  lemma SameWord(m: nat, n: nat)
    requires m <= MAX_ARG_A && n <= MAX_ARG_A
    ensures W(m) == W(n) <==> m == n
  {
    hide Nibble, Pair;
    SamePair(Nibble(m / 16), Nibble(m % 16), Nibble(n / 16), Nibble(n % 16));
    NibbleBack(m / 16);
    NibbleBack(m % 16);
    NibbleBack(n / 16);
    NibbleBack(n % 16);
  }

  lemma SetAOfABC(op: Word, a: Word, b: Word, c: Word, r: Word)
    requires op < 64 && a < 256 && b < 512 && c < 512 && r < 256
    ensures SetArg(CreateABC(op, a, b, c), 6, 8, r) == CreateABC(op, r, b, c)
  {
  }

  lemma SetBxOfABx(op: Word, a: Word, bx: Word, bx': Word)
    requires op < 64 && a < 256 && bx < 0x40000 && bx' < 0x40000
    ensures SetArg(CreateABx(op, a, bx), 14, 18, bx') == CreateABx(op, a, bx')
  {
  }

  lemma ExtraOp(ax: Word)
    ensures OpCode(39 | (ax << 6)) == 39
  {
  }

  /** The opcode field tells TESTSETs from all other instructions. */
  lemma OpOf(i: Instr)
    requires Writable(i)
    ensures OpCode(WordOf(i)) == OP_TEST_SET <==> i.TestSet?
  {
    hide CreateABC, CreateABx, OpCode, A, B, C, Bx, W;
    match i
    case LoadConstant(a, bx) => SmallA(a); SmallBx(bx);
    case Jump(a, sbx) => SmallA(a); SmallBx(sbx + MAX_ARG_SBX);
    case ExtraArg(ax) => ExtraOp(W(ax));
    case Move(a, b) => SmallA(a); SmallB(b);
    case LoadBool(a, b, c) => SmallA(a); SmallB(b); SmallB(c);
    case LoadNil(a, b) => SmallA(a); SmallB(b);
    case Not(a, b) => SmallA(a); SmallB(b);
    case Compare(rel, a, b, c) => SmallA(a); SmallB(b); SmallB(c);
    case Test(a, c) => SmallA(a); SmallB(c);
    case TestSet(a, b, c) => SmallA(a); SmallB(b); SmallB(c);
  }

  /** Giving a jump an offset. */
  lemma JumpWord(a: nat, sbx: int, offset: int)
    requires Writable(Jump(a, sbx)) && Writable(Jump(a, offset))
    ensures WordOf(Jump(a, offset)) == FixWord(WordOf(Jump(a, sbx)), offset)
  {
    hide CreateABx, SetArg, W;
    SmallA(a);
    SmallBx(sbx + MAX_ARG_SBX);
    SmallBx(offset + MAX_ARG_SBX);
    SetBxOfABx(23, W(a), Biased(sbx), Biased(offset));
  }

  /** Giving a TESTSET its register, or demoting it. */
  lemma TestWord(i: Instr, register: nat)
    requires Writable(i) && i.TestSet? && register <= MAX_ARG_A
    ensures PatchTestWord(WordOf(i), register)
            == WordOf(if register == NO_REGISTER || register == i.b then Test(i.b, i.c) else TestSet(register, i.b, i.c))
  {
    hide CreateABC, SetArg, OpCode, A, B, C, W;
    SmallA(i.a);
    SmallA(i.b);
    SmallB(i.b);
    SmallB(i.c);
    SmallA(register);
    SameWord(register, i.b);
    SetAOfABC(OP_TEST_SET, W(i.a), W(i.b), W(i.c), W(register));
  }

  // ---- Lists ----

  /** patchListHelper on words: exactly the jumps of the list get an offset and exactly the
      TESTSETs in front of them their register; every other word is as before. */
  lemma PatchedWords(code: seq<Instr>, s: seq<nat>, target: int, register: nat, otherwise: int, i: nat)
    requires i < |code| && Writable(code[i]) && register <= MAX_ARG_A
    requires i in s ==> code[i].Jump? && !TooFar(i, if ControlIsTestSet(code, i) then target else otherwise)
    ensures var i' := Patched(code, s, target, register, otherwise)[i];
            && Writable(i')
            && WordOf(i') == if i in s then FixWord(WordOf(code[i]), (if ControlIsTestSet(code, i) then target else otherwise) - (i + 1))
                             else if i + 1 in s then PatchTestWord(WordOf(code[i]), register)
                             else WordOf(code[i])
  {
    hide WordOf, PatchTestWord, FixWord, OpCode;
    var i' := Patched(code, s, target, register, otherwise)[i];
    if i in s {
      JumpWord(code[i].a, code[i].sbx, i'.sbx);
    } else if i + 1 in s {
      if code[i].TestSet? {
        TestWord(code[i], register);
      } else {
        NotTestSet(code[i], register);
      }
    }
  }

  lemma NotTestSet(i: Instr, register: nat)
    requires Writable(i) && !i.TestSet? && register <= MAX_ARG_A
    ensures PatchTestWord(WordOf(i), register) == WordOf(i)
  {
    hide WordOf, OpCode;
    OpOf(i);
  }

  /** Concatenate on words: only the last jump of the first list gets a new link. */
  lemma LinkedWords(code: seq<Instr>, s1: seq<nat>, s2: seq<nat>, i: nat)
    requires i < |code| && Writable(code[i])
    requires s1 != [] && s2 != [] ==> !TooFar(s1[|s1| - 1], s2[0])
    ensures var i' := Linked(code, s1, s2)[i];
            && Writable(i')
            && WordOf(i') == if s1 != [] && s2 != [] && i == s1[|s1| - 1] && code[i].Jump? then FixWord(WordOf(code[i]), s2[0] - (i + 1))
                             else WordOf(code[i])
  {
    hide WordOf, FixWord;
    var i' := Linked(code, s1, s2)[i];
    if s1 != [] && s2 != [] && i == s1[|s1| - 1] && code[i].Jump? {
      JumpWord(code[i].a, code[i].sbx, i'.sbx);
    }
  }
}
