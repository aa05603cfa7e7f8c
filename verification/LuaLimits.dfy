/**
  When the generator meets no limit of the instructions: in any case with at most 255 registers
  and 262144 constants.
 */
module LuaLimits {
  import opened LuaMachine
  import opened LuaGenerator
  import opened LuaShape

  /** As far as instructions can name. */
  predicate Roomy(g: Gen) {
    g.maxStack <= MAX_ARG_A && |g.constants| <= MAX_ARG_BX + 1
  }

  predicate KindIn(g: Gen, kind: Kind) {
    match kind
    case KConstant(k) => k < |g.constants|
    case KNonRelocatable(r) => r < g.maxStack
    case KLocal(l) => l < g.active
    case KRelocatable(pc) => pc < |g.code| && g.code[pc].Not?
    case _ => true
  }

  /** The registers that LOADNILs clear are registers of the function. */
  predicate NilsIn(g: Gen) {
    NilsBelow(g.code, g.maxStack)
  }

  predicate NilsBelow(code: seq<Instr>, n: nat) {
    forall i :: 0 <= i < |code| && code[i].LoadNil? ==> code[i].a + code[i].b < n
  }

  /** Nothing is lost on the way from g to g', if there is room at the end. */
  ghost predicate Lossless(g: Gen, g': Gen) {
    NilsIn(g) ==> NilsIn(g') && (!g.lossy && Roomy(g') ==> !g'.lossy)
  }

  /** Steps that change neither registers nor constants, add no LOADNIL and leave every NOT. */
  ghost predicate Quiet(g: Gen, g': Gen) {
    && g'.lossy == g.lossy && g'.maxStack == g.maxStack && g'.constants == g.constants && g'.active == g.active
    && Tame(g.code, g'.code)
  }

  ghost predicate Tame(code: seq<Instr>, code': seq<Instr>) {
    && |code| <= |code'|
    && (forall i :: 0 <= i < |code'| && code'[i].LoadNil? ==> i < |code| && code'[i] == code[i])
    && (forall i :: 0 <= i < |code| && code[i].Not? ==> code'[i].Not?)
  }

  lemma QuietTwice(g: Gen, g1: Gen, g2: Gen)
    requires Quiet(g, g1) && Quiet(g1, g2)
    ensures Quiet(g, g2)
  {
  }

  lemma QuietLossless(g: Gen, g': Gen, kind: Kind)
    requires Quiet(g, g')
    ensures Lossless(g, g') && (KindIn(g, kind) ==> KindIn(g', kind))
  {
  }

  lemma LosslessTwice(g: Gen, g1: Gen, g2: Gen)
    requires Lossless(g, g1) && Lossless(g1, g2) && Grows(g, g1) && Grows(g1, g2)
    ensures Lossless(g, g2)
  {
    hide NilsIn;
    assert Roomy(g2) ==> Roomy(g1);
  }

  lemma PatchQuiet(g: Gen, s: seq<nat>, target: int, register: nat, otherwise: int)
    ensures Quiet(g, PatchList(g, s, target, register, otherwise))
  {
  }

  lemma EmitQuiet(g: Gen, i: Instr)
    requires !i.LoadNil?
    ensures Quiet(g, Emit(g, i))
  {
    hide Patched, PatchTooFar, Encodable;
    PatchQuiet(g, g.here, |g.code|, NO_REGISTER, |g.code|);
  }

  lemma ConcatenateQuiet(g: Gen, s1: seq<nat>, s2: seq<nat>)
    ensures Quiet(g, Concatenate(g, s1, s2))
  {
  }

  lemma EmitJumpQuiet(g: Gen)
    ensures Quiet(g, EmitJump(g).0)
  {
    hide Linked;
    var j := g.(code := g.code + [Jump(0, -1)], here := []);
    ConcatenateQuiet(j, [|g.code|], g.here);
    assert Quiet(g, j);
    QuietTwice(g, j, EmitJump(g).0);
  }

  lemma ConditionalQuiet(g: Gen, i: Instr)
    requires !i.LoadNil?
    ensures Quiet(g, ConditionalJump(g, i).0)
  {
    hide Emit, EmitJump;
    EmitQuiet(g, i);
    EmitJumpQuiet(Emit(g, i));
    QuietTwice(g, Emit(g, i), ConditionalJump(g, i).0);
  }

  lemma HereQuiet(g: Gen, s: seq<nat>)
    ensures Quiet(g, PatchToHere(g, s))
  {
    hide Linked;
    ConcatenateQuiet(Label(g), g.here, s);
  }

  lemma LoadsQuiet(g: Gen, r: nat, s: seq<nat>)
    ensures Quiet(g, EmitLoads(g, r, s))
  {
    hide Emit, Concatenate;
    EmitQuiet(Label(g), LoadBool(r, 0, 1));
    var g4 := EmitLabel(g, LoadBool(r, 0, 1));
    EmitQuiet(Label(g4), LoadBool(r, 1, 0));
    var g5 := EmitLabel(g4, LoadBool(r, 1, 0));
    HereQuiet(g5, s);
  }

  lemma PatchBothLossless(g: Gen, d: Desc, r: nat, loadFalse: int, loadTrue: int)
    requires r < g.maxStack
    ensures Lossless(g, PatchBoth(g, d, r, loadFalse, loadTrue))
  {
    hide PatchList;
    PatchQuiet(g, d.f, |g.code|, r, loadFalse);
    PatchQuiet(PatchList(g, d.f, |g.code|, r, loadFalse), d.t, |g.code|, r, loadTrue);
  }

  lemma NilLossless(g: Gen, r: nat)
    requires r < g.maxStack
    ensures Lossless(g, EmitLoadNil(g, r, 1))
  {
    hide Patched, PatchTooFar, Encodable;
    PatchQuiet(g, g.here, |g.code|, NO_REGISTER, |g.code|);
  }

  lemma ConstantLossless(g: Gen, r: nat, k: nat)
    requires k < |g.constants|
    ensures Lossless(g, EmitConstant(g, r, k))
  {
    hide Emit;
    if k <= MAX_ARG_BX {
      EmitQuiet(g, LoadConstant(r, k));
    } else {
      var g1 := g.(lossy := true);
      EmitQuiet(g1, LoadConstant(r, 0));
      EmitQuiet(Emit(g1, LoadConstant(r, 0)), ExtraArg(k));
    }
  }

  lemma DischargeLossless(g: Gen, d: Desc, r: nat)
    requires KindIn(g, d.kind) && g.active <= g.maxStack && r < g.maxStack
    ensures var (g', d') := DischargeToRegister(g, d, r); Lossless(g, g') && KindIn(g', d'.kind)
  {
    hide Emit, EmitLoadNil, EmitConstant;
    match d.kind
    case KNil => NilLossless(g, r);
    case KFalse => EmitQuiet(g, LoadBool(r, 0, 0));
    case KTrue => EmitQuiet(g, LoadBool(r, 1, 0));
    case KConstant(k) => ConstantLossless(g, r, k);
    case KNumber(bits) =>
      var (g1, k) := AddConstant(g, Number(bits));
      ConstantLossless(g1, r, k);
    case KNonRelocatable(x) => EmitQuiet(g, Move(r, x));
    case KLocal(x) => EmitQuiet(g, Move(r, x));
    case _ =>
  }

  lemma AnyDischargeLossless(g: Gen, d: Desc)
    requires KindIn(g, d.kind) && g.active <= g.maxStack
    ensures var (g', d') := DischargeToAnyRegister(g, d); Lossless(g, g') && KindIn(g', d'.kind)
  {
    hide DischargeToRegister;
    if !d.kind.KNonRelocatable? {
      DischargeLossless(Reserve(g, 1), d, g.free);
    }
  }

  lemma SettleLossless(g: Gen, d: Desc, r: nat)
    requires KindIn(g, d.kind) && g.active <= g.maxStack && r < g.maxStack
    ensures Lossless(g, Settle(g, d, r).0)
  {
    hide DischargeToRegister, Concatenate;
    DischargeLossless(g, d, r);
    var (g1, d1) := DischargeToRegister(g, d, r);
    if d1.kind.KJump? {
      ConcatenateQuiet(g1, d1.t, [d1.kind.pc]);
    }
  }

  lemma ToRegisterLossless(g: Gen, d: Desc, r: nat)
    requires KindIn(g, d.kind) && g.active <= g.maxStack && r < g.maxStack
    ensures Lossless(g, ExpressionToRegister(g, d, r))
  {
    hide Lossless, Settle, EmitJump, EmitLoads, PatchBoth, NeedValue;
    SettleLossless(g, d, r);
    var (g2, d2) := Settle(g, d, r);
    if HasJumps(d2) && (NeedValue(g2.code, d2.t) || NeedValue(g2.code, d2.f)) {
      LoadedLossless(g2, d2, r, !d.kind.KJump?);
      LosslessTwice(g, g2, ExpressionToRegister(g, d, r));
    } else if HasJumps(d2) {
      PatchBothLossless(Label(g2), d2, r, -1, -1);
      LabelLossless(g2, PatchBoth(Label(g2), d2, r, -1, -1));
      LosslessTwice(g, g2, ExpressionToRegister(g, d, r));
    }
  }

  lemma LabelLossless(g: Gen, g': Gen)
    requires Lossless(Label(g), g')
    ensures Lossless(g, g')
  {
  }

  lemma LoadedLossless(g: Gen, d: Desc, r: nat, jumped: bool)
    requires r < g.maxStack
    ensures var (g3, jump) := if jumped then EmitJump(g) else (g, []);
            Lossless(g, PatchBoth(EmitLoads(g3, r, jump), d, r, |g3.code|, |g3.code| + 1))
  {
    hide EmitJump, EmitLoads, PatchBoth, NilsIn;
    EmitJumpQuiet(g);
    var (g3, jump) := if jumped then EmitJump(g) else (g, []);
    LoadsQuiet(g3, r, jump);
    QuietLossless(g, EmitJump(g).0, KNil);
    QuietLossless(g3, EmitLoads(g3, r, jump), KNil);
    PatchBothLossless(EmitLoads(g3, r, jump), d, r, |g3.code|, |g3.code| + 1);
  }

  lemma FreeLossless(g: Gen, d: Desc)
    requires KindIn(g, d.kind)
    ensures Lossless(g, FreeExpression(g, d)) && FreeExpression(g, d).code == g.code && KindIn(FreeExpression(g, d), d.kind)
  {
  }

  lemma NextLossless(g: Gen, d: Desc)
    requires KindIn(g, d.kind) && g.active <= g.maxStack
    ensures var (g', d') := ExpressionToNextRegister(g, d); Lossless(g, g') && KindIn(g', d'.kind)
  {
    hide ExpressionToRegister, FreeExpression;
    var d1 := DischargeVariables(d);
    FreeLossless(g, d1);
    var g1 := Reserve(FreeExpression(g, d1), 1);
    ToRegisterLossless(g1, d1, g1.free - 1);
  }

  lemma AnyLossless(g: Gen, d: Desc)
    requires KindIn(g, d.kind) && g.active <= g.maxStack
    ensures var (g', d') := ExpressionToAnyRegister(g, d); Lossless(g, g') && KindIn(g', d'.kind)
  {
    hide ExpressionToRegister, ExpressionToNextRegister;
    var d1 := DischargeVariables(d);
    NextLossless(g, d1);
    if d1.kind.KNonRelocatable? {
      ToRegisterLossless(g, d1, d1.kind.r);
    }
  }

  predicate IsOperand(d: Desc) {
    !HasJumps(d) && (d.kind.KNonRelocatable? || (d.kind.KConstant? && d.kind.k <= MAX_INDEX_RK))
  }

  lemma RegisterLossless(g: Gen, d: Desc)
    requires KindIn(g, d.kind) && g.active <= g.maxStack
    ensures var (g', d', _) := Register(g, d); Lossless(g, g') && d'.kind.KNonRelocatable? && !HasJumps(d') && KindIn(g', d'.kind)
  {
    hide ExpressionToAnyRegister;
    AnyLossless(g, d);
  }

  lemma ConstantAdded(g: Gen, v: Value)
    ensures var (g', k) := AddConstant(g, v); Lossless(g, g') && KindIn(g', KConstant(k)) && g'.code == g.code && k <= |g.constants|
  {
  }

  lemma OperandLossless(g: Gen, d: Desc)
    requires KindIn(g, d.kind) && g.active <= g.maxStack
    ensures var (g', d', _) := ExpressionToOperand(g, d);
            Lossless(g, g') && IsOperand(d') && KindIn(g', d'.kind)
  {
    if HasJumps(d) {
      hide Register, Lossless, AddConstant;
      AnyLossless(g, d);
      hide ExpressionToAnyRegister;
      var (g1, d1) := ExpressionToAnyRegister(g, d);
      RegisterLossless(g1, d1);
      LosslessTwice(g, g1, Register(g1, d1).0);
    } else {
      PlainLossless(g, DischargeVariables(d));
    }
  }

  lemma PlainLossless(g: Gen, d: Desc)
    requires KindIn(g, d.kind) && g.active <= g.maxStack && !HasJumps(d)
    ensures var (g', d', _) := ExpressionToOperand(g, d);
            Lossless(g, g') && IsOperand(d') && KindIn(g', d'.kind)
  {
    hide Register, AddConstant, Lossless;
    var d1 := DischargeVariables(d);
    RegisterLossless(g, d1);
    ConstantAdded(g, Bool(true));
    ConstantAdded(g, Bool(false));
    ConstantAdded(g, Nil);
    SameLossless(g);
    if d1.kind.KNumber? {
      var v := Number(d1.kind.bits);
      ConstantAdded(g, v);
      var (g2, k) := AddConstant(g, v);
      RegisterLossless(g2, d1.(kind := KConstant(k)));
      LosslessTwice(g, g2, Register(g2, d1.(kind := KConstant(k))).0);
    }
  }

  lemma SameLossless(g: Gen)
    ensures Lossless(g, g)
  {
  }

  lemma JumpLossless(g: Gen, d: Desc, cond: nat)
    requires KindIn(g, d.kind) && g.active <= g.maxStack
    ensures Lossless(g, JumpOnCondition(g, d, cond).0)
  {
    hide ConditionalJump, DischargeToAnyRegister, FreeExpression;
    if d.kind.KRelocatable? {
      ConditionalQuiet(g.(code := g.code[..|g.code| - 1]), Test(g.code[d.kind.pc].b, Opposite(cond)));
    } else {
      AnyDischargeLossless(g, d);
      var (g1, d1) := DischargeToAnyRegister(g, d);
      FreeLossless(g1, d1);
      var r := if d1.kind.KNonRelocatable? then d1.kind.r else 0;
      ConditionalQuiet(FreeExpression(g1, d1), TestSet(NO_REGISTER, r, cond));
    }
  }

  lemma SplitLossless(g: Gen, stay: seq<nat>, away: seq<nat>, gone: seq<nat>)
    ensures Lossless(g, PatchToHere(Concatenate(g, stay, away), gone))
  {
    hide Concatenate, PatchToHere;
    ConcatenateQuiet(g, stay, away);
    HereQuiet(Concatenate(g, stay, away), gone);
  }

  lemma InvertQuiet(g: Gen, pc: nat)
    ensures Quiet(g, InvertJump(g, pc))
  {
  }

  lemma GoIfTrueLossless(g: Gen, d: Desc)
    requires KindIn(g, d.kind) && g.active <= g.maxStack
    ensures Lossless(g, GoIfTrue(g, d).0)
  {
    hide JumpOnCondition, InvertJump, PatchToHere, Concatenate, Lossless;
    var d1 := DischargeVariables(d);
    SameLossless(g);
    JumpLossless(g, d1, 0);
    if d1.kind.KJump? {
      InvertQuiet(g, d1.kind.pc);
      QuietLossless(g, InvertJump(g, d1.kind.pc), KNil);
      SplitLossless(InvertJump(g, d1.kind.pc), d1.f, [d1.kind.pc], d1.t);
      LosslessTwice(g, InvertJump(g, d1.kind.pc), GoIfTrue(g, d).0);
    } else {
      var (g1, pc) := JumpOnCondition(g, d1, 0);
      SplitLossless(g, d1.f, [], d1.t);
      SplitLossless(g1, d1.f, [pc], d1.t);
      if GoIfTrue(g, d).0 == PatchToHere(Concatenate(g1, d1.f, [pc]), d1.t) {
        LosslessTwice(g, g1, GoIfTrue(g, d).0);
      }
    }
  }

  lemma GoIfFalseLossless(g: Gen, d: Desc)
    requires KindIn(g, d.kind) && g.active <= g.maxStack
    ensures Lossless(g, GoIfFalse(g, d).0)
  {
    hide JumpOnCondition, PatchToHere, Concatenate, Lossless;
    var d1 := DischargeVariables(d);
    JumpLossless(g, d1, 1);
    SplitLossless(g, d1.t, [], d1.f);
    if d1.kind.KJump? {
      SplitLossless(g, d1.t, [d1.kind.pc], d1.f);
    } else {
      var (g1, pc) := JumpOnCondition(g, d1, 1);
      SplitLossless(g1, d1.t, [pc], d1.f);
      if GoIfFalse(g, d).0 == PatchToHere(Concatenate(g1, d1.t, [pc]), d1.f) {
        LosslessTwice(g, g1, GoIfFalse(g, d).0);
      }
    }
  }

  lemma WithoutQuiet(g: Gen, s1: seq<nat>, s2: seq<nat>)
    ensures Quiet(g, g.(code := WithoutValues(WithoutValues(g.code, s1), s2)))
  {
  }

  lemma NotLossless(g: Gen, d: Desc)
    requires KindIn(g, d.kind) && g.active <= g.maxStack
    ensures var (g', d') := EncodeNot(g, d); Lossless(g, g') && KindIn(g', d'.kind)
  {
    hide WithoutValues, InvertJump, DischargeToAnyRegister, FreeExpression, Emit, Lossless;
    var d1 := DischargeVariables(d);
    WithoutQuiet(g, d1.t, d1.f);
    if d1.kind.KJump? {
      var g1 := InvertJump(g, d1.kind.pc);
      InvertQuiet(g, d1.kind.pc);
      WithoutQuiet(g1, d1.t, d1.f);
      QuietTwice(g, g1, EncodeNot(g, d).0);
      QuietLossless(g, EncodeNot(g, d).0, d1.kind);
    } else if d1.kind.KRelocatable? || d1.kind.KNonRelocatable? {
      NotEmittedLossless(g, d1);
    } else {
      QuietLossless(g, EncodeNot(g, d).0, KNil);
    }
  }

  lemma NotEmittedLossless(g: Gen, d: Desc)
    requires KindIn(g, d.kind) && g.active <= g.maxStack && (d.kind.KRelocatable? || d.kind.KNonRelocatable?)
    ensures var (g', d') := EncodeNot(g, d); Lossless(g, g') && KindIn(g', d'.kind)
  {
    hide WithoutValues, DischargeToAnyRegister, FreeExpression, Emit, Lossless, NilsIn;
    AnyDischargeLossless(g, d);
    var (g1, d1) := DischargeToAnyRegister(g, d);
    FreeLossless(g1, d1);
    var r := if d1.kind.KNonRelocatable? then d1.kind.r else 0;
    var g2 := FreeExpression(g1, d1);
    var g3 := Emit(g2, Not(0, r));
    EmitQuiet(g2, Not(0, r));
    LastEmitted(g2, Not(0, r));
    WithoutQuiet(g3, d.t, d.f);
    QuietTwice(g2, g3, EncodeNot(g, d).0);
    QuietLossless(g2, EncodeNot(g, d).0, KNil);
    LosslessTwice(g, g1, g2);
    LosslessTwice(g, g2, EncodeNot(g, d).0);
  }

  lemma LastEmitted(g: Gen, i: Instr)
    ensures var code := Emit(g, i).code; |code| > 0 && code[|code| - 1] == i
  {
  }

  lemma OperandStays(g: Gen, d: Desc)
    requires IsOperand(d)
    ensures var g' := ExpressionToOperand(g, d).0; g' == g.(lossy := g'.lossy)
  {
  }

  lemma ComparisonLossless(g: Gen, rel: Relation, cond: nat, d1: Desc, d2: Desc)
    requires KindIn(g, d1.kind) && KindIn(g, d2.kind) && g.active <= g.maxStack
    requires IsOperand(d1)
    ensures var (g', d') := EncodeComparison(g, rel, cond, d1, d2); Lossless(g, g') && KindIn(g', d'.kind)
  {
    hide ExpressionToOperand, ConditionalJump, FreeExpression, Lossless;
    OperandLossless(g, d1);
    var (g1, e1, o1) := ExpressionToOperand(g, d1);
    OperandStays(g, d1);
    OperandLossless(g1, d2);
    var (g2, e2, o2) := ExpressionToOperand(g1, d2);
    FreeLossless(g2, e2);
    var g3 := FreeExpression(g2, e2);
    FreeLossless(g3, e1);
    var g4 := FreeExpression(g3, e1);
    ConditionalQuiet(g4, Compare(rel, 1, o2, o1));
    ConditionalQuiet(g4, Compare(rel, cond, o1, o2));
    QuietLossless(g4, EncodeComparison(g, rel, cond, d1, d2).0, KNil);
    LosslessTwice(g, g1, g2);
    LosslessTwice(g, g2, g3);
    LosslessTwice(g, g3, g4);
    LosslessTwice(g, g4, EncodeComparison(g, rel, cond, d1, d2).0);
  }

  lemma JoinLossless(g: Gen, e: Expr, s1: seq<nat>, s2: seq<nat>)
    requires var (g', d') := Compile(g, e); Lossless(g, g') && KindIn(g', d'.kind)
    requires g.active <= g.maxStack
    ensures var (g', d') := Compile(g, e);
            Lossless(g, Concatenate(g', s1, s2)) && KindIn(Concatenate(g', s1, s2), DischargeVariables(d').kind)
  {
    hide Compile, Concatenate, NilsIn;
    var (g', d') := Compile(g, e);
    ConcatenateQuiet(g', s1, s2);
    QuietLossless(g', Concatenate(g', s1, s2), DischargeVariables(d').kind);
  }

  lemma {:induction false} CompileLossless(g: Gen, e: Expr)
    requires Scoped(e, g.active) && g.active <= g.maxStack
    ensures var (g', d') := Compile(g, e); Lossless(g, g') && KindIn(g', d'.kind)
    decreases e, 1
  {
    hide EncodeNot, GoIfTrue, GoIfFalse, EncodeComparison, ExpressionToOperand, Concatenate;
    match e
    case EParen(e1) => CompileLossless(g, e1);
    case ENot(e1) =>
      CompileLossless(g, e1);
      NotLossless(Compile(g, e1).0, Compile(g, e1).1);
    case EAnd(e1, e2) => AndLossless(g, e1, e2);
    case EOr(e1, e2) => OrLossless(g, e1, e2);
    case ECompare(op, e1, e2) => CompareLossless(g, op, e1, e2);
    case _ =>
  }

  lemma AndLossless(g: Gen, e1: Expr, e2: Expr)
    requires Scoped(EAnd(e1, e2), g.active) && g.active <= g.maxStack
    ensures var (g', d') := Compile(g, EAnd(e1, e2)); Lossless(g, g') && KindIn(g', d'.kind)
    decreases EAnd(e1, e2), 0
  {
    hide Compile, GoIfTrue, Concatenate, Lossless, DischargeVariables;
    CompileAnd(g, e1, e2);
    CompileLossless(g, e1);
    var (g1, d1) := Compile(g, e1);
    var (g2, d1') := GoIfTrue(g1, d1);
    GoIfTrueLossless(g1, d1);
    CompileLossless(g2, e2);
    var s1, s2 := DischargeVariables(Compile(g2, e2).1).f, d1'.f;
    JoinLossless(g2, e2, s1, s2);
    LosslessTwice(g, g1, g2);
    LosslessTwice(g, g2, Concatenate(Compile(g2, e2).0, s1, s2));
  }

  lemma OrLossless(g: Gen, e1: Expr, e2: Expr)
    requires Scoped(EOr(e1, e2), g.active) && g.active <= g.maxStack
    ensures var (g', d') := Compile(g, EOr(e1, e2)); Lossless(g, g') && KindIn(g', d'.kind)
    decreases EOr(e1, e2), 0
  {
    hide Compile, GoIfFalse, Concatenate, Lossless, DischargeVariables;
    CompileOr(g, e1, e2);
    CompileLossless(g, e1);
    var (g1, d1) := Compile(g, e1);
    var (g2, d1') := GoIfFalse(g1, d1);
    GoIfFalseLossless(g1, d1);
    CompileLossless(g2, e2);
    var s1, s2 := DischargeVariables(Compile(g2, e2).1).t, d1'.t;
    JoinLossless(g2, e2, s1, s2);
    LosslessTwice(g, g1, g2);
    LosslessTwice(g, g2, Concatenate(Compile(g2, e2).0, s1, s2));
  }

  lemma CompareLossless(g: Gen, op: CompareOp, e1: Expr, e2: Expr)
    requires Scoped(ECompare(op, e1, e2), g.active) && g.active <= g.maxStack
    ensures var (g', d') := Compile(g, ECompare(op, e1, e2)); Lossless(g, g') && KindIn(g', d'.kind)
    decreases ECompare(op, e1, e2), 0
  {
    hide Compile, ExpressionToOperand, EncodeComparison, Lossless;
    CompileCompare(g, op, e1, e2);
    CompileLossless(g, e1);
    var (g1, d1) := Compile(g, e1);
    OperandLossless(g1, d1);
    var (g2, d1', o1) := ExpressionToOperand(g1, d1);
    CompileLossless(g2, e2);
    var (g3, d2) := Compile(g2, e2);
    ComparisonLossless(g3, RelationOf(op), ConditionOf(op), d1', d2);
    LosslessTwice(g, g1, g2);
    LosslessTwice(g, g2, g3);
    LosslessTwice(g, g3, Compile(g, ECompare(op, e1, e2)).0);
  }

  /** `local r = e` meets no limit with room for all registers and constants. */
  lemma RoomIsEnough(g: Gen, e: Expr)
    requires Scoped(e, g.active) && g.active <= g.maxStack && NilsIn(g) && !g.lossy
    requires var (g1, d1) := Compile(g, e); Roomy(ExpressionToNextRegister(g1, d1).0)
    ensures var (g1, d1) := Compile(g, e); !ExpressionToNextRegister(g1, d1).0.lossy
  {
    hide ExpressionToNextRegister;
    CompileLossless(g, e);
    NextLossless(Compile(g, e).0, Compile(g, e).1);
  }
}
