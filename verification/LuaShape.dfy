/**
  What the code generator's state looks like between two calls: which jumps are pending and
  in which list, how far the settled jumps go, and which registers are in use.
 */
module LuaShape {
  import opened LuaMachine
  import opened LuaGenerator

  ghost predicate Distinct(s: seq<nat>) {
    forall i, j :: 0 <= i < j < |s| ==> s[i] != s[j]
  }

  ghost function Elems(s: seq<nat>): set<nat> {
    set j | j in s
  }

  /** Settled jumps, and the skips of LOADBOOL, go no further than the last label. */
  ghost predicate Settled(code: seq<Instr>, pending: set<nat>, reach: nat) {
    && (forall i :: 0 <= i < |code| && code[i].Jump? && i !in pending ==> i + 1 + code[i].sbx <= reach)
    && (forall i :: 0 <= i < |code| && code[i].LoadBool? && code[i].c != 0 ==> i + 2 <= reach)
  }

  /** A test whose jump has not been emitted yet. */
  ghost predicate EndsInTest(code: seq<Instr>) {
    |code| > 0 && code[|code| - 1].IsTest()
  }

  /** The state between two instructions, `pending` being all jumps without a destination. */
  ghost predicate WfGen(g: Gen, pending: set<nat>) {
    WfPending(g, pending) && !EndsInTest(g.code)
  }

  ghost predicate WfPending(g: Gen, pending: set<nat>) {
    && g.lastTarget <= |g.code|
    && Settled(g.code, pending, g.lastTarget)
    && (forall j :: j in pending ==> j < |g.code| && g.code[j].Jump?)
    && Elems(g.here) <= pending
    && Distinct(g.here)
    && (g.here != [] ==> g.lastTarget == |g.code|)
    && g.active <= g.free <= g.maxStack
  }

  /** The jumps of a list sit behind the tests that control them. */
  ghost predicate Controlled(code: seq<Instr>, s: seq<nat>) {
    forall j :: j in s ==> 1 <= j < |code| && code[j].Jump? && code[j - 1].IsTest()
  }

  ghost predicate OperandFits(g: Gen, field: nat) {
    if field < BIT_RK then field < g.maxStack else field - BIT_RK < |g.constants|
  }

  /** Where the code proper ends: an instruction whose target register is open, or a
      comparison with its jump, is still part of the description. */
  function Body(g: Gen, d: Desc): nat {
    match d.kind
    case KRelocatable(pc) => pc
    case KJump(pc) => if pc == 0 then 0 else pc - 1
    case _ => |g.code|
  }

  ghost function Core(g: Gen, d: Desc): Gen
    requires Body(g, d) <= |g.code|
  {
    g.(code := g.code[..Body(g, d)])
  }

  ghost predicate WfKind(g: Gen, d: Desc) {
    match d.kind
    case KRelocatable(pc) =>
      && pc + 1 == |g.code| && g.code[pc].Not? && g.code[pc].b < g.maxStack && g.here == []
      && g.lastTarget <= pc
    case KJump(pc) =>
      && 1 <= pc && pc + 1 == |g.code| && g.code[pc].Jump? && g.code[pc - 1].Compare?
      && OperandFits(g, g.code[pc - 1].b) && OperandFits(g, g.code[pc - 1].c)
      && g.here == [] && g.lastTarget <= pc - 1
    case KNonRelocatable(r) => r < g.maxStack
    case KLocal(l) => l < g.active
    case KConstant(k) => k < |g.constants|
    case _ => true
  }

  /** At most one temporary register is taken, the first one that was free. */
  ghost predicate WfRegister(g: Gen, d: Desc, base: nat) {
    && g.active <= base
    && if d.kind.KNonRelocatable? && d.kind.r >= g.active
       then d.kind.r == base && g.free == base + 1
       else g.free == base
  }

  ghost function Live(g: Gen, d: Desc, outer: set<nat>): set<nat> {
    outer + Elems(g.here) + Elems(d.t) + Elems(d.f)
  }

  ghost predicate Apart(outer: set<nat>, here: seq<nat>, t: seq<nat>, f: seq<nat>) {
    && Distinct(t) && Distinct(f)
    && Elems(t) !! Elems(f) && Elems(here) !! Elems(t) && Elems(here) !! Elems(f)
    && outer !! Elems(here) && outer !! Elems(t) && outer !! Elems(f)
  }

  ghost predicate WfBody(g: Gen, d: Desc, outer: set<nat>) {
    && WfKind(g, d)
    && WfGen(Core(g, d), Live(g, d, outer))
    && Apart(outer, g.here, d.t, d.f)
    && Controlled(g.code, d.t) && Controlled(g.code, d.f)
  }

  /** An expression under way; `outer` are the pending jumps of the expressions around it, and
      `base` is the first register that was free before it. */
  ghost predicate WfDesc(g: Gen, d: Desc, outer: set<nat>, base: nat) {
    WfBody(g, d, outer) && WfRegister(g, d, base)
  }

  /** The pending jumps of others, and their tests, are left alone. */
  ghost predicate Kept(code: seq<Instr>, code': seq<Instr>, pending: set<nat>) {
    forall j :: j in pending && j < |code| ==>
      && j < |code'| && code'[j] == code[j]
      && (j > 0 && code[j - 1].IsTest() ==> code'[j - 1] == code[j - 1])
      && (j > 0 && code'[j - 1].TestSet? ==> code[j - 1].TestSet?)
  }

  lemma ControlledKept(code: seq<Instr>, code': seq<Instr>, s: seq<nat>)
    requires Controlled(code, s) && Kept(code, code', Elems(s))
    ensures Controlled(code', s)
  {
    forall j | j in s
      ensures 1 <= j < |code'| && code'[j].Jump? && code'[j - 1].IsTest()
    {
      assert j in Elems(s);
    }
  }

  // ---- Emitting ----

  /** Not a jump, and falling through or tested by the machine. */
  predicate Ordinary(i: Instr) {
    IsPlain(i) || i.IsTest() || i.ExtraArg?
  }

  lemma EmitShape(g: Gen, i: Instr, live: set<nat>)
    requires WfGen(g, live + Elems(g.here)) && live !! Elems(g.here)
    requires Ordinary(i)
    ensures var g' := Emit(g, i);
            && WfPending(g', live) && g'.here == [] && |g'.code| == |g.code| + 1
            && EndsInTest(g'.code) == i.IsTest()
            && g'.code[|g.code|] == i && g'.lastTarget == g.lastTarget
            && Kept(g.code, g'.code, live)
            && g'.free == g.free && g'.maxStack == g.maxStack && g'.constants == g.constants
            && g'.misfreed == g.misfreed && g'.lossy == g.lossy
  {
    hide TooFar, PatchTooFar, Encodable;
    var g' := Emit(g, i);
    assert forall k :: 0 <= k < |g.code| ==> g'.code[k] == PatchAt(g.code, k, g.here, |g.code|, NO_REGISTER, |g.code|);
    assert forall j :: j in live ==> j !in g.here;
    assert forall j :: j in g.here ==> j in live + Elems(g.here);
  }

  lemma EmitKeepsEnd(g: Gen, i: Instr)
    requires !EndsInTest(g.code)
    ensures !EndsInTest(Emit(g, i).code[..|g.code|])
  {
    var g' := Emit(g, i);
    if |g.code| > 0 {
      assert g'.code[|g.code| - 1] == PatchAt(g.code, |g.code| - 1, g.here, |g.code|, NO_REGISTER, |g.code|);
    }
  }

  lemma EmitJumpShape(g: Gen, live: set<nat>)
    requires WfPending(g, live + Elems(g.here)) && live !! Elems(g.here)
    ensures var (g', s) := EmitJump(g);
            && WfGen(g', live + Elems(s)) && g'.here == [] && |g'.code| == |g.code| + 1
            && s == [|g.code|] + g.here && Distinct(s) && live !! Elems(s)
            && g'.code[..|g.code|] == g.code && g'.code[|g.code|].Jump?
            && g'.lastTarget == g.lastTarget
            && Kept(g.code, g'.code, live)
            && g'.free == g.free && g'.maxStack == g.maxStack && g'.constants == g.constants
            && g'.misfreed == g.misfreed && g'.lossy == g.lossy
  {
    var (g', s) := EmitJump(g);
    assert forall j :: j in s ==> j == |g.code| || j in g.here;
    assert forall j :: j in g.here ==> j in live + Elems(g.here);
    assert g.here == [] ==> s == [|g.code|];
  }

  lemma ConditionalJumpShape(g: Gen, i: Instr, live: set<nat>)
    requires WfGen(g, live + Elems(g.here)) && live !! Elems(g.here)
    requires i.IsTest()
    ensures var (g', pc) := ConditionalJump(g, i);
            && WfGen(g', live + {pc}) && g'.here == [] && pc == |g.code| + 1 && |g'.code| == pc + 1
            && g'.code[pc].Jump? && g'.code[pc - 1] == i && pc !in live
            && g'.lastTarget == g.lastTarget
            && WfGen(g'.(code := g'.code[..pc - 1]), live)
            && g'.code[..pc] == Emit(g, i).code
            && Kept(g.code, g'.code, live)
            && g'.free == g.free && g'.maxStack == g.maxStack && g'.constants == g.constants
            && g'.misfreed == g.misfreed && g'.lossy == g.lossy
  {
    hide EmitJump, Emit, WfPending, EndsInTest;
    EmitShape(g, i, live);
    var e := Emit(g, i);
    assert Elems(e.here) == {};
    assert live + Elems(e.here) == live;
    EmitJumpShape(e, live);
    var (g', s) := EmitJump(e);
    var pc := |e.code|;
    assert s == [pc] && Elems(s) == {pc};
    assert g'.code[pc - 1] == g'.code[..pc][pc - 1] == i;
    BeforeTest(g, i, live, g');
  }

  /** Without the test and the jump, the code is as good as before. */
  lemma BeforeTest(g: Gen, i: Instr, live: set<nat>, g': Gen)
    requires WfGen(g, live + Elems(g.here)) && live !! Elems(g.here) && i.IsTest()
    requires |g'.code| == |g.code| + 2 && g'.code[..|g.code| + 1] == Emit(g, i).code && g'.here == []
    requires g'.lastTarget == g.lastTarget && g'.free == g.free && g'.active == g.active && g'.maxStack == g.maxStack
    requires Kept(Emit(g, i).code, g'.code, live)
    ensures WfGen(g'.(code := g'.code[..|g.code|]), live) && Kept(g.code, g'.code, live)
    ensures forall j :: j in live ==> j < |g.code|
  {
    EmitShape(g, i, live);
    EmitKeepsEnd(g, i);
    var e := Emit(g, i);
    assert forall k :: 0 <= k < |g.code| ==> g'.code[k] == e.code[k];
    assert g'.code[..|g.code|] == e.code[..|g.code|];
  }

  lemma ConcatenateShape(g: Gen, s1: seq<nat>, s2: seq<nat>, live: set<nat>)
    requires WfGen(g, live) && Elems(s1) <= live
    ensures var g' := Concatenate(g, s1, s2);
            && WfGen(g', live) && |g'.code| == |g.code|
            && (forall i :: 0 <= i < |g.code| && i !in Elems(s1) ==> g'.code[i] == g.code[i])
            && (forall i :: 0 <= i < |g.code| ==> g'.code[i] == g.code[i] || (g.code[i].Jump? && g'.code[i].Jump?))
  {
    if s1 != [] && s2 != [] {
      assert s1[|s1| - 1] in s1;
      assert s1[|s1| - 1] in Elems(s1);
    }
  }

  lemma DistinctConcat(s: seq<nat>, t: seq<nat>)
    requires Distinct(s) && Distinct(t) && Elems(s) !! Elems(t)
    ensures Distinct(s + t) && Elems(s + t) == Elems(s) + Elems(t)
  {
    forall i, j | 0 <= i < j < |s + t|
      ensures (s + t)[i] != (s + t)[j]
    {
      if i < |s| && |s| <= j {
        assert s[i] in Elems(s) && t[j - |s|] in Elems(t);
      }
    }
  }

  lemma PatchToHereShape(g: Gen, s: seq<nat>, live: set<nat>)
    requires WfGen(g, live) && Elems(s) <= live && Distinct(s) && Elems(s) !! Elems(g.here)
    ensures var g' := PatchToHere(g, s);
            && WfGen(g', live) && |g'.code| == |g.code| && g'.lastTarget == |g.code|
            && g'.here == g.here + s && Elems(g'.here) == Elems(g.here) + Elems(s)
            && g'.free == g.free && g'.misfreed == g.misfreed
            && Kept(g.code, g'.code, live - Elems(g.here))
            && (forall i :: 0 <= i < |g.code| ==> g'.code[i] == g.code[i] || (i in live && g.code[i].Jump? && g'.code[i].Jump?))
  {
    var l := Label(g);
    ConcatenateShape(l, g.here, s, live);
    DistinctConcat(g.here, s);
    var g' := PatchToHere(g, s);
    assert forall i :: 0 <= i < |g.code| && g.code[i].IsTest() ==> g'.code[i] == g.code[i];
  }

  lemma EmitLoadNilShape(g: Gen, from: nat, live: set<nat>)
    requires WfGen(g, live + Elems(g.here)) && live !! Elems(g.here)
    ensures var g' := EmitLoadNil(g, from, 1);
            && WfGen(g', live) && g'.here == [] && |g.code| <= |g'.code| <= |g.code| + 1
            && g'.lastTarget == g.lastTarget && |g'.code| > 0
            && Kept(g.code, g'.code, live)
            && g'.free == g.free && g'.maxStack == g.maxStack && g'.constants == g.constants
            && g'.misfreed == g.misfreed
  {
    hide Encodable, Distinct;
    var last := |g.code| - 1;
    if |g.code| > g.lastTarget && g.code[last].LoadNil? && Connects(g.code[last], from, 1) {
      var g' := EmitLoadNil(g, from, 1);
      assert g.here == [];
      assert Elems(g.here) == {};
      assert live + Elems(g.here) == live;
      assert forall i :: 0 <= i < last ==> g'.code[i] == g.code[i];
    } else {
      EmitShape(g, LoadNil(from, 0), live);
    }
  }

  lemma EmitConstantShape(g: Gen, r: nat, k: nat, live: set<nat>)
    requires WfGen(g, live + Elems(g.here)) && live !! Elems(g.here)
    ensures var g' := EmitConstant(g, r, k);
            && WfGen(g', live) && g'.here == [] && |g.code| < |g'.code|
            && g'.lastTarget == g.lastTarget
            && Kept(g.code, g'.code, live)
            && g'.free == g.free && g'.maxStack == g.maxStack && g'.constants == g.constants
            && g'.misfreed == g.misfreed
  {
    hide Emit, Settled;
    if k <= MAX_ARG_BX {
      EmitShape(g, LoadConstant(r, k), live);
    } else {
      var g0 := g.(lossy := true);
      EmitShape(g0, LoadConstant(r, 0), live);
      var g1 := Emit(g0, LoadConstant(r, 0));
      assert live + Elems(g1.here) == live;
      EmitShape(g1, ExtraArg(k), live);
    }
  }

  // ---- Discharging ----

  ghost predicate SameRegisters(g: Gen, g': Gen) {
    g'.free == g.free && g'.maxStack == g.maxStack && g'.misfreed == g.misfreed
  }

  ghost function Others(d: Desc, outer: set<nat>): set<nat> {
    outer + Elems(d.t) + Elems(d.f)
  }

  lemma DischargedShape(g: Gen, g': Gen, d: Desc, d': Desc, outer: set<nat>)
    requires WfBody(g, d, outer)
    requires d'.t == d.t && d'.f == d.f && d'.kind.KNonRelocatable? && d'.kind.r < g'.maxStack
    requires WfGen(g', Others(d, outer)) && g'.here == []
    requires Kept(g.code, g'.code, Others(d, outer))
    ensures WfBody(g', d', outer)
  {
    assert Core(g', d') == g';
    assert Live(g', d', outer) == Others(d, outer);
    ControlledKept(g.code, g'.code, d.t);
    ControlledKept(g.code, g'.code, d.f);
  }

  /** What discharging into register `r` leaves behind. */
  ghost predicate DischargedTo(g: Gen, d: Desc, g': Gen, r: nat, outer: set<nat>) {
    && WfBody(g', Desc(KNonRelocatable(r), d.t, d.f), outer) && SameRegisters(g, g')
    && Kept(g.code, g'.code, Others(d, outer))
    && Body(g, d) <= |g'.code|
    && g'.lastTarget == g.lastTarget
  }

  lemma DischargeEmit(g: Gen, d: Desc, i: Instr, r: nat, outer: set<nat>)
    requires WfBody(g, d, outer) && Body(g, d) == |g.code| && r < g.maxStack && IsPlain(i)
    ensures DischargedTo(g, d, Emit(g, i), r, outer)
  {
    assert Core(g, d) == g;
    assert Live(g, d, outer) == Others(d, outer) + Elems(g.here);
    EmitShape(g, i, Others(d, outer));
    DischargedShape(g, Emit(g, i), d, Desc(KNonRelocatable(r), d.t, d.f), outer);
  }

  lemma DischargeNil(g: Gen, d: Desc, r: nat, outer: set<nat>)
    requires WfBody(g, d, outer) && Body(g, d) == |g.code| && r < g.maxStack
    ensures DischargedTo(g, d, EmitLoadNil(g, r, 1), r, outer)
  {
    assert Core(g, d) == g;
    assert Live(g, d, outer) == Others(d, outer) + Elems(g.here);
    EmitLoadNilShape(g, r, Others(d, outer));
    DischargedShape(g, EmitLoadNil(g, r, 1), d, Desc(KNonRelocatable(r), d.t, d.f), outer);
  }

  lemma DischargeConstant(g: Gen, d: Desc, k: nat, r: nat, outer: set<nat>)
    requires WfBody(g, d, outer) && Body(g, d) == |g.code| && r < g.maxStack
    ensures DischargedTo(g, d, EmitConstant(g, r, k), r, outer)
  {
    assert Core(g, d) == g;
    assert Live(g, d, outer) == Others(d, outer) + Elems(g.here);
    EmitConstantShape(g, r, k, Others(d, outer));
    DischargedShape(g, EmitConstant(g, r, k), d, Desc(KNonRelocatable(r), d.t, d.f), outer);
  }

  lemma NotAppended(c: Gen, g: Gen, i: Instr, live: set<nat>)
    requires WfGen(c, live) && i.Not? && c.here == []
    requires g == c.(code := c.code + [i], lossy := g.lossy)
    ensures WfGen(g, live)
  {
  }

  /** The instruction behind the code proper is in front of no pending jump. */
  lemma KeptInCore(g: Gen, g': Gen, d: Desc, live: set<nat>)
    requires Body(g, d) < |g.code| && |g'.code| == |g.code| && g'.code[..Body(g, d)] == g.code[..Body(g, d)]
    requires forall j :: j in live ==> j < Body(g, d)
    ensures Kept(g.code, g'.code, live)
  {
    forall i | 0 <= i < Body(g, d) ensures g'.code[i] == g.code[i] {
      assert g'.code[i] == g'.code[..Body(g, d)][i];
    }
  }

  lemma DischargeRelocatable(g: Gen, d: Desc, r: nat, outer: set<nat>)
    requires WfBody(g, d, outer) && d.kind.KRelocatable? && r < g.maxStack
    ensures DischargedTo(g, d, DischargeToRegister(g, d, r).0, r, outer)
  {
    hide Settled, EndsInTest;
    var g' := DischargeToRegister(g, d, r).0;
    var c, live := Core(g, d), Others(d, outer);
    assert Live(g, d, outer) == live by { assert Elems([]) == {}; }
    assert g'.code == c.code + [Not(r % 256, g.code[d.kind.pc].b)];
    NotAppended(c, g', Not(r % 256, g.code[d.kind.pc].b), live);
    hide WfGen, Core, Kept, Controlled;
    KeptInCore(g, g', d, live);
    DischargedShape(g, g', d, Desc(KNonRelocatable(r), d.t, d.f), outer);
  }

  lemma DischargeMove(g: Gen, d: Desc, x: nat, r: nat, outer: set<nat>)
    requires WfBody(g, d, outer) && r < g.maxStack
    requires d.kind == KNonRelocatable(x) || d.kind == KLocal(x)
    ensures DischargedTo(g, d, DischargeToRegister(g, d, r).0, r, outer)
  {
    if r != x {
      DischargeEmit(g, d, Move(r, x), r, outer);
    } else {
      assert Core(g, d) == g == Core(g, Desc(KNonRelocatable(r), d.t, d.f));
    }
  }

  lemma DischargeShape(g: Gen, d: Desc, r: nat, outer: set<nat>)
    requires WfBody(g, d, outer) && r < g.maxStack && !d.kind.KJump?
    ensures DischargedTo(g, d, DischargeToRegister(g, d, r).0, r, outer)
  {
    hide EndsInTest, Settled, OperandFits, WfRegister, Patched, Kept, ConditionalJump, EmitJump, PatchAt, Controlled;
    match d.kind
    case KRelocatable(pc) => DischargeRelocatable(g, d, r, outer);
    case KNil => DischargeNil(g, d, r, outer);
    case KFalse => DischargeEmit(g, d, LoadBool(r, 0, 0), r, outer);
    case KTrue => DischargeEmit(g, d, LoadBool(r, 1, 0), r, outer);
    case KConstant(k) => DischargeConstant(g, d, k, r, outer);
    case KNumber(bits) =>
      var (g1, k) := AddConstant(g, Number(bits));
      assert Core(g1, d) == Core(g, d).(constants := g1.constants, lookup := g1.lookup);
      DischargeConstant(g1, d, k, r, outer);
    case KNonRelocatable(x) => DischargeMove(g, d, x, r, outer);
    case KLocal(x) => DischargeMove(g, d, x, r, outer);
  }

  /** A fully discharged expression: the generator is at its end, the value in a register. */
  lemma AnyRegisterShape(g: Gen, d: Desc, outer: set<nat>, base: nat)
    requires WfDesc(g, d, outer, base) && !d.kind.KLocal? && !d.kind.KJump?
    requires !DischargeToAnyRegister(g, d).0.lossy
    ensures var (g', d') := DischargeToAnyRegister(g, d);
            && WfDesc(g', d', outer, base) && d'.kind.KNonRelocatable?
            && Kept(g.code, g'.code, Others(d, outer)) && Body(g, d) <= |g'.code|
            && g'.misfreed == g.misfreed
            && g'.lastTarget == g.lastTarget
  {
    hide Settled, EndsInTest;
    if !d.kind.KNonRelocatable? {
      var g1 := Reserve(g, 1);
      assert Core(g1, d).code == Core(g, d).code;
      assert WfBody(g1, d, outer);
      DischargeShape(g1, d, g.free, outer);
    }
  }

  /** Freeing the temporary of an expression gives back the registers as they were. */
  lemma FreeShape(g: Gen, d: Desc, outer: set<nat>, base: nat)
    requires WfDesc(g, d, outer, base) && !FreeExpression(g, d).lossy
    ensures var g' := FreeExpression(g, d);
            && g' == g.(free := g'.free) && g'.free == base
            && WfGen(Core(g', d), Live(g', d, outer))
  {
  }

  // ---- Conditions ----

  /** Between the operands of `and` and `or`: `s` are the jumps that leave behind the second. */
  ghost predicate WfSplit(g: Gen, s: seq<nat>, outer: set<nat>, base: nat) {
    && WfGen(g, outer + Elems(s) + Elems(g.here))
    && Apart(outer, g.here, s, [])
    && Controlled(g.code, s)
    && g.free == base
  }

  /** A comparison's jump, taken into account, is one more pending jump. */
  lemma JumpShape(g: Gen, d: Desc, outer: set<nat>)
    requires WfBody(g, d, outer) && d.kind.KJump?
    ensures WfGen(g, Others(d, outer) + {d.kind.pc}) && d.kind.pc !in Others(d, outer)
    ensures var g' := InvertJump(g, d.kind.pc);
            && WfGen(g', Others(d, outer) + {d.kind.pc})
            && |g'.code| == |g.code| && g'.code[..d.kind.pc - 1] == g.code[..d.kind.pc - 1]
            && g'.code[d.kind.pc] == g.code[d.kind.pc]
            && g'.code[d.kind.pc - 1].Compare?
            && Kept(g.code, g'.code, Others(d, outer))
            && g' == g.(code := g'.code)
  {
    hide WfGen, Kept, Controlled, Apart;
    JumpPending(g, d, outer);
    InvertPending(g, d.kind.pc, Others(d, outer));
  }

  lemma InvertPending(g: Gen, pc: nat, others: set<nat>)
    requires WfGen(g, others + {pc}) && pc !in others && 1 <= pc && g.code[pc - 1].Compare?
    ensures var g' := InvertJump(g, pc); WfGen(g', others + {pc}) && Kept(g.code, g'.code, others)
  {
  }

  lemma JumpPending(g: Gen, d: Desc, outer: set<nat>)
    requires WfBody(g, d, outer) && d.kind.KJump?
    ensures WfGen(g, Others(d, outer) + {d.kind.pc}) && d.kind.pc !in Others(d, outer) && Elems(g.here) == {}
  {
    hide OperandFits, Controlled, Apart;
    var c := Core(g, d);
    assert Live(g, d, outer) == Others(d, outer);
    assert forall i :: 0 <= i < d.kind.pc - 1 ==> g.code[i] == c.code[i];
  }

  /** What is behind a conditional jump away from an expression `d`. */
  ghost predicate JumpedAway(g: Gen, d: Desc, g': Gen, pc: nat, outer: set<nat>, base: nat) {
    && WfGen(g', Others(d, outer) + {pc}) && pc !in Others(d, outer)
    && g'.here == [] && 1 <= pc && pc + 1 == |g'.code|
    && g'.code[pc].Jump? && g'.code[pc - 1].IsTest()
    && Kept(g.code, g'.code, Others(d, outer))
    && g'.free == base && g'.misfreed == g.misfreed && Body(g, d) <= pc
  }

  lemma JumpOnNotShape(g: Gen, d: Desc, cond: nat, outer: set<nat>, base: nat)
    requires WfDesc(g, d, outer, base) && d.kind.KRelocatable?
    ensures var (g', pc) := ConditionalJump(g.(code := g.code[..|g.code| - 1]), Test(g.code[d.kind.pc].b, cond));
            JumpedAway(g, d, g', pc, outer, base)
  {
    hide EndsInTest, Settled, Concatenate;
    var live := Others(d, outer);
    var c := Core(g, d);
    assert c == g.(code := g.code[..|g.code| - 1]);
    assert Elems(c.here) == {};
    assert live + Elems(c.here) == live == Live(g, d, outer);
    ConditionalJumpShape(c, Test(g.code[d.kind.pc].b, cond), live);
    assert Kept(g.code, c.code, live);
  }

  lemma JumpOnRegisterShape(g: Gen, d: Desc, cond: nat, outer: set<nat>, base: nat)
    requires WfDesc(g, d, outer, base) && d.kind.KNonRelocatable? && !FreeExpression(g, d).lossy
    ensures var (g', pc) := ConditionalJump(FreeExpression(g, d), TestSet(NO_REGISTER, d.kind.r, cond));
            JumpedAway(g, d, g', pc, outer, base)
  {
    var live := Others(d, outer);
    FreeShape(g, d, outer, base);
    var g2 := FreeExpression(g, d);
    assert Core(g2, d) == g2;
    assert Live(g2, d, outer) == live + Elems(g2.here);
    ConditionalJumpShape(g2, TestSet(NO_REGISTER, d.kind.r, cond), live);
  }

  lemma JumpOnConditionShape(g: Gen, d: Desc, cond: nat, outer: set<nat>, base: nat)
    requires WfDesc(g, d, outer, base) && !d.kind.KLocal? && !d.kind.KJump?
    requires !JumpOnCondition(g, d, cond).0.lossy
    ensures var (g', pc) := JumpOnCondition(g, d, cond);
            JumpedAway(g, d, g', pc, outer, base)
  {
    hide ConditionalJump, WfGen, Controlled, Apart, DischargeToAnyRegister, WfRegister;
    if d.kind.KRelocatable? {
      JumpOnNotShape(g, d, Opposite(cond), outer, base);
    } else {
      var (g1, d1) := DischargeToAnyRegister(g, d);
      AnyRegisterShape(g, d, outer, base);
      assert Others(d1, outer) == Others(d, outer);
      JumpOnRegisterShape(g1, d1, cond, outer, base);
    }
  }

  /** Collecting the jump away with the jumps of its kind, and sending the others here. */
  lemma SplitShape(g: Gen, stay: seq<nat>, away: seq<nat>, gone: seq<nat>, outer: set<nat>, base: nat)
    requires WfGen(g, outer + Elems(stay) + Elems(gone) + Elems(away) + Elems(g.here))
    requires Apart(outer, g.here, gone, stay)
    requires Distinct(away) && Elems(away) !! outer + Elems(g.here) + Elems(stay) + Elems(gone)
    requires Controlled(g.code, stay) && Controlled(g.code, away)
    requires g.free == base
    ensures var g' := PatchToHere(Concatenate(g, stay, away), gone);
            && WfSplit(g', stay + away, outer, base)
            && g'.here == g.here + gone && Elems(g'.here) == Elems(g.here) + Elems(gone)
            && Elems(stay + away) == Elems(stay) + Elems(away)
            && Kept(g.code, g'.code, outer)
            && |g'.code| == |g.code| && g'.lastTarget == |g.code|
            && (forall i :: 0 <= i < |g.code| ==>
                  (g'.code[i] == g.code[i]
                   || (i in outer + Elems(stay) + Elems(gone) + Elems(away) + Elems(g.here)
                       && g.code[i].Jump? && g'.code[i].Jump?)))
            && g'.misfreed == g.misfreed
  {
    hide Concatenate, PatchToHere, WfGen, Controlled;
    var live := outer + Elems(stay) + Elems(gone) + Elems(away) + Elems(g.here);
    ConcatenateShape(g, stay, away, live);
    var g1 := Concatenate(g, stay, away);
    PatchToHereShape(g1, gone, live);
    DistinctConcat(stay, away);
    var g' := PatchToHere(g1, gone);
    assert outer + Elems(stay + away) + Elems(g'.here) == live;
    SplitControlled(g.code, g'.code, stay, away);
    assert Elems([]) == {};
  }

  lemma SplitControlled(code: seq<Instr>, code': seq<Instr>, s1: seq<nat>, s2: seq<nat>)
    requires Controlled(code, s1) && Controlled(code, s2) && |code'| == |code|
    requires forall i :: 0 <= i < |code| ==> code'[i] == code[i] || (code[i].Jump? && code'[i].Jump?)
    ensures Controlled(code', s1 + s2)
  {
    forall j | j in s1 + s2 ensures 1 <= j < |code'| && code'[j].Jump? && code'[j - 1].IsTest() {
      assert j in s1 || j in s2;
      assert code[j - 1].IsTest();
    }
  }

  lemma SingleList(pc: nat)
    ensures Elems([pc]) == {pc} && Distinct([pc])
  {
  }

  lemma SplitJumpReady(g: Gen, d: Desc, g1: Gen, pc: nat, stay: seq<nat>, gone: seq<nat>, outer: set<nat>)
    requires WfBody(g, d, outer)
    requires (stay == d.f && gone == d.t) || (stay == d.t && gone == d.f)
    requires JumpedAway(g, d, g1, pc, outer, g1.free)
    ensures WfGen(g1, outer + Elems(stay) + Elems(gone) + Elems([pc]) + Elems(g1.here))
    ensures Controlled(g1.code, stay)
  {
    SingleList(pc);
    assert outer + Elems(stay) + Elems(gone) + Elems([pc]) + Elems(g1.here) == Others(d, outer) + {pc};
    KeptFewer(g.code, g1.code, Others(d, outer), Elems(stay));
    hide WfGen, WfKind;
    ControlledKept(g.code, g1.code, stay);
  }

  lemma SplitJumpApart(g: Gen, d: Desc, g1: Gen, pc: nat, stay: seq<nat>, gone: seq<nat>, outer: set<nat>)
    requires Apart(outer, g.here, d.t, d.f)
    requires (stay == d.f && gone == d.t) || (stay == d.t && gone == d.f)
    requires g1.here == [] && pc !in Others(d, outer)
    ensures Apart(outer, g1.here, gone, stay)
    ensures Distinct([pc]) && Elems([pc]) !! outer + Elems(g1.here) + Elems(stay) + Elems(gone)
  {
    SingleList(pc);
  }

  /** The common tail of goIfTrue and goIfFalse when there was a jump away. */
  lemma SplitJumpShape(g: Gen, d: Desc, g1: Gen, pc: nat, stay: seq<nat>, gone: seq<nat>, outer: set<nat>, base: nat)
    requires WfBody(g, d, outer)
    requires (stay == d.f && gone == d.t) || (stay == d.t && gone == d.f)
    requires JumpedAway(g, d, g1, pc, outer, base)
    ensures var g' := PatchToHere(Concatenate(g1, stay, [pc]), gone);
            && WfSplit(g', stay + [pc], outer, base)
            && Kept(g.code, g'.code, outer) && Body(g, d) <= |g'.code| && g'.lastTarget == |g'.code|
            && g'.misfreed == g.misfreed
  {
    hide Settled, EndsInTest;
    SplitJumpReady(g, d, g1, pc, stay, gone, outer);
    SplitJumpApart(g, d, g1, pc, stay, gone, outer);
    KeptFewer(g.code, g1.code, Others(d, outer), outer);
    assert Controlled(g1.code, [pc]);
    hide WfGen, Controlled, Apart, PatchToHere, Concatenate, WfBody, Kept, Elems;
    SplitShape(g1, stay, [pc], gone, outer, base);
    KeptTransitive(g.code, g1.code, PatchToHere(Concatenate(g1, stay, [pc]), gone).code, outer);
  }

  lemma SplitPlainShape(g: Gen, d: Desc, stay: seq<nat>, gone: seq<nat>, outer: set<nat>, base: nat)
    requires WfDesc(g, d, outer, base) && Body(g, d) == |g.code| && g.free == base
    requires (stay == d.f && gone == d.t) || (stay == d.t && gone == d.f)
    ensures var g' := PatchToHere(Concatenate(g, stay, []), gone);
            && WfSplit(g', stay + [], outer, base)
            && Kept(g.code, g'.code, outer) && Body(g, d) <= |g'.code| && g'.lastTarget == |g'.code|
            && g'.misfreed == g.misfreed
  {
    assert Core(g, d) == g;
    assert Elems([]) == {};
    assert outer + Elems(stay) + Elems(gone) + Elems([]) + Elems(g.here) == Live(g, d, outer);
    SplitShape(g, stay, [], gone, outer, base);
  }

  lemma DischargeVariablesShape(g: Gen, d: Desc, outer: set<nat>, base: nat)
    requires WfDesc(g, d, outer, base)
    ensures WfDesc(g, DischargeVariables(d), outer, base)
    ensures Body(g, DischargeVariables(d)) == Body(g, d)
  {
    assert Core(g, DischargeVariables(d)) == Core(g, d);
  }

  lemma JumpedAwayShape(g: Gen, d: Desc, outer: set<nat>, base: nat)
    requires WfDesc(g, d, outer, base) && d.kind.KJump?
    ensures JumpedAway(g, d, g, d.kind.pc, outer, base)
    ensures JumpedAway(g, d, InvertJump(g, d.kind.pc), d.kind.pc, outer, base)
  {
    JumpShape(g, d, outer);
  }

  lemma GoIfTrueShape(g: Gen, d: Desc, outer: set<nat>, base: nat)
    requires WfDesc(g, d, outer, base) && !GoIfTrue(g, d).0.lossy
    ensures var (g', d') := GoIfTrue(g, d);
            && WfSplit(g', d'.f, outer, base)
            && Kept(g.code, g'.code, outer) && Body(g, d) <= |g'.code| && g'.lastTarget == |g'.code|
            && g'.misfreed == g.misfreed
  {
    hide WfGen, Kept, Controlled, Apart, Core, ConditionalJump, PatchToHere, Concatenate;
    DischargeVariablesShape(g, d, outer, base);
    var d1 := DischargeVariables(d);
    if d1.kind.KJump? {
      JumpedAwayShape(g, d1, outer, base);
      SplitJumpShape(g, d1, InvertJump(g, d1.kind.pc), d1.kind.pc, d1.f, d1.t, outer, base);
    } else if d1.kind.KConstant? || d1.kind.KNumber? || d1.kind.KTrue? {
      SplitPlainShape(g, d1, d1.f, d1.t, outer, base);
    } else {
      JumpOnConditionShape(g, d1, 0, outer, base);
      var (g1, pc) := JumpOnCondition(g, d1, 0);
      SplitJumpShape(g, d1, g1, pc, d1.f, d1.t, outer, base);
    }
  }

  lemma GoIfFalseShape(g: Gen, d: Desc, outer: set<nat>, base: nat)
    requires WfDesc(g, d, outer, base) && !GoIfFalse(g, d).0.lossy
    ensures var (g', d') := GoIfFalse(g, d);
            && WfSplit(g', d'.t, outer, base)
            && Kept(g.code, g'.code, outer) && Body(g, d) <= |g'.code| && g'.lastTarget == |g'.code|
            && g'.misfreed == g.misfreed
  {
    hide WfGen, Kept, Controlled, Apart, Core, ConditionalJump, PatchToHere, Concatenate;
    DischargeVariablesShape(g, d, outer, base);
    var d1 := DischargeVariables(d);
    if d1.kind.KJump? {
      JumpedAwayShape(g, d1, outer, base);
      SplitJumpShape(g, d1, g, d1.kind.pc, d1.t, d1.f, outer, base);
    } else if d1.kind.KNil? || d1.kind.KFalse? {
      SplitPlainShape(g, d1, d1.t, d1.f, outer, base);
    } else {
      JumpOnConditionShape(g, d1, 1, outer, base);
      var (g1, pc) := JumpOnCondition(g, d1, 1);
      SplitJumpShape(g, d1, g1, pc, d1.t, d1.f, outer, base);
    }
  }

  // ---- Negation ----

  /** Only tests were changed, and into tests. */
  ghost predicate TestsOnly(code: seq<Instr>, code': seq<Instr>) {
    && |code'| == |code|
    && forall i :: 0 <= i < |code| ==> code'[i] == code[i] || (code[i].IsTest() && code'[i].IsTest())
  }

  lemma TestsOnlyGen(g: Gen, code': seq<Instr>, live: set<nat>)
    requires WfGen(g, live) && TestsOnly(g.code, code')
    ensures WfGen(g.(code := code'), live)
  {
  }

  lemma TestsOnlyControlled(code: seq<Instr>, code': seq<Instr>, s: seq<nat>)
    requires Controlled(code, s) && TestsOnly(code, code')
    ensures Controlled(code', s)
  {
  }

  lemma WithoutValuesTests(code: seq<Instr>, s: seq<nat>, t: seq<nat>, outer: set<nat>)
    requires outer !! Elems(s) && outer !! Elems(t)
    requires forall j :: j in outer ==> j < |code| && code[j].Jump?
    ensures var code' := WithoutValues(WithoutValues(code, s), t);
            && TestsOnly(code, code') && Kept(code, code', outer)
            && (forall i :: 0 <= i < |code| && !code[i].TestSet? ==> code'[i] == code[i])
            && (forall i :: 0 <= i < |code| && code[i].TestSet? ==> code'[i].IsTest())
  {
    var code' := WithoutValues(WithoutValues(code, s), t);
    forall j | j in outer && j < |code|
      ensures code'[j] == code[j] && (j > 0 ==> code'[j - 1] == code[j - 1])
    {
      assert j !in Elems(s) && j !in Elems(t);
      if j > 0 {
        assert (j - 1) + 1 !in s && (j - 1) + 1 !in t;
      }
    }
  }

  lemma WithoutValuesShape(g: Gen, d: Desc, outer: set<nat>)
    requires WfBody(g, d, outer)
    ensures var g' := g.(code := WithoutValues(WithoutValues(g.code, d.t), d.f));
            WfBody(g', Desc(d.kind, d.f, d.t), outer) && Kept(g.code, g'.code, outer)
  {
    hide EndsInTest, Kept;
    var code' := WithoutValues(WithoutValues(g.code, d.t), d.f);
    forall j | j in outer
      ensures j < |g.code| && g.code[j].Jump?
    {
      assert j in Live(g, d, outer);
      assert Core(g, d).code[j] == g.code[j];
    }
    WithoutValuesTests(g.code, d.t, d.f, outer);
    var g' := g.(code := code');
    var d' := Desc(d.kind, d.f, d.t);
    assert Live(g', d', outer) == Live(g, d, outer);
    assert TestsOnly(Core(g, d).code, code'[..Body(g, d)]);
    TestsOnlyGen(Core(g, d), code'[..Body(g, d)], Live(g, d, outer));
    TestsOnlyControlled(g.code, code', d.t);
    TestsOnlyControlled(g.code, code', d.f);
  }

  lemma InvertShape(g: Gen, d: Desc, outer: set<nat>)
    requires WfBody(g, d, outer) && d.kind.KJump?
    ensures var g' := InvertJump(g, d.kind.pc);
            && WfBody(g', d, outer) && Kept(g.code, g'.code, outer) && Core(g', d) == Core(g, d)
            && g' == g.(code := g'.code)
  {
    JumpShape(g, d, outer);
    var g' := InvertJump(g, d.kind.pc);
    assert Core(g', d).code == Core(g, d).code;
    assert TestsOnly(g.code, g'.code);
    TestsOnlyControlled(g.code, g'.code, d.t);
    TestsOnlyControlled(g.code, g'.code, d.f);
  }

  lemma EmitNotEmitted(g: Gen, d: Desc, outer: set<nat>, base: nat)
    requires WfDesc(g, d, outer, base) && d.kind.KNonRelocatable? && !FreeExpression(g, d).lossy
    ensures var g1 := FreeExpression(g, d);
            var g' := Emit(g1, Not(0, d.kind.r));
            && g1 == g.(free := base)
            && WfGen(g', Others(d, outer)) && g'.here == [] && |g'.code| == |g.code| + 1
            && g'.code[|g.code|] == Not(0, d.kind.r) && g'.lastTarget == g.lastTarget <= |g.code|
            && Kept(g.code, g'.code, Others(d, outer)) && SameRegisters(g1, g')
            && !EndsInTest(g'.code[..|g.code|])
            && forall j :: j in Others(d, outer) ==> j < |g.code|
  {
    FreeShape(g, d, outer, base);
    var g1 := FreeExpression(g, d);
    var live := Others(d, outer);
    assert Core(g1, d) == g1;
    assert Live(g1, d, outer) == live + Elems(g1.here);
    assert live !! Elems(g1.here) && WfGen(g1, live + Elems(g1.here));
    EmitKeepsEnd(g1, Not(0, d.kind.r));
    hide WfDesc, Core, Live, Apart;
    EmitShape(g1, Not(0, d.kind.r), live);
  }

  lemma EmitNotShape(g: Gen, d: Desc, outer: set<nat>, base: nat)
    requires WfDesc(g, d, outer, base) && d.kind.KNonRelocatable? && !FreeExpression(g, d).lossy
    ensures var g' := Emit(FreeExpression(g, d), Not(0, d.kind.r));
            && WfDesc(g', Desc(KRelocatable(|g'.code| - 1), d.t, d.f), outer, base)
            && Kept(g.code, g'.code, Others(d, outer)) && |g'.code| == |g.code| + 1
            && g'.misfreed == g.misfreed && g'.lastTarget == g.lastTarget
  {
    hide Emit, FreeExpression, Settled, EndsInTest;
    EmitNotEmitted(g, d, outer, base);
    var g' := Emit(FreeExpression(g, d), Not(0, d.kind.r));
    var live := Others(d, outer);
    KeptFewer(g.code, g'.code, live, Elems(d.t));
    KeptFewer(g.code, g'.code, live, Elems(d.f));
    hide Kept;
    LastIsOpen(g', d, live, |g.code|, outer);
    ControlledKept(g.code, g'.code, d.t);
    ControlledKept(g.code, g'.code, d.f);
    hide WfGen, Controlled, Core, Live;
  }

  /** Taking the last instruction off again. */
  lemma LastIsOpen(g: Gen, d: Desc, live: set<nat>, pc: nat, outer: set<nat>)
    requires WfGen(g, live) && g.here == [] && pc + 1 == |g.code| && g.code[pc].Not? && g.lastTarget <= pc
    requires live == Others(d, outer) && !EndsInTest(g.code[..pc])
    requires forall j :: j in live ==> j < pc
    ensures WfGen(Core(g, Desc(KRelocatable(pc), d.t, d.f)), Live(g, Desc(KRelocatable(pc), d.t, d.f), outer))
  {
    var d' := Desc(KRelocatable(pc), d.t, d.f);
    assert Live(g, d', outer) == live;
    assert Core(g, d').code == g.code[..pc];
  }

  lemma KeptTransitive(a: seq<Instr>, b: seq<Instr>, c: seq<Instr>, pending: set<nat>)
    requires Kept(a, b, pending) && Kept(b, c, pending)
    ensures Kept(a, c, pending)
  {
  }

  lemma KeptFewer(a: seq<Instr>, b: seq<Instr>, pending: set<nat>, fewer: set<nat>)
    requires Kept(a, b, pending) && fewer <= pending
    ensures Kept(a, b, fewer)
  {
  }

  lemma NotRegisterShape(g: Gen, d: Desc, outer: set<nat>, base: nat)
    requires WfDesc(g, d, outer, base) && (d.kind.KRelocatable? || d.kind.KNonRelocatable?)
    requires !EncodeNot(g, d).0.lossy
    ensures var (g', d') := EncodeNot(g, d);
            && WfDesc(g', d', outer, base) && Kept(g.code, g'.code, outer)
            && Body(g, d) <= Body(g', d') && g'.misfreed == g.misfreed
            && g.lastTarget <= g'.lastTarget
  {
    hide WfBody, Kept, Emit, DischargeToRegister;
    AnyRegisterShape(g, d, outer, base);
    var (g1, d1) := DischargeToAnyRegister(g, d);
    EmitNotShape(g1, d1, outer, base);
    var g2 := Emit(FreeExpression(g1, d1), Not(0, d1.kind.r));
    WithoutValuesShape(g2, Desc(KRelocatable(|g2.code| - 1), d.t, d.f), outer);
    KeptFewer(g.code, g1.code, Others(d, outer), outer);
    KeptFewer(g1.code, g2.code, Others(d, outer), outer);
    KeptTransitive(g.code, g1.code, g2.code, outer);
    KeptTransitive(g.code, g2.code, EncodeNot(g, d).0.code, outer);
  }

  lemma NotJumpShape(g: Gen, d: Desc, outer: set<nat>, base: nat)
    requires WfDesc(g, d, outer, base) && d.kind.KJump?
    ensures var (g', d') := EncodeNot(g, d);
            && WfDesc(g', d', outer, base) && Kept(g.code, g'.code, outer)
            && Body(g, d) <= Body(g', d') && g'.misfreed == g.misfreed
            && g.lastTarget <= g'.lastTarget
  {
    InvertShape(g, d, outer);
    var g1 := InvertJump(g, d.kind.pc);
    WithoutValuesShape(g1, d, outer);
    KeptTransitive(g.code, g1.code, EncodeNot(g, d).0.code, outer);
  }

  lemma NotConstantShape(g: Gen, d: Desc, kind: Kind, outer: set<nat>, base: nat)
    requires WfDesc(g, d, outer, base) && Body(g, d) == |g.code| && (kind.KTrue? || kind.KFalse?)
    requires !d.kind.KNonRelocatable?
    ensures var g' := g.(code := WithoutValues(WithoutValues(g.code, d.t), d.f));
            && WfDesc(g', Desc(kind, d.f, d.t), outer, base) && Kept(g.code, g'.code, outer)
  {
    var d1 := Desc(kind, d.t, d.f);
    assert Core(g, d) == Core(g, d1);
    assert Live(g, d1, outer) == Live(g, d, outer);
    WithoutValuesShape(g, d1, outer);
  }

  lemma EncodeNotShape(g: Gen, d: Desc, outer: set<nat>, base: nat)
    requires WfDesc(g, d, outer, base) && !EncodeNot(g, d).0.lossy
    ensures var (g', d') := EncodeNot(g, d);
            && WfDesc(g', d', outer, base) && Kept(g.code, g'.code, outer)
            && Body(g, d) <= Body(g', d') && g'.misfreed == g.misfreed
            && g.lastTarget <= g'.lastTarget
  {
    hide WfBody, Kept, Core, Emit, DischargeToAnyRegister, WithoutValues, InvertJump;
    DischargeVariablesShape(g, d, outer, base);
    var d1 := DischargeVariables(d);
    if d1.kind.KJump? {
      NotJumpShape(g, d1, outer, base);
    } else if d1.kind.KRelocatable? || d1.kind.KNonRelocatable? {
      NotRegisterShape(g, d1, outer, base);
    } else {
      NotConstantShape(g, d1, if d1.kind.KNil? || d1.kind.KFalse? then KTrue else KFalse, outer, base);
    }
  }

  // ---- Expressions into registers ----

  /** Ready for the next expression, with nothing of the last one pending but jumps to here. */
  ghost predicate WfStart(g: Gen, outer: set<nat>) {
    WfGen(g, outer + Elems(g.here)) && outer !! Elems(g.here)
  }

  lemma PatchListShape(g: Gen, s: seq<nat>, live: set<nat>, target: nat, r: nat, otherwise: int)
    requires WfGen(g, live + Elems(s)) && live !! Elems(s) && Elems(g.here) <= live
    requires target <= g.lastTarget && otherwise <= g.lastTarget
    ensures var g' := PatchList(g, s, target, r, otherwise);
            && WfGen(g', live) && Kept(g.code, g'.code, live) && |g'.code| == |g.code|
            && g' == g.(code := g'.code, failed := g'.failed)
  {
    assert forall j :: j in s ==> j in Elems(s);
    var g' := PatchList(g, s, target, r, otherwise);
    assert forall i :: 0 <= i < |g.code| ==> g'.code[i] == PatchAt(g.code, i, s, target, r, otherwise);
  }

  lemma PatchedNone(code: seq<Instr>, target: int, r: nat, otherwise: int)
    ensures Patched(code, [], target, r, otherwise) == code
  {
  }

  lemma EmitNone(g: Gen, i: Instr)
    requires g.here == []
    ensures Emit(g, i) == g.(code := g.code + [i], failed := g.failed || !Encodable(i))
  {
    PatchedNone(g.code, |g.code|, NO_REGISTER, |g.code|);
  }

  lemma LoadsCode(g: Gen, r: nat, s: seq<nat>)
    requires g.here == []
    ensures var g' := EmitLoads(g, r, s);
            g' == g.(code := g.code + [LoadBool(r, 0, 1), LoadBool(r, 1, 0)], here := s,
                     lastTarget := |g.code| + 2, failed := g'.failed)
  {
    hide Emit;
    EmitNone(Label(g), LoadBool(r, 0, 1));
    var g4 := EmitLabel(g, LoadBool(r, 0, 1));
    EmitNone(Label(g4), LoadBool(r, 1, 0));
    assert [] + s == s;
  }

  lemma LoadsShape(g: Gen, r: nat, s: seq<nat>, live: set<nat>)
    requires WfGen(g, live + Elems(s)) && live !! Elems(s) && Distinct(s) && g.here == []
    ensures var g' := EmitLoads(g, r, s);
            && WfGen(g', live + Elems(s)) && g'.here == s && g'.lastTarget == |g'.code|
            && g'.code == g.code + [LoadBool(r, 0, 1), LoadBool(r, 1, 0)]
            && Kept(g.code, g'.code, live)
            && SameRegisters(g, g') && g'.constants == g.constants
  {
    hide EmitLoads;
    LoadsCode(g, r, s);
    var g' := EmitLoads(g, r, s);
    assert forall j :: j in live + Elems(s) ==> j < |g.code| && g'.code[j] == g.code[j];
    assert forall i :: 0 <= i < |g.code| ==> g'.code[i] == g.code[i];
  }

  /** Only links were changed. */
  ghost predicate TestsKept(code: seq<Instr>, code': seq<Instr>) {
    && |code'| == |code|
    && forall i :: 0 <= i < |code| ==> code'[i] == code[i] || (code[i].Jump? && code'[i].Jump?)
  }

  lemma TestsKeptControlled(code: seq<Instr>, code': seq<Instr>, s: seq<nat>)
    requires TestsKept(code, code') && Controlled(code, s)
    ensures Controlled(code', s)
  {
  }

  lemma SettleLink(g: Gen, d: Desc, live: set<nat>, outer: set<nat>)
    requires d.kind.KJump? && WfGen(g, live) && Elems(d.t) <= live && outer !! Elems(d.t) && outer <= live
    ensures var g' := Concatenate(g, d.t, [d.kind.pc]);
            && WfGen(g', live) && TestsKept(g.code, g'.code) && Kept(g.code, g'.code, outer)
  {
    ConcatenateShape(g, d.t, [d.kind.pc], live);
  }

  lemma SettleList(outer: set<nat>, t: seq<nat>, f: seq<nat>, pc: nat)
    requires Apart(outer, [], t, f) && pc !in outer + Elems(t) + Elems(f)
    ensures Apart(outer, [], t + [pc], f) && Elems(t + [pc]) == Elems(t) + {pc}
  {
    SingleList(pc);
    DistinctConcat(t, [pc]);
  }

  lemma AtEnd(g: Gen, d: Desc, outer: set<nat>, live: set<nat>)
    requires d.kind.KNonRelocatable? && d.kind.r < g.maxStack
    requires WfGen(g, live) && live == outer + Elems(g.here) + Elems(d.t) + Elems(d.f)
    requires Apart(outer, g.here, d.t, d.f) && Controlled(g.code, d.t) && Controlled(g.code, d.f)
    ensures WfBody(g, d, outer)
  {
    assert Core(g, d) == g;
  }

  lemma SettleControlled(g: Gen, d: Desc, code': seq<Instr>, outer: set<nat>)
    requires WfBody(g, d, outer) && d.kind.KJump? && TestsKept(g.code, code')
    ensures Controlled(code', d.t + [d.kind.pc]) && Controlled(code', d.f)
  {
    TestsKeptControlled(g.code, code', d.t);
    TestsKeptControlled(g.code, code', d.f);
    var pc := d.kind.pc;
    assert code'[pc].Jump? && code'[pc - 1] == g.code[pc - 1];
  }

  lemma JumpApart(g: Gen, d: Desc, outer: set<nat>)
    requires WfBody(g, d, outer) && d.kind.KJump?
    ensures Apart(outer, [], d.t, d.f) && g.here == [] && outer !! Elems(d.t) && d.kind.pc !in outer + Elems(d.t) + Elems(d.f)
  {
    JumpShape(g, d, outer);
  }

  lemma SettleJumpShape(g: Gen, d: Desc, r: nat, outer: set<nat>)
    requires WfBody(g, d, outer) && r < g.maxStack && d.kind.KJump?
    ensures var (g', d') := Settle(g, d, r);
            && WfBody(g', d', outer) && SameRegisters(g, g')
            && Kept(g.code, g'.code, outer) && |g'.code| == |g.code|
            && g'.here == [] && g'.lastTarget == g.lastTarget
  {
    hide WfGen, Kept, Apart, TestsKept, Controlled, Linked;
    JumpShape(g, d, outer);
    JumpApart(g, d, outer);
    var pc := d.kind.pc;
    var live := Others(d, outer) + {pc};
    SettleLink(g, d, live, outer);
    SettleList(outer, d.t, d.f, pc);
    var (g', d') := Settle(g, d, r);
    SettleControlled(g, d, g'.code, outer);
    AtEnd(g', d', outer, live);
  }

  lemma SettleShape(g: Gen, d: Desc, r: nat, outer: set<nat>)
    requires WfBody(g, d, outer) && r < g.maxStack
    ensures var (g', d') := Settle(g, d, r);
            && d'.kind == KNonRelocatable(r) && d'.f == d.f
            && d'.t == (if d.kind.KJump? then d.t + [d.kind.pc] else d.t)
            && WfBody(g', d', outer) && SameRegisters(g, g')
            && Kept(g.code, g'.code, outer)
            && (d.kind.KJump? ==> g'.here == []) && Body(g, d) <= |g'.code|
            && g'.lastTarget == g.lastTarget
  {
    if d.kind.KJump? {
      SettleJumpShape(g, d, r, outer);
    } else {
      DischargeShape(g, d, r, outer);
    }
  }

  lemma PatchBothShape(g: Gen, d: Desc, r: nat, loadFalse: int, loadTrue: int, outer: set<nat>)
    requires WfBody(g, d, outer) && d.kind.KNonRelocatable? && g.lastTarget == |g.code|
    requires loadFalse <= |g.code| && loadTrue <= |g.code|
    ensures var g' := PatchBoth(g, d, r, loadFalse, loadTrue);
            && WfStart(g', outer) && Kept(g.code, g'.code, outer) && |g'.code| == |g.code|
            && SameRegisters(g, g') && g'.lastTarget == g.lastTarget
  {
    assert Core(g, d) == g;
    var live := outer + Elems(g.here);
    assert Live(g, d, outer) == (live + Elems(d.t)) + Elems(d.f);
    PatchListShape(g, d.f, live + Elems(d.t), |g.code|, r, loadFalse);
    var g1 := PatchList(g, d.f, |g.code|, r, loadFalse);
    PatchListShape(g1, d.t, live, |g.code|, r, loadTrue);
  }

  lemma LoadEmitted(g: Gen, live: set<nat>, r: nat, jumped: bool)
    requires WfGen(g, live + Elems(g.here)) && live !! Elems(g.here) && (!jumped ==> g.here == [])
    ensures var (g3, jump) := if jumped then EmitJump(g) else (g, []);
            var g' := EmitLoads(g3, r, jump);
            && WfGen(g', live + Elems(jump)) && g'.here == jump && g'.lastTarget == |g'.code|
            && g3.code + [LoadBool(r, 0, 1), LoadBool(r, 1, 0)] == g'.code && |g.code| <= |g3.code|
            && SameRegisters(g, g') && Kept(g.code, g'.code, live) && Distinct(jump) && live !! Elems(jump)
  {
    var (g3, jump) := if jumped then EmitJump(g) else (g, []);
    assert Elems([]) == {};
    if jumped {
      EmitJumpShape(g, live);
    } else {
      KeptSame(g.code, live);
      assert live + Elems(g.here) == live + Elems(jump);
    }
    hide WfGen, Kept, EmitJump;
    LoadsShape(g3, r, jump, live);
    KeptTransitive(g.code, g3.code, EmitLoads(g3, r, jump).code, live);
  }

  lemma LoadShape(g: Gen, d: Desc, r: nat, outer: set<nat>, jumped: bool)
    requires WfBody(g, d, outer) && d.kind.KNonRelocatable? && d.kind.r < g.maxStack
    requires !jumped ==> g.here == []
    ensures var (g3, jump) := if jumped then EmitJump(g) else (g, []);
            var g' := EmitLoads(g3, r, jump);
            && WfBody(g', d, outer) && Kept(g.code, g'.code, outer) && g'.lastTarget == |g'.code|
            && g3.code + [LoadBool(r, 0, 1), LoadBool(r, 1, 0)] == g'.code && |g.code| <= |g3.code|
            && SameRegisters(g, g') && g'.here == jump
  {
    var live := Others(d, outer);
    assert Core(g, d) == g && Live(g, d, outer) == live + Elems(g.here);
    LoadEmitted(g, live, r, jumped);
    var (g3, jump) := if jumped then EmitJump(g) else (g, []);
    var g' := EmitLoads(g3, r, jump);
    KeptFewer(g.code, g'.code, live, outer);
    KeptFewer(g.code, g'.code, live, Elems(d.t));
    KeptFewer(g.code, g'.code, live, Elems(d.f));
    hide WfGen, Kept, EmitJump, EmitLoads, Core;
    ControlledKept(g.code, g'.code, d.t);
    ControlledKept(g.code, g'.code, d.f);
    AtEnd(g', d, outer, live + Elems(jump));
  }

  lemma ExpressionToRegisterShape(g: Gen, d: Desc, r: nat, outer: set<nat>)
    requires WfBody(g, d, outer) && r < g.maxStack
    ensures var g' := ExpressionToRegister(g, d, r);
            && WfStart(g', outer) && Kept(g.code, g'.code, outer) && Body(g, d) <= |g'.code|
            && SameRegisters(g, g') && g.lastTarget <= g'.lastTarget
  {
    hide WfBody, Kept, Settle, EmitLoads, EmitJump, PatchBoth, NeedValue;
    LastTargetBody(g, d, outer);
    SettleShape(g, d, r, outer);
    var (g2, d2) := Settle(g, d, r);
    if !HasJumps(d2) {
      SettledStart(g2, d2, outer);
    } else if NeedValue(g2.code, d2.t) || NeedValue(g2.code, d2.f) {
      LoadShape(g2, d2, r, outer, !d.kind.KJump?);
      var (g3, jump) := if d.kind.KJump? then (g2, []) else EmitJump(g2);
      var g5 := EmitLoads(g3, r, jump);
      PatchBothShape(g5, d2, r, |g3.code|, |g3.code| + 1, outer);
      KeptTransitive(g.code, g2.code, g5.code, outer);
      KeptTransitive(g.code, g5.code, ExpressionToRegister(g, d, r).code, outer);
    } else {
      LabelShape(g2, d2, outer);
      PatchBothShape(Label(g2), d2, r, -1, -1, outer);
      KeptTransitive(g.code, g2.code, ExpressionToRegister(g, d, r).code, outer);
    }
  }

  lemma LastTargetBody(g: Gen, d: Desc, outer: set<nat>)
    requires WfBody(g, d, outer)
    ensures g.lastTarget <= Body(g, d) <= |g.code|
  {
  }

  lemma SettledStart(g: Gen, d: Desc, outer: set<nat>)
    requires WfBody(g, d, outer) && d.kind.KNonRelocatable? && !HasJumps(d)
    ensures WfStart(g, outer)
  {
    assert Core(g, d) == g;
    assert Live(g, d, outer) == outer + Elems(g.here);
  }

  lemma LabelShape(g: Gen, d: Desc, outer: set<nat>)
    requires WfBody(g, d, outer) && d.kind.KNonRelocatable?
    ensures WfBody(Label(g), d, outer)
  {
    assert Core(g, d) == g && Core(Label(g), d) == Label(g);
    assert Live(Label(g), d, outer) == Live(g, d, outer);
  }

  // ---- Operands ----

  ghost predicate WfOperand(g: Gen, d: Desc, field: nat, outer: set<nat>, base: nat) {
    && WfStart(g, outer) && OperandFits(g, field) && !HasJumps(d)
    && WfRegister(g, d, base)
    && (d.kind == KNonRelocatable(field) || (d.kind.KConstant? && field == d.kind.k + BIT_RK && d.kind.k <= MAX_INDEX_RK))
    && (d.kind.KNonRelocatable? ==> field < g.maxStack && field < BIT_RK)
  }

  /** The value is in a register. */
  ghost predicate RegisterReady(g: Gen, d: Desc, outer: set<nat>, base: nat) {
    && WfStart(g, outer) && !HasJumps(d) && WfRegister(g, d, base)
    && d.kind.KNonRelocatable? && d.kind.r < g.maxStack
  }

  lemma ReserveShape(g: Gen, g1: Gen, d: Desc, outer: set<nat>)
    requires WfBody(g, d, outer) && Grows(g, g1)
    requires g1 == g.(free := g1.free, maxStack := g1.maxStack, failed := g1.failed, misfreed := g1.misfreed)
    requires g1.active <= g1.free <= g1.maxStack
    ensures WfBody(g1, d, outer)
  {
    assert Core(g1, d).code == Core(g, d).code;
  }

  lemma NextRegisterShape(g: Gen, d: Desc, outer: set<nat>, base: nat)
    requires WfDesc(g, d, outer, base) && !d.kind.KLocal? && !ExpressionToNextRegister(g, d).0.lossy
    ensures var (g', d') := ExpressionToNextRegister(g, d);
            && RegisterReady(g', d', outer, base)
            && Kept(g.code, g'.code, outer) && Body(g, d) <= |g'.code| && g'.misfreed == g.misfreed
            && g.lastTarget <= g'.lastTarget
  {
    hide WfGen, Kept, WfBody, ExpressionToRegister;
    FreeShape(g, d, outer, base);
    var g1 := Reserve(FreeExpression(g, d), 1);
    ReserveShape(g, g1, d, outer);
    ExpressionToRegisterShape(g1, d, base, outer);
  }

  lemma AnyShape(g: Gen, d: Desc, outer: set<nat>, base: nat)
    requires WfDesc(g, d, outer, base) && !ExpressionToAnyRegister(g, d).0.lossy
    ensures var (g', d') := ExpressionToAnyRegister(g, d);
            && RegisterReady(g', d', outer, base)
            && Kept(g.code, g'.code, outer) && Body(g, d) <= |g'.code| && g'.misfreed == g.misfreed
            && g.lastTarget <= g'.lastTarget
  {
    hide Kept, ExpressionToRegister, ExpressionToNextRegister;
    DischargeVariablesShape(g, d, outer, base);
    var d1 := DischargeVariables(d);
    if d1.kind.KNonRelocatable? && !HasJumps(d1) {
      SettledStart(g, d1, outer);
      KeptSame(g.code, outer);
    } else if d1.kind.KNonRelocatable? && d1.kind.r >= g.active {
      ExpressionToRegisterShape(g, d1, d1.kind.r, outer);
    } else {
      NextRegisterShape(g, d1, outer, base);
    }
  }

  lemma KeptSame(code: seq<Instr>, pending: set<nat>)
    ensures Kept(code, code, pending)
  {
  }

  lemma ConstantStart(g: Gen, g': Gen, d: Desc, outer: set<nat>)
    requires WfBody(g, d, outer) && Body(g, d) == |g.code| && !HasJumps(d)
    requires g' == g.(constants := g'.constants, lookup := g'.lookup)
    ensures WfStart(g', outer)
  {
    assert Core(g, d) == g;
    assert Live(g, d, outer) == outer + Elems(g.here);
  }

  ghost predicate OperandDone(g: Gen, d: Desc, outer: set<nat>, base: nat, res: (Gen, Desc, nat)) {
    && WfOperand(res.0, res.1, res.2, outer, base)
    && Kept(g.code, res.0.code, outer) && Body(g, d) <= |res.0.code| && res.0.misfreed == g.misfreed
    && g.lastTarget <= res.0.lastTarget
  }

  lemma ConstantOperandShape(g: Gen, d: Desc, v: Value, outer: set<nat>, base: nat)
    requires WfDesc(g, d, outer, base) && Body(g, d) == |g.code| && !HasJumps(d) && !d.kind.KNonRelocatable?
    requires AddConstant(g, v).1 <= MAX_INDEX_RK
    ensures var (g2, k) := AddConstant(g, v);
            OperandDone(g, d, outer, base, (g2, d.(kind := KConstant(k)), k + BIT_RK))
  {
    var (g2, k) := AddConstant(g, v);
    ConstantStart(g, g2, d, outer);
    KeptSame(g.code, outer);
  }

  /** A description that has only to be put into a register. */
  lemma RegisterOperandShape(g: Gen, g1: Gen, d: Desc, d1: Desc, outer: set<nat>, base: nat)
    requires WfDesc(g1, d1, outer, base) && !Register(g1, d1).0.lossy
    requires g1.code == g.code && g1.misfreed == g.misfreed && Body(g1, d1) == Body(g, d)
    requires g1.lastTarget == g.lastTarget
    ensures OperandDone(g, d, outer, base, Register(g1, d1))
  {
    AnyShape(g1, d1, outer, base);
  }

  lemma NumberShape(g: Gen, d: Desc, bits: nat, outer: set<nat>, base: nat)
    requires WfDesc(g, d, outer, base) && d.kind == KNumber(bits)
    ensures var (g2, k) := AddConstant(g, Number(bits));
            WfDesc(g2, d.(kind := KConstant(k)), outer, base)
  {
    var (g2, k) := AddConstant(g, Number(bits));
    assert Core(g2, d.(kind := KConstant(k))) == g2 && Core(g, d) == g;
    assert Live(g2, d.(kind := KConstant(k)), outer) == Live(g, d, outer);
  }

  lemma PlainOperandShape(g: Gen, d: Desc, outer: set<nat>, base: nat)
    requires WfDesc(g, d, outer, base) && !HasJumps(d) && !d.kind.KLocal?
    requires !ExpressionToOperand(g, d).0.lossy
    ensures OperandDone(g, d, outer, base, ExpressionToOperand(g, d))
  {
    hide WfBody, Kept, ExpressionToAnyRegister, AddConstant, OperandDone, WfRegister;
    match d.kind
    case KTrue =>
      if |g.constants| <= MAX_INDEX_RK {
        ConstantIndex(g, Bool(true));
        ConstantOperandShape(g, d, Bool(true), outer, base);
      } else {
        RegisterOperandShape(g, g, d, d, outer, base);
      }
    case KFalse =>
      if |g.constants| <= MAX_INDEX_RK {
        ConstantIndex(g, Bool(false));
        ConstantOperandShape(g, d, Bool(false), outer, base);
      } else {
        RegisterOperandShape(g, g, d, d, outer, base);
      }
    case KNil =>
      if |g.constants| <= MAX_INDEX_RK {
        ConstantIndex(g, Nil);
        ConstantOperandShape(g, d, Nil, outer, base);
      } else {
        RegisterOperandShape(g, g, d, d, outer, base);
      }
    case KNumber(bits) =>
      var (g2, k) := AddConstant(g, Number(bits));
      if k <= MAX_INDEX_RK {
        ConstantOperandShape(g, d, Number(bits), outer, base);
      } else {
        NumberShape(g, d, bits, outer, base);
        ConstantCode(g, Number(bits));
        RegisterOperandShape(g, g2, d, d.(kind := KConstant(k)), outer, base);
      }
    case KConstant(k) =>
      if k <= MAX_INDEX_RK {
        StableOperandShape(g, d, outer, base);
      } else {
        RegisterOperandShape(g, g, d, d, outer, base);
      }
    case KRelocatable(_) => RegisterOperandShape(g, g, d, d, outer, base);
    case KJump(_) => RegisterOperandShape(g, g, d, d, outer, base);
    case KNonRelocatable(_) => RegisterOperandShape(g, g, d, d, outer, base);
  }

  lemma StableOperandShape(g: Gen, d: Desc, outer: set<nat>, base: nat)
    requires WfDesc(g, d, outer, base) && !HasJumps(d) && d.kind.KConstant? && d.kind.k <= MAX_INDEX_RK
    ensures OperandDone(g, d, outer, base, (g, d, d.kind.k + BIT_RK))
  {
    ConstantStart(g, g, d, outer);
  }

  lemma ConstantIndex(g: Gen, v: Value)
    ensures AddConstant(g, v).1 <= |g.constants|
  {
  }

  lemma ConstantCode(g: Gen, v: Value)
    ensures var g' := AddConstant(g, v).0; g' == g.(constants := g'.constants, lookup := g'.lookup)
  {
  }

  lemma RegisterStable(g: Gen, d: Desc)
    requires d.kind.KNonRelocatable? && !HasJumps(d)
    ensures Register(g, d) == (g.(lossy := g.lossy || d.kind.r >= BIT_RK), d, d.kind.r)
  {
  }

  lemma OperandShape(g: Gen, d: Desc, outer: set<nat>, base: nat)
    requires WfDesc(g, d, outer, base) && !ExpressionToOperand(g, d).0.lossy
    ensures OperandDone(g, d, outer, base, ExpressionToOperand(g, d))
  {
    hide WfBody, Kept, ExpressionToAnyRegister, AddConstant, WfRegister;
    if HasJumps(d) {
      AnyShape(g, d, outer, base);
      var (g1, d1) := ExpressionToAnyRegister(g, d);
      RegisterStable(g1, d1);
    } else {
      DischargeVariablesShape(g, d, outer, base);
      PlainOperandShape(g, DischargeVariables(d), outer, base);
    }
  }

  /** An operand stays what it is. */
  lemma OperandStable(g: Gen, g': Gen, d: Desc, field: nat, outer: set<nat>, base: nat)
    requires WfOperand(g, d, field, outer, base)
    ensures ExpressionToOperand(g', d) == (g', d, field)
  {
  }

  // ---- Comparisons ----

  lemma FreeOperandShape(g: Gen, d: Desc, base: nat)
    requires WfRegister(g, d, base) && (d.kind.KNonRelocatable? ==> d.kind.r < BIT_RK)
    ensures FreeExpression(g, d) == g.(free := base)
  {
  }

  lemma CompareShape(g: Gen, i: Instr, outer: set<nat>)
    requires WfStart(g, outer) && i.Compare? && OperandFits(g, i.b) && OperandFits(g, i.c)
    ensures var (g', pc) := ConditionalJump(g, i);
            && WfDesc(g', Desc(KJump(pc), [], []), outer, g.free)
            && Kept(g.code, g'.code, outer) && |g.code| <= Body(g', Desc(KJump(pc), [], []))
            && g'.misfreed == g.misfreed
            && g.lastTarget <= g'.lastTarget
  {
    ConditionalJumpShape(g, i, outer);
    var (g', pc) := ConditionalJump(g, i);
    var d := Desc(KJump(pc), [], []);
    assert Live(g', d, outer) == outer;
    assert Core(g', d) == g'.(code := g'.code[..pc - 1]);
  }

  lemma StartFree(g: Gen, outer: set<nat>, free: nat)
    requires WfStart(g, outer) && g.active <= free <= g.free
    ensures WfStart(g.(free := free), outer)
  {
  }

  lemma EncodeComparisonShape(g1: Gen, g: Gen, rel: Relation, cond: nat, d1: Desc, o1: nat, d2: Desc, outer: set<nat>, base: nat)
    requires WfOperand(g1, d1, o1, outer, base) && Grows(g1, g)
    requires WfDesc(g, d2, outer, g1.free) && !EncodeComparison(g, rel, cond, d1, d2).0.lossy
    ensures var (g', d') := EncodeComparison(g, rel, cond, d1, d2);
            && WfDesc(g', d', outer, base) && Kept(g.code, g'.code, outer)
            && Body(g, d2) <= Body(g', d') && g'.misfreed == g.misfreed
            && g.lastTarget <= g'.lastTarget
  {
    hide WfStart, Kept, WfBody, WfRegister, WfOperand, ConditionalJump, ExpressionToOperand, FreeExpression, OperandFits;
    OperandStable(g1, g, d1, o1, outer, base);
    OperandsShape(g1, g, d1, o1, d2, outer, base);
    var (g2, e2, o2) := ExpressionToOperand(g, d2);
    var g3 := FreeExpression(FreeExpression(g2, e2), d1);
    CompareShape(g3, Compare(rel, cond, o1, o2), outer);
    CompareShape(g3, Compare(rel, 1, o2, o1), outer);
    var g' := EncodeComparison(g, rel, cond, d1, d2).0;
    KeptTransitive(g.code, g3.code, g'.code, outer);
  }

  /** The generator with both operands of a comparison ready and their registers freed. */
  lemma OperandsShape(g1: Gen, g: Gen, d1: Desc, o1: nat, d2: Desc, outer: set<nat>, base: nat)
    requires WfOperand(g1, d1, o1, outer, base) && Grows(g1, g)
    requires WfDesc(g, d2, outer, g1.free) && !ExpressionToOperand(g, d2).0.lossy
    ensures var (g2, e2, o2) := ExpressionToOperand(g, d2);
            var g3 := FreeExpression(FreeExpression(g2, e2), d1);
            && g3 == g2.(free := base) && WfStart(g3, outer) && OperandFits(g3, o1) && OperandFits(g3, o2)
            && Kept(g.code, g3.code, outer) && Body(g, d2) <= |g3.code|
            && g3.misfreed == g.misfreed && g.lastTarget <= g3.lastTarget
  {
    hide WfGen, Kept, WfBody, ExpressionToOperand;
    OperandShape(g, d2, outer, g1.free);
    var (g2, e2, o2) := ExpressionToOperand(g, d2);
    FreeOperandShape(g2, e2, g1.free);
    FreeOperandShape(FreeExpression(g2, e2), d1, base);
    StartFree(g2, outer, base);
  }

  // ---- Whole expressions ----

  lemma CompileLocal(g: Gen, l: nat)
    ensures Compile(g, ELocal(l)) == (g, Plain(KLocal(l)))
  {
    hide GoIfTrue, GoIfFalse, EncodeNot, EncodeComparison, ExpressionToOperand, Concatenate, AddConstant;
  }

  lemma CompileAnd(g: Gen, e1: Expr, e2: Expr)
    ensures var (g0, d0) := Compile(g, e1);
            var (g1, d1) := GoIfTrue(g0, d0);
            var (g2, d2) := Compile(g1, e2);
            var d := DischargeVariables(d2);
            Compile(g, EAnd(e1, e2)) == (Concatenate(g2, d.f, d1.f), d.(f := d.f + d1.f))
  {
    hide GoIfTrue, GoIfFalse, EncodeNot, EncodeComparison, ExpressionToOperand, Concatenate, DischargeVariables;
  }

  lemma CompileOr(g: Gen, e1: Expr, e2: Expr)
    ensures var (g0, d0) := Compile(g, e1);
            var (g1, d1) := GoIfFalse(g0, d0);
            var (g2, d2) := Compile(g1, e2);
            var d := DischargeVariables(d2);
            Compile(g, EOr(e1, e2)) == (Concatenate(g2, d.t, d1.t), d.(t := d.t + d1.t))
  {
    hide GoIfTrue, GoIfFalse, EncodeNot, EncodeComparison, ExpressionToOperand, Concatenate, DischargeVariables;
  }

  lemma CompileCompare(g: Gen, op: CompareOp, e1: Expr, e2: Expr)
    ensures var (g0, d0) := Compile(g, e1);
            var (g1, d1, _) := ExpressionToOperand(g0, d0);
            var (g2, d2) := Compile(g1, e2);
            Compile(g, ECompare(op, e1, e2)) == EncodeComparison(g2, RelationOf(op), ConditionOf(op), d1, d2)
  {
    hide GoIfTrue, GoIfFalse, EncodeNot, EncodeComparison, ExpressionToOperand, Concatenate, DischargeVariables;
  }

  /** What compiling an expression leaves behind. */
  ghost predicate Compiled(g: Gen, g': Gen, d: Desc, outer: set<nat>) {
    && WfDesc(g', d, outer, g.free) && Kept(g.code, g'.code, outer)
    && |g.code| <= Body(g', d) && g'.misfreed == g.misfreed
    && g.lastTarget <= g'.lastTarget
  }

  lemma PlainShape(g: Gen, g': Gen, kind: Kind, outer: set<nat>)
    requires WfStart(g, outer) && g' == g.(constants := g'.constants, lookup := g'.lookup)
    requires kind.KNil? || kind.KTrue? || kind.KFalse? || kind.KNumber?
             || (kind.KConstant? && kind.k < |g'.constants|) || (kind.KLocal? && kind.l < g.active)
    ensures Compiled(g, g', Plain(kind), outer)
  {
    assert Live(g', Plain(kind), outer) == outer + Elems(g.here);
    assert Core(g', Plain(kind)) == g';
  }

  /** Joining the jumps out of the first operand to those of the second. */
  lemma JoinShape(g: Gen, d: Desc, d': Desc, s1: seq<nat>, s2: seq<nat>, outer: set<nat>, base: nat)
    requires WfDesc(g, d, outer + Elems(s2), base)
    requires Distinct(s2) && outer !! Elems(s2) && Controlled(g.code, s2)
    requires (s1 == d.f && d' == d.(f := s1 + s2)) || (s1 == d.t && d' == d.(t := s1 + s2))
    ensures var g' := Concatenate(g, s1, s2);
            && WfDesc(g', d', outer, base) && Kept(g.code, g'.code, outer)
            && Body(g', d') == Body(g, d) && g'.misfreed == g.misfreed
            && g'.lastTarget == g.lastTarget
  {
    hide Settled;
    var g' := Concatenate(g, s1, s2);
    var live := Live(g, d, outer + Elems(s2));
    JoinApart(g, d, d', s1, s2, outer);
    JoinCore(g, d, s1, s2, live);
    KeptFewer(g.code, g'.code, live - Elems(s1), outer);
    assert Controlled(g.code, d'.t) && Controlled(g.code, d'.f);
    hide Apart, Kept, Concatenate, Controlled, WfPending, EndsInTest;
    TestsKeptControlled(g.code, g'.code, d'.t);
    TestsKeptControlled(g.code, g'.code, d'.f);
    JoinBody(g, g', d, d', outer, live);
  }

  lemma JoinBody(g: Gen, g': Gen, d: Desc, d': Desc, outer: set<nat>, live: set<nat>)
    requires Body(g', d) <= |g'.code| && WfGen(Core(g', d), live) && live == Live(g', d', outer)
    requires WfKind(g', d) && d'.kind == d.kind
    requires Apart(outer, g'.here, d'.t, d'.f) && Controlled(g'.code, d'.t) && Controlled(g'.code, d'.f)
    ensures WfBody(g', d', outer)
  {
    assert Core(g', d') == Core(g', d);
  }

  lemma JoinApart(g: Gen, d: Desc, d': Desc, s1: seq<nat>, s2: seq<nat>, outer: set<nat>)
    requires Apart(outer + Elems(s2), g.here, d.t, d.f) && Distinct(s2) && outer !! Elems(s2)
    requires (s1 == d.f && d' == d.(f := s1 + s2)) || (s1 == d.t && d' == d.(t := s1 + s2))
    ensures Apart(outer, g.here, d'.t, d'.f) && Elems(s1 + s2) == Elems(s1) + Elems(s2)
    ensures Live(g, d', outer) == Live(g, d, outer + Elems(s2))
  {
    DistinctConcat(s1, s2);
  }

  lemma JoinCore(g: Gen, d: Desc, s1: seq<nat>, s2: seq<nat>, live: set<nat>)
    requires Body(g, d) <= |g.code| && WfGen(Core(g, d), live) && Elems(s1) <= live
    requires WfKind(g, d)
    ensures var g' := Concatenate(g, s1, s2);
            && WfGen(Core(g', d), live) && TestsKept(g.code, g'.code) && Kept(g.code, g'.code, live - Elems(s1))
            && TestsKept(Core(g, d).code, Core(g', d).code) && WfKind(g', d)
  {
    hide EndsInTest, Settled, Apart, ConditionalJump, Controlled, DischargeToRegister, Emit, EmitJump, Encodable,
         Others, PatchAt, PatchTooFar, Patched, WfBody, WfRegister;
    var g' := Concatenate(g, s1, s2);
    var c := Core(g, d);
    ConcatenateShape(c, s1, s2, live);
    if s1 != [] && s2 != [] {
      assert s1[|s1| - 1] in Elems(s1);
      assert s1[|s1| - 1] < |c.code|;
      assert c.code[s1[|s1| - 1]] == g.code[s1[|s1| - 1]];
    }
    assert Core(g', d).code == Concatenate(c, s1, s2).code;
  }

  lemma AndShape(g: Gen, e1: Expr, e2: Expr, outer: set<nat>)
    requires WfStart(g, outer) && Scoped(EAnd(e1, e2), g.active)
    requires !Compile(g, EAnd(e1, e2)).0.lossy
    ensures var (g', d') := Compile(g, EAnd(e1, e2)); Compiled(g, g', d', outer)
    decreases EAnd(e1, e2), 0
  {
    hide WfGen, Kept, WfBody, GoIfTrue, GoIfFalse, Concatenate, WfRegister, EncodeNot, EncodeComparison,
         ExpressionToOperand;
    var (g1, d1) := Compile(g, e1);
    CompileShape(g, e1, outer);
    GoIfTrueShape(g1, d1, outer, g.free);
    LastTargetBody(g1, d1, outer);
    var (g2, d1') := GoIfTrue(g1, d1);
    SplitStart(g2, d1'.f, outer, g.free);
    CompileShape(g2, e2, outer + Elems(d1'.f));
    var (g3, d2) := Compile(g2, e2);
    JoinCompiled(g, g1, g2, g3, d2, d1'.f, outer);
    var d := DischargeVariables(d2);
    JoinShape(g3, d, d.(f := d.f + d1'.f), d.f, d1'.f, outer, g.free);
    KeptTransitive(g.code, g3.code, Concatenate(g3, d.f, d1'.f).code, outer);
  }

  lemma OrShape(g: Gen, e1: Expr, e2: Expr, outer: set<nat>)
    requires WfStart(g, outer) && Scoped(EOr(e1, e2), g.active)
    requires !Compile(g, EOr(e1, e2)).0.lossy
    ensures var (g', d') := Compile(g, EOr(e1, e2)); Compiled(g, g', d', outer)
    decreases EOr(e1, e2), 0
  {
    hide WfGen, Kept, WfBody, GoIfTrue, GoIfFalse, Concatenate, WfRegister, EncodeNot, EncodeComparison,
         ExpressionToOperand;
    var (g1, d1) := Compile(g, e1);
    CompileShape(g, e1, outer);
    GoIfFalseShape(g1, d1, outer, g.free);
    LastTargetBody(g1, d1, outer);
    var (g2, d1') := GoIfFalse(g1, d1);
    SplitStart(g2, d1'.t, outer, g.free);
    CompileShape(g2, e2, outer + Elems(d1'.t));
    var (g3, d2) := Compile(g2, e2);
    JoinCompiled(g, g1, g2, g3, d2, d1'.t, outer);
    var d := DischargeVariables(d2);
    JoinShape(g3, d, d.(t := d.t + d1'.t), d.t, d1'.t, outer, g.free);
    KeptTransitive(g.code, g3.code, Concatenate(g3, d.t, d1'.t).code, outer);
  }

  /** The second operand is compiled with the first one's jumps out of reach. */
  lemma SplitStart(g: Gen, s: seq<nat>, outer: set<nat>, base: nat)
    requires WfSplit(g, s, outer, base)
    ensures WfStart(g, outer + Elems(s)) && outer !! Elems(s) && Distinct(s) && Controlled(g.code, s)
    ensures forall j :: j in s ==> j < |g.code|
    ensures g.free == base
  {
  }

  lemma JoinCompiled(g: Gen, g1: Gen, g2: Gen, g3: Gen, d2: Desc, s: seq<nat>, outer: set<nat>)
    requires Compiled(g2, g3, d2, outer + Elems(s)) && g2.free == g.free
    requires WfStart(g2, outer + Elems(s)) && Controlled(g2.code, s)
    requires Kept(g.code, g1.code, outer) && Kept(g1.code, g2.code, outer)
    ensures WfDesc(g3, DischargeVariables(d2), outer + Elems(s), g.free)
    ensures Controlled(g3.code, s)
    ensures Kept(g.code, g3.code, outer)
  {
    DischargeVariablesShape(g3, d2, outer + Elems(s), g.free);
    ControlledKept(g2.code, g3.code, s);
  }

  lemma CompareExprShape(g: Gen, op: CompareOp, e1: Expr, e2: Expr, outer: set<nat>)
    requires WfStart(g, outer) && Scoped(ECompare(op, e1, e2), g.active)
    requires !Compile(g, ECompare(op, e1, e2)).0.lossy
    ensures var (g', d') := Compile(g, ECompare(op, e1, e2)); Compiled(g, g', d', outer)
    decreases ECompare(op, e1, e2), 0
  {
    hide WfGen, Kept, WfBody, ExpressionToOperand, EncodeComparison, WfRegister;
    var (g1, d1) := Compile(g, e1);
    CompileShape(g, e1, outer);
    OperandShape(g1, d1, outer, g.free);
    var (g2, d1', o1) := ExpressionToOperand(g1, d1);
    CompileShape(g2, e2, outer);
    var (g3, d2) := Compile(g2, e2);
    EncodeComparisonShape(g2, g3, RelationOf(op), ConditionOf(op), d1', o1, d2, outer, g.free);
    var g' := Compile(g, ECompare(op, e1, e2)).0;
    KeptTransitive(g.code, g1.code, g2.code, outer);
    KeptTransitive(g.code, g2.code, g3.code, outer);
    KeptTransitive(g.code, g3.code, g'.code, outer);
  }

  /** Compiling any expression keeps the state well formed, leaves the pending jumps around it
      alone, holds at most one register, and never trips freeRegister's check. */
  lemma {:induction false} CompileShape(g: Gen, e: Expr, outer: set<nat>)
    requires WfStart(g, outer) && Scoped(e, g.active) && !Compile(g, e).0.lossy
    ensures var (g', d') := Compile(g, e); Compiled(g, g', d', outer)
    decreases e
  {
    hide WfGen, Kept, WfBody, EncodeNot, WfRegister;
    match e
    case ENil => PlainShape(g, g, KNil, outer);
    case ETrue => PlainShape(g, g, KTrue, outer);
    case EFalse => PlainShape(g, g, KFalse, outer);
    case ENumber(bits) => PlainShape(g, g, KNumber(bits), outer);
    case EString(s) =>
      var (g1, k) := AddConstant(g, Str(s));
      PlainShape(g, g1, KConstant(k), outer);
    case ELocal(l) => PlainShape(g, g, KLocal(l), outer);
    case EParen(e1) =>
      CompileShape(g, e1, outer);
      var (g1, d1) := Compile(g, e1);
      DischargeVariablesShape(g1, d1, outer, g.free);
    case ENot(e1) =>
      CompileShape(g, e1, outer);
      var (g1, d1) := Compile(g, e1);
      EncodeNotShape(g1, d1, outer, g.free);
      KeptTransitive(g.code, g1.code, EncodeNot(g1, d1).0.code, outer);
    case EAnd(e1, e2) => AndShape(g, e1, e2, outer);
    case EOr(e1, e2) => OrShape(g, e1, e2, outer);
    case ECompare(op, e1, e2) => CompareExprShape(g, op, e1, e2, outer);
  }
}
