/**
  The theorem about the code generator, for the two ways an expression ends up in a register,
  and what happens where a limit of the instructions is met.
 */
module LuaTheorem {
  import opened LuaMachine
  import opened LuaGenerator
  import opened LuaShape
  import opened LuaRuns
  import opened LuaCorrectness
  import opened LuaExpressions

  /** The code for `local r = e`: the value goes to the first free register. */
  function CompileToNext(g: Gen, e: Expr): (g': Gen)
    ensures Grows(g, g')
  {
    var (g1, d1) := Compile(g, e);
    ExpressionToNextRegister(g1, d1).0
  }

  /** The code for `r = e` with a local on the left. */
  function CompileToLocal(g: Gen, e: Expr, r: nat): (g': Gen)
    ensures Grows(g, g')
  {
    var (g1, d1) := Compile(g, e);
    ExpressionToRegister(FreeExpression(g1, d1), d1, r)
  }

  /** Running on from `o`, the value of `e` gets into `r`, and no other register below `n` changes. */
  ghost predicate Computes(x: Context, g: Gen, g': Gen, e: Expr, r: nat, n: nat, outer: set<nat>)
    requires Scoped(e, |x.frame|)
  {
    var o := Before(x, g, outer);
    var o' := Before(x, g', outer);
    if Arrives(o, g.here) then
      match Eval(x.env, e, o.frame)
      case Raise => o'.Raised?
      case Ok(v) =>
        && Arrives(o', g'.here)
        && |o'.frame| == |o.frame| && n <= |o.frame| && r < |o.frame| && o'.frame[r] == v
        && (forall i :: 0 <= i < n && i != r ==> o'.frame[i] == o.frame[i])
    else o' == o
  }

  lemma TracksComputes(x: Context, g: Gen, g': Gen, e: Expr, r: nat, outer: set<nat>)
    requires Scoped(e, |x.frame|) && TracksRegister(x, g', r, outer, GoalOf(x, g, e, outer))
    ensures Computes(x, g, g', e, r, g.free, outer)
  {
  }

  /**
    For every expression, every state of the generator, every set of other pending jumps and
    every run: the code for `local r = e` takes the run to its end with the short-circuit
    value of `e` in the new register and every register below unchanged, or raises the error
    that `e` raises. Runs that do not get to the expression are not affected.
   */
  lemma NextRegisterCorrect(x: Context, g: Gen, e: Expr, outer: set<nat>)
    requires WfStart(g, outer) && Scoped(e, g.active) && Enters(x, g)
    requires Fits(x, CompileToNext(g, e)) && !Before(x, g, outer).Fault?
    ensures var g' := CompileToNext(g, e);
            && WfStart(g', outer) && g'.free == g.free + 1 && g'.misfreed == g.misfreed
            && Scoped(e, |x.frame|) && Computes(x, g, g', e, g.free, g.free, outer)
  {
    hide WfGen, Kept;
    var (g1, d1) := Compile(g, e);
    var g' := CompileToNext(g, e);
    FitsEarlier(x, g1, g');
    CompileTracks(x, g, e, outer);
    CompilableFits(x, g, e, outer);
    CompileShape(g, e, outer);
    EntersFirst(x, g, g1, d1, outer);
    NextStep(x, g, g1, d1, e, outer);
  }

  lemma NextStep(x: Context, g: Gen, g1: Gen, d1: Desc, e: Expr, outer: set<nat>)
    requires Compiled(g, g1, d1, outer) && Enters(x, g1) && Fits(x, g1)
    requires Fits(x, ExpressionToNextRegister(g1, d1).0) && Scoped(e, |x.frame|)
    requires ProperGoal(x, GoalOf(x, g, e, outer), outer) && Tracks(x, g1, d1, outer, GoalOf(x, g, e, outer))
    ensures var (g', d') := ExpressionToNextRegister(g1, d1);
            && WfStart(g', outer) && g'.free == g.free + 1 && g'.misfreed == g.misfreed
            && Computes(x, g, g', e, g.free, g.free, outer)
  {
    hide WfBody, Tracks, TracksRegister, ExpressionToRegister, GoalOf, WfPending, Computes, Enters;
    var goal := GoalOf(x, g, e, outer);
    var d2 := DischargeVariables(d1);
    DischargeVariablesShape(g1, d1, outer, g.free);
    DischargeVariablesTracks(x, g1, d1, outer, goal);
    var g2 := Reserve(FreeExpression(g1, d2), 1);
    var g' := ExpressionToRegister(g2, d2, g.free);
    FreeShape(g1, d2, outer, g.free);
    NextReserved(x, g, g1, g2, d2, e, outer);
    ExpressionToRegisterShape(g2, d2, g.free, outer);
    ExpressionToRegisterTracks(x, g2, d2, g.free, outer, goal);
    TracksComputes(x, g, g', e, g.free, outer);
  }

  lemma NextReserved(x: Context, g: Gen, g1: Gen, g2: Gen, d: Desc, e: Expr, outer: set<nat>)
    requires WfDesc(g1, d, outer, g.free) && Enters(x, g1) && Fits(x, g1)
    requires g2 == Reserve(FreeExpression(g1, d), 1) && FreeExpression(g1, d) == g1.(free := g.free)
    requires Fits(x, ExpressionToRegister(g2, d, g.free)) && Scoped(e, |x.frame|)
    requires Tracks(x, g1, d, outer, GoalOf(x, g, e, outer))
    ensures WfBody(g2, d, outer) && Fits(x, g2) && Enters(x, g2) && Tracks(x, g2, d, outer, GoalOf(x, g, e, outer))
  {
    FitsEarlier(x, g2, ExpressionToRegister(g2, d, g.free));
    ReserveShape(g1, g2, d, outer);
    SameCodeTracks(x, g1, g2, d, outer, GoalOf(x, g, e, outer));
  }

  /** The same for `r = e`, where the local `r` is the one register that may change. */
  lemma LocalCorrect(x: Context, g: Gen, e: Expr, r: nat, outer: set<nat>)
    requires WfStart(g, outer) && Scoped(e, g.active) && Enters(x, g) && r < g.active
    requires Fits(x, CompileToLocal(g, e, r)) && !Before(x, g, outer).Fault?
    ensures var g' := CompileToLocal(g, e, r);
            && WfStart(g', outer) && g'.free == g.free && g'.misfreed == g.misfreed
            && Scoped(e, |x.frame|) && Computes(x, g, g', e, r, g.free, outer)
  {
    hide WfGen, Kept;
    var (g1, d1) := Compile(g, e);
    var g' := CompileToLocal(g, e, r);
    FitsEarlier(x, g1, g');
    CompileTracks(x, g, e, outer);
    CompilableFits(x, g, e, outer);
    CompileShape(g, e, outer);
    EntersFirst(x, g, g1, d1, outer);
    LocalStep(x, g, g1, d1, e, r, outer);
  }

  lemma LocalStep(x: Context, g: Gen, g1: Gen, d1: Desc, e: Expr, r: nat, outer: set<nat>)
    requires Compiled(g, g1, d1, outer) && Enters(x, g1) && Fits(x, g1) && r < g.active == g1.active
    requires Fits(x, ExpressionToRegister(FreeExpression(g1, d1), d1, r)) && Scoped(e, |x.frame|)
    requires ProperGoal(x, GoalOf(x, g, e, outer), outer) && Tracks(x, g1, d1, outer, GoalOf(x, g, e, outer))
    ensures var g' := ExpressionToRegister(FreeExpression(g1, d1), d1, r);
            && WfStart(g', outer) && g'.free == g.free && g'.misfreed == g.misfreed
            && Computes(x, g, g', e, r, g.free, outer)
  {
    var goal := GoalOf(x, g, e, outer);
    FreeShape(g1, d1, outer, g.free);
    var g2 := FreeExpression(g1, d1);
    ReserveShape(g1, g2, d1, outer);
    SameCodeTracks(x, g1, g2, d1, outer, goal);
    assert r < g2.maxStack;
    hide WfBody, Tracks, TracksRegister, ExpressionToRegister, GoalOf, WfPending;
    ExpressionToRegisterShape(g2, d1, r, outer);
    ExpressionToRegisterTracks(x, g2, d1, r, outer, goal);
    TracksComputes(x, g, ExpressionToRegister(g2, d1, r), e, r, outer);
  }

  /** The code once the jumps to its end have their destination. */
  function Finished(g: Gen): seq<Instr> {
    Patched(g.code, g.here, |g.code|, NO_REGISTER, |g.code|)
  }

  /**
    Self-contained: behind any label, `local r = e` compiles to code that, entered at its first
    instruction with any registers, runs off its end with the value of `e` in the new register
    and the registers below unchanged.
   */
  lemma ExpressionCorrect(env: Env, frame: Frame, g: Gen, e: Expr)
    requires WfStart(g, {}) && g.here == [] && g.lastTarget == |g.code| && Scoped(e, g.active)
    requires Fits(Context(env, |g.code|, frame), CompileToNext(g, e))
    ensures var code := Finished(CompileToNext(g, e));
            var o := Run(env, code, |g.code|, {}, frame);
            && Scoped(e, |frame|)
            && match Eval(env, e, frame)
               case Raise => o == Raised
               case Ok(v) => && o.End? && |o.frame| == |frame| && g.free < |frame| && o.frame[g.free] == v
                             && (forall i :: 0 <= i < g.free ==> o.frame[i] == frame[i])
  {
    hide CompileToNext, Eval;
    var x := Context(env, |g.code|, frame);
    assert Before(x, g, {}) == End(frame);
    NextRegisterCorrect(x, g, e, {});
    var g' := CompileToNext(g, e);
    DischargeRun(x, g', {});
  }

  // ---- Outside the limits ----

  /** A limit is met exactly where the code goes wrong: for every state of the generator and
      every string, `local r = s` delivers the string exactly if its constant's index fits
      LOADK; otherwise an EXTRAARG is emitted that stops the machine. */
  lemma ConstantLimit(env: Env, frame: Frame, g: Gen, s: string)
    requires WfStart(g, {}) && g.here == [] && g.lastTarget == |g.code| && !g.lossy
    requires var g' := CompileToNext(g, EString(s)); g'.constants <= env.k && g'.maxStack <= |frame|
    ensures var g' := CompileToNext(g, EString(s));
            var o := Run(env, Finished(g'), |g.code|, {}, frame);
            && g.free < |frame|
            && (o.End? && o.frame[g.free] == Str(s) <==> AddConstant(g, Str(s)).1 <= MAX_ARG_BX)
            && (g'.lossy <==> AddConstant(g, Str(s)).1 > MAX_ARG_BX)
  {
    hide Run, Finished, CompileToNext, WfStart;
    ConstantCode(g, s);
    var k := AddConstant(g, Str(s)).1;
    if k <= MAX_ARG_BX {
      ExpressionCorrect(env, frame, g, EString(s));
    } else {
      ExtraArgFaults(env, g.code, g.free, k, frame);
    }
  }

  lemma ConstantCode(g: Gen, s: string)
    requires WfStart(g, {}) && g.here == [] && g.lastTarget == |g.code| && !g.lossy
    ensures var g' := CompileToNext(g, EString(s));
            var k := AddConstant(g, Str(s)).1;
            && g.free < g'.maxStack && k < |g'.constants|
            && (g'.lossy <==> k > MAX_ARG_BX)
            && (k > MAX_ARG_BX ==> Finished(g') == g.code + [LoadConstant(g.free, 0)] + [ExtraArg(k)])
  {
    hide Emit, WfStart;
    var (g1, k) := AddConstant(g, Str(s));
    var g2 := Reserve(g1, 1);
    var r := g.free;
    var g' := CompileToNext(g, EString(s));
    assert g' == EmitConstant(g2, r, k);
    PatchedNone(g'.code, |g'.code|, NO_REGISTER, |g'.code|);
    if k <= MAX_ARG_BX {
      EmitNone(g2, LoadConstant(r, k));
    } else {
      var g3 := Emit(g2.(lossy := true), LoadConstant(r, 0));
      EmitNone(g2.(lossy := true), LoadConstant(r, 0));
      EmitNone(g3, ExtraArg(k));
    }
  }

  lemma ExtraArgFaults(env: Env, code: seq<Instr>, r: nat, k: nat, frame: Frame)
    requires r < |frame| && |env.k| > 0
    ensures Run(env, code + [LoadConstant(r, 0)] + [ExtraArg(k)], |code|, {}, frame) == Fault
  {
    hide Run;
    var code' := code + [LoadConstant(r, 0)] + [ExtraArg(k)];
    assert code'[|code|] == LoadConstant(r, 0) && code'[|code| + 1] == ExtraArg(k);
    LoadRuns(env, code', |code|, frame);
    ExtraArgStops(env, code', |code| + 1, frame[r := env.k[0]]);
  }

  lemma LoadRuns(env: Env, code: seq<Instr>, pc: nat, frame: Frame)
    requires pc < |code| && code[pc].LoadConstant? && code[pc].a < |frame| && code[pc].bx < |env.k|
    ensures Run(env, code, pc, {}, frame) == Run(env, code, pc + 1, {}, frame[code[pc].a := env.k[code[pc].bx]])
  {
    hide Next, Decide, Execute, Follow;
    LoadNext(env, code, pc, frame);
  }

  lemma LoadNext(env: Env, code: seq<Instr>, pc: nat, frame: Frame)
    requires pc < |code| && code[pc].LoadConstant? && code[pc].a < |frame| && code[pc].bx < |env.k|
    ensures Next(env, code, pc, {}, frame) == Goto(pc + 1, frame[code[pc].a := env.k[code[pc].bx]])
  {
    hide Run;
  }

  lemma ExtraArgStops(env: Env, code: seq<Instr>, pc: nat, frame: Frame)
    requires pc < |code| && code[pc].ExtraArg?
    ensures Run(env, code, pc, {}, frame) == Fault
  {
    assert Next(env, code, pc, {}, frame) == Stop(Fault);
  }

  /** The generator behind any code, with no jump to come here. */
  ghost predicate Behind(g: Gen) {
    WfStart(g, {}) && g.here == [] && !g.lossy
  }

  /** `local r = a and b` for locals, with register 255 for r: what is emitted ... */
  lemma LastRegisterCode(g: Gen, a: nat, b: nat)
    requires Behind(g) && g.free == 255 && a < g.active && b < g.active
    ensures var g' := CompileToNext(g, EAnd(ELocal(a), ELocal(b)));
            && Finished(g') == g.code + [Test(a, 0), Jump(0, 1), Move(255, b)] && g'.lossy && g'.failed == g.failed
            && g'.maxStack == Max(g.maxStack, 256)
  {
    hide Compile, ExpressionToRegister, GoIfTrue, WfStart;
    var n := |g.code|;
    ActiveBelow(g);
    var d := Desc(KNonRelocatable(b), [], [n + 1]);
    var g3 := g.(code := g.code + [TestSet(255, a, 0), Jump(0, -1)], lastTarget := n + 2);
    LastRegisterTest(g, a);
    LastRegisterAnd(g, a, b);
    LastRegisterPatch(Reserve(g3, 1), g.code, a, b);
    var g' := CompileToNext(g, EAnd(ELocal(a), ELocal(b)));
    assert FreeExpression(g3, d) == g3;
    assert g' == ExpressionToRegister(Reserve(g3, 1), d, 255);
    PatchedNone(g'.code, n + 3, NO_REGISTER, n + 3);
  }

  lemma ActiveBelow(g: Gen)
    requires Behind(g)
    ensures g.active <= g.free <= g.maxStack
  {
  }

  lemma LastRegisterTest(g: Gen, a: nat)
    requires g.here == [] && a < g.active <= 255
    ensures var n := |g.code|;
            GoIfTrue(g, Plain(KLocal(a)))
            == (g.(code := g.code + [TestSet(255, a, 0), Jump(0, -1)], lastTarget := n + 2),
                Desc(KNonRelocatable(a), [], [n + 1]))
  {
    hide JumpOnCondition, InvertJump, PatchToHere, Concatenate;
    var n := |g.code|;
    LocalTested(g, a);
    var g1 := g.(code := g.code + [TestSet(NO_REGISTER, a, 0), Jump(0, -1)]);
    ConcatenateNone(g1, [n + 1]);
    HereNone(g1);
    assert [] + [n + 1] == [n + 1];
  }

  lemma LocalTested(g: Gen, a: nat)
    requires g.here == [] && a < g.active <= 255
    ensures JumpOnCondition(g, Desc(KNonRelocatable(a), [], []), 0)
            == (g.(code := g.code + [TestSet(NO_REGISTER, a, 0), Jump(0, -1)]), |g.code| + 1)
  {
    hide Emit, EmitJump;
    var i := TestSet(NO_REGISTER, a, 0);
    EmitNone(g, i);
    JumpNone(Emit(g, i));
    assert (g.code + [i]) + [Jump(0, -1)] == g.code + [i, Jump(0, -1)];
  }

  lemma HereNone(g: Gen)
    requires g.here == []
    ensures PatchToHere(g, []) == g.(lastTarget := |g.code|)
  {
    assert [] + g.here == [];
  }

  lemma JumpNone(g: Gen)
    requires g.here == []
    ensures EmitJump(g) == (g.(code := g.code + [Jump(0, -1)]), [|g.code|])
  {
    assert [|g.code|] + [] == [|g.code|];
  }

  lemma ConcatenateNone(g: Gen, s: seq<nat>)
    ensures Concatenate(g, [], s) == g
  {
  }

  lemma LastRegisterAnd(g: Gen, a: nat, b: nat)
    requires a < g.active && b < g.active
    ensures var (g2, d1) := GoIfTrue(g, Plain(KLocal(a)));
            Compile(g, EAnd(ELocal(a), ELocal(b))) == (g2, Desc(KNonRelocatable(b), [], d1.f))
  {
    hide Compile, GoIfTrue, Concatenate;
    var (g2, d1) := GoIfTrue(g, Plain(KLocal(a)));
    assert [] + d1.f == d1.f;
    ConcatenateNone(g2, d1.f);
    CompileLocal(g, a);
    CompileLocal(g2, b);
    CompileAnd(g, ELocal(a), ELocal(b));
  }

  lemma LastRegisterPatch(g: Gen, code: seq<Instr>, a: nat, b: nat)
    requires g.code == code + [TestSet(255, a, 0), Jump(0, -1)] && g.here == [] && a < 255 && b < 255
    ensures var g' := ExpressionToRegister(g, Desc(KNonRelocatable(b), [], [|code| + 1]), 255);
            && g'.code == code + [Test(a, 0), Jump(0, 1), Move(255, b)] && g'.here == []
            && g'.lossy && g'.failed == g.failed && g'.maxStack == g.maxStack
  {
    hide Emit;
    var n := |code|;
    var i := Move(255, b);
    EmitNone(g, i);
    var d := Desc(KNonRelocatable(255), [], [n + 1]);
    var g2 := g.(code := g.code + [i]);
    assert Settle(g, Desc(KNonRelocatable(b), [], [n + 1]), 255) == (g2, d);
    LastRegisterLists(g2, code, a, b);
    assert ControlIsTestSet(g2.code, n + 1);
    assert !NeedValue(g2.code, d.f) && !NeedValue(g2.code, d.t);
  }

  lemma LastRegisterLists(g: Gen, code: seq<Instr>, a: nat, b: nat)
    requires g.code == code + [TestSet(255, a, 0), Jump(0, -1)] + [Move(255, b)] && a < 255
    ensures var g' := PatchBoth(Label(g), Desc(KNonRelocatable(255), [], [|code| + 1]), 255, -1, -1);
            && g'.code == code + [Test(a, 0), Jump(0, 1), Move(255, b)] && g'.here == g.here
            && g'.lossy && g'.failed == g.failed && g'.maxStack == g.maxStack
  {
    var n := |code|;
    assert BringsOther(g.code, n + 1, 255) && ControlIsTestSet(g.code, n + 1);
    var g1 := PatchList(Label(g), [n + 1], n + 3, 255, -1);
    assert g1.code == code + [Test(a, 0), Jump(0, 1), Move(255, b)];
    assert !PatchTooFar(g.code, [n + 1], n + 3, -1);
    PatchedNone(g1.code, n + 3, 255, -1);
    assert !PatchTooFar(g1.code, [], n + 3, -1);
  }

  /** ... and what it does: if a is false, the register keeps what it had. So the value is
      delivered exactly if a is true or the register holds it already. */
  lemma LastRegisterLimit(env: Env, frame: Frame, g: Gen, a: nat, b: nat)
    requires Behind(g) && g.free == 255 && a < g.active && b < g.active
    requires CompileToNext(g, EAnd(ELocal(a), ELocal(b))).maxStack <= |frame|
    ensures var e := EAnd(ELocal(a), ELocal(b));
            var o := Run(env, Finished(CompileToNext(g, e)), |g.code|, {}, frame);
            && g.active <= 255 < |frame|
            && o == End(if Truthy(frame[a]) then frame[255 := frame[b]] else frame)
            && (Ok(o.frame[255]) == Eval(env, e, frame) <==> Truthy(frame[a]) || frame[255] == frame[a])
  {
    hide Finished, CompileToNext, Run, Eval, WfStart;
    ActiveBelow(g);
    LastRegisterCode(g, a, b);
    TestThenMove(env, frame, g.code, a, b);
    AndOfLocals(env, frame, a, b);
  }

  lemma AndOfLocals(env: Env, frame: Frame, a: nat, b: nat)
    requires a < |frame| && b < |frame|
    ensures Scoped(ELocal(a), |frame|) && Scoped(ELocal(b), |frame|)
    ensures Eval(env, EAnd(ELocal(a), ELocal(b)), frame) == Ok(if Truthy(frame[a]) then frame[b] else frame[a])
  {
    assert Eval(env, ELocal(a), frame) == Ok(frame[a]);
  }

  lemma TestThenMove(env: Env, frame: Frame, code: seq<Instr>, a: nat, b: nat)
    requires a < 255 && b < 255 < |frame|
    ensures Run(env, code + [Test(a, 0), Jump(0, 1), Move(255, b)], |code|, {}, frame)
            == End(if Truthy(frame[a]) then frame[255 := frame[b]] else frame)
  {
    hide Next;
    var n, all := |code|, code + [Test(a, 0), Jump(0, 1), Move(255, b)];
    var moved := frame[255 := frame[b]];
    assert all[n] == Test(a, 0) && all[n + 1] == Jump(0, 1) && all[n + 2] == Move(255, b);
    TestNext(env, all, n, frame);
    MoveNext(env, all, n + 2, frame);
    assert Run(env, all, n + 3, {}, frame) == End(frame) && Run(env, all, n + 3, {}, moved) == End(moved);
  }

  lemma TestNext(env: Env, code: seq<Instr>, pc: nat, frame: Frame)
    requires pc + 1 < |code| && code[pc].Test? && code[pc].c == 0 && code[pc + 1] == Jump(0, 1) && code[pc].a < |frame|
    ensures Next(env, code, pc, {}, frame)
            == if Truthy(frame[code[pc].a]) then Goto(pc + 2, frame) else Goto(pc + 3, frame)
  {
    hide Run;
  }

  lemma MoveNext(env: Env, code: seq<Instr>, pc: nat, frame: Frame)
    requires pc < |code| && code[pc].Move? && code[pc].a < |frame| && code[pc].b < |frame|
    ensures Next(env, code, pc, {}, frame) == Goto(pc + 1, frame[code[pc].a := frame[code[pc].b]])
  {
    hide Run;
  }

  /** `local r = not a` with a register above 255 for r: the low 8 bits of r name the register
      that is written. No error is recorded, and r keeps what it had. */
  lemma WideRegisterLimit(env: Env, frame: Frame, g: Gen, a: nat)
    requires Behind(g) && 256 <= g.free && a < g.active && a < 256
    requires CompileToNext(g, ENot(ELocal(a))).maxStack <= |frame|
    ensures var e := ENot(ELocal(a));
            var g' := CompileToNext(g, e);
            var o := Run(env, Finished(g'), |g.code|, {}, frame);
            && g.free < |frame| && g'.lossy && g'.failed == (g.failed || g.free + 1 >= MAX_STACK)
            && Finished(g') == g.code + [Not(g.free % 256, a)]
            && o == End(frame[g.free % 256 := Bool(IsFalse(frame[a]))])
            && (Ok(o.frame[g.free]) == Eval(env, e, frame) <==> frame[g.free] == Bool(IsFalse(frame[a])))
  {
    hide Run, Finished, CompileToNext, Compile, WfStart;
    ActiveBelow(g);
    WideRegisterCode(g, a);
    NotRuns(env, g.code + [Not(g.free % 256, a)], |g.code|, frame);
    NotOfLocal(env, frame, a);
  }

  lemma NotOfLocal(env: Env, frame: Frame, a: nat)
    requires a < |frame|
    ensures Scoped(ELocal(a), |frame|) && Eval(env, ENot(ELocal(a)), frame) == Ok(Bool(IsFalse(frame[a])))
  {
    assert Eval(env, ELocal(a), frame) == Ok(frame[a]);
  }

  lemma NotRuns(env: Env, code: seq<Instr>, pc: nat, frame: Frame)
    requires pc + 1 == |code| && code[pc].Not? && code[pc].a < |frame| && code[pc].b < |frame|
    ensures Run(env, code, pc, {}, frame) == End(frame[code[pc].a := Bool(IsFalse(frame[code[pc].b]))])
  {
    hide Decide;
    assert Next(env, code, pc, {}, frame) == Goto(pc + 1, frame[code[pc].a := Bool(IsFalse(frame[code[pc].b]))]);
  }

  /** What `not a` leaves for a local. */
  lemma NotCode(g: Gen, a: nat)
    requires g.here == [] && a < g.active && a < 256
    ensures Compile(g, ENot(ELocal(a))) == (g.(code := g.code + [Not(0, a)]), Plain(KRelocatable(|g.code|)))
  {
    hide EncodeNot, EncodeComparison, GoIfTrue, GoIfFalse, ExpressionToOperand, Concatenate, Eval;
    CompileLocal(g, a);
    NotOfRegister(g, a);
  }

  lemma NotOfRegister(g: Gen, a: nat)
    requires g.here == [] && a < g.active && a < 256
    ensures EncodeNot(g, Plain(KLocal(a))) == (g.(code := g.code + [Not(0, a)]), Plain(KRelocatable(|g.code|)))
  {
    hide Emit;
    EmitNone(g, Not(0, a));
    var code := g.code + [Not(0, a)];
    WithoutNone(code);
    assert FreeExpression(g, Plain(KNonRelocatable(a))) == g;
  }

  lemma WithoutNone(code: seq<Instr>)
    ensures WithoutValues(code, []) == code
  {
  }

  lemma WideRegisterCode(g: Gen, a: nat)
    requires g.here == [] && 256 <= g.free && a < g.active && a < 256
    ensures var g' := CompileToNext(g, ENot(ELocal(a)));
            && Finished(g') == g.code + [Not(g.free % 256, a)] && g'.lossy && g.free < g'.maxStack
            && g'.failed == (g.failed || g.free + 1 >= MAX_STACK)
  {
    hide Compile, PatchBoth, EmitLoads, EmitJump;
    NotCode(g, a);
    var g' := CompileToNext(g, ENot(ELocal(a)));
    assert g'.code == g.code + [Not(g.free % 256, a)];
    PatchedNone(g'.code, |g'.code|, NO_REGISTER, |g'.code|);
  }

  /** `local r = nil` behind a LOADNIL for the registers up to r: field B, which counts the
      further ones, starts over at 512. */
  lemma NilLimit(g: Gen, a: nat, b: nat)
    requires g.lastTarget < |g.code| && g.code[|g.code| - 1] == LoadNil(a, b) && g.free == a + b + 1
    ensures var g' := CompileToNext(g, ENil);
            && g'.code == g.code[|g.code| - 1 := LoadNil(a, (b + 1) % 512)]
            && (g'.lossy <==> g.lossy || b >= 511) && g'.failed == (g.failed || g.free + 1 >= MAX_STACK)
  {
  }

  // ---- The limits for registers are reached ----

  /** The generator in the middle of `not a == (not a == (... ` with n operands waiting. */
  function Waiting(g: Gen, a: nat, n: nat): (g': Gen)
    ensures Grows(g, g')
  {
    if n == 0 then g
    else
      var (g1, d1) := Compile(Waiting(g, a, n - 1), ENot(ELocal(a)));
      ExpressionToOperand(g1, d1).0
  }

  lemma OperandHeld(g: Gen, a: nat)
    requires g.here == [] && a < g.active <= g.free <= g.maxStack && g.free < 256
    ensures var (g1, d1) := Compile(g, ENot(ELocal(a)));
            ExpressionToOperand(g1, d1).0
            == g.(code := g.code + [Not(g.free, a)], free := g.free + 1, maxStack := Max(g.maxStack, g.free + 1))
  {
    hide Compile, ExpressionToOperand, Register;
    NotCode(g, a);
    NotOperand(g.(code := g.code + [Not(0, a)]), |g.code|);
    NotHeld(g.(code := g.code + [Not(0, a)]), g.code, a);
  }

  lemma NotOperand(g: Gen, pc: nat)
    ensures ExpressionToOperand(g, Plain(KRelocatable(pc))) == Register(g, Plain(KRelocatable(pc)))
  {
    hide Register, AddConstant, ExpressionToAnyRegister;
  }

  lemma NotHeld(g: Gen, code: seq<Instr>, a: nat)
    requires g.code == code + [Not(0, a)] && g.free < 256
    ensures Register(g, Plain(KRelocatable(|code|))).0
            == g.(code := code + [Not(g.free, a)], free := g.free + 1, maxStack := Max(g.maxStack, g.free + 1))
  {
    hide ExpressionToRegister;
    NotSettled(Reserve(g, 1), code, a);
  }

  lemma NotSettled(g: Gen, code: seq<Instr>, a: nat)
    requires g.code == code + [Not(0, a)] && 0 < g.free <= 256
    ensures ExpressionToRegister(g, Plain(KRelocatable(|code|)), g.free - 1)
            == g.(code := code + [Not(g.free - 1, a)])
  {
    hide PatchBoth, EmitLoads, EmitJump;
    assert (code + [Not(0, a)])[|code| := Not(g.free - 1, a)] == code + [Not(g.free - 1, a)];
  }

  function Nots(a: nat, r: nat, n: nat): seq<Instr> {
    if n == 0 then [] else Nots(a, r, n - 1) + [Not(r + n - 1, a)]
  }

  /** Each operand that waits takes a register: so any number up to 256 is reached by code that
      meets no limit. */
  lemma {:induction false} RegistersReached(g: Gen, a: nat, n: nat)
    requires Behind(g) && a < g.active && g.free + n <= 256
    ensures var g' := Waiting(g, a, n);
            && Behind(g') && g'.free == g.free + n && g'.active == g.active
            && g'.code == g.code + Nots(a, g.free, n) && g'.failed == g.failed
            && g'.maxStack == Max(g.maxStack, g.free + n)
  {
    hide Compile, ExpressionToOperand, WfStart;
    ActiveBelow(g);
    if n > 0 {
      RegistersReached(g, a, n - 1);
      var g1 := Waiting(g, a, n - 1);
      ActiveBelow(g1);
      OperandHeld(g1, a);
      StillBehind(g1, Waiting(g, a, n), Not(g1.free, a));
    }
  }

  lemma StillBehind(g: Gen, g': Gen, i: Instr)
    requires Behind(g) && i.Not? && g' == g.(code := g.code + [i], free := g'.free, maxStack := g'.maxStack)
    requires g.free <= g'.free <= g'.maxStack
    ensures Behind(g')
  {
  }

  /** A function that starts with 200 locals. */
  const LOCALS: nat := 200

  function ManyLocals(): Gen {
    Gen([LoadNil(0, LOCALS - 1)], [], 0, LOCALS, LOCALS, LOCALS, [], map[], false, false, false)
  }

  /** A compiled expression that goes wrong: behind 55 waiting operands, nil is lost. */
  lemma LastRegisterWitness(env: Env, frame: Frame)
    requires |frame| >= 256 && frame[0] == Nil && frame[255] == Bool(true)
    ensures var g := Waiting(ManyLocals(), 0, 55);
            var e := EAnd(ELocal(0), ELocal(1));
            && |g.code| == 56 && !CompileToNext(g, e).failed && Eval(env, e, frame) == Ok(Nil)
            && Run(env, Finished(CompileToNext(g, e)), |g.code|, {}, frame) == End(frame)
  {
    hide Run, Finished, CompileToNext, Waiting, Eval;
    StartsBehind();
    RegistersReached(ManyLocals(), 0, 55);
    NotsLength(0, LOCALS, 55);
    var g := Waiting(ManyLocals(), 0, 55);
    LastRegisterCode(g, 0, 1);
    LastRegisterLimit(env, frame, g, 0, 1);
    AndOfLocals(env, frame, 0, 1);
  }

  /** And one more: behind 56 waiting operands, the value goes to the first local. */
  lemma WideRegisterWitness(env: Env, frame: Frame)
    requires |frame| >= 257 && frame[0] == Nil && frame[256] == Nil
    ensures var g := Waiting(ManyLocals(), 0, 56);
            var e := ENot(ELocal(0));
            && |g.code| == 57 && !CompileToNext(g, e).failed && Eval(env, e, frame) == Ok(Bool(true))
            && Run(env, Finished(CompileToNext(g, e)), |g.code|, {}, frame) == End(frame[0 := Bool(true)])
  {
    hide Run, Finished, CompileToNext, Waiting, Eval;
    StartsBehind();
    RegistersReached(ManyLocals(), 0, 56);
    NotsLength(0, LOCALS, 56);
    var g := Waiting(ManyLocals(), 0, 56);
    WideStack(g, 0);
    WideRegisterLimit(env, frame, g, 0);
    NotOfLocal(env, frame, 0);
  }

  lemma WideStack(g: Gen, a: nat)
    requires g.here == [] && a < g.active && a < 256
    ensures CompileToNext(g, ENot(ELocal(a))).maxStack == Max(g.maxStack, g.free + 1)
  {
    hide Compile;
    NotCode(g, a);
  }

  lemma StartsBehind()
    ensures Behind(ManyLocals())
  {
  }

  lemma {:induction false} NotsLength(a: nat, r: nat, n: nat)
    ensures |Nots(a, r, n)| == n
  {
    if n > 0 {
      NotsLength(a, r, n - 1);
    }
  }
}
