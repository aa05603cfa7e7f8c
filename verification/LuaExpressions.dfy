/**
  Compiling whole expressions: `and`, `or`, `not` and comparisons put together, and the
  correctness theorem for the code they compile to.
 */
module LuaExpressions {
  import opened LuaMachine
  import opened LuaGenerator
  import opened LuaShape
  import opened LuaRuns
  import opened LuaCorrectness

  // ---- The jump away from an operand of `and` or `or` ----

  lemma ListsKept(g: Gen, d: Desc, g1: Gen, pc: nat, outer: set<nat>, base: nat)
    requires WfBody(g, d, outer) && JumpedAway(g, d, g1, pc, outer, base)
    ensures Controlled(g1.code, d.t) && Controlled(g1.code, d.f)
    ensures forall j :: j in d.t || j in d.f ==> 1 <= j < |g.code| && g1.code[j - 1] == g.code[j - 1]
    ensures pc !in d.t && pc !in d.f && pc !in outer
  {
    KeptFewer(g.code, g1.code, Others(d, outer), Elems(d.t));
    KeptFewer(g.code, g1.code, Others(d, outer), Elems(d.f));
    ControlledKept(g.code, g1.code, d.t);
    ControlledKept(g.code, g1.code, d.f);
    forall j | j in d.t || j in d.f
      ensures 1 <= j < |g.code| && g1.code[j - 1] == g.code[j - 1]
    {
      assert j in Elems(d.t) || j in Elems(d.f);
    }
    assert pc in d.t ==> pc in Elems(d.t);
    assert pc in d.f ==> pc in Elems(d.f);
  }

  /** The run before a conditional jump, where the expression's value is `v`, and behind it. */
  lemma AwayFrom(g: Gen, d: Desc, g1: Gen, pc: nat, o: Outcome, o1: Outcome, sense: bool, outer: set<nat>, goal: Goal)
    requires Controlled(g.code, d.t) && Controlled(g.code, d.f)
    requires Controlled(g1.code, Stay(d, sense)) && 1 <= pc <= |g1.code|
    requires forall j :: j in d.t || j in d.f ==> 1 <= j < |g.code| && 1 <= j < |g1.code| && g1.code[j - 1] == g.code[j - 1]
    requires pc !in d.t && pc !in d.f && pc !in outer
    requires goal.Elsewhere? ==> o1 == goal.o
    requires goal.Value? ==> !o.Fault? && (o.Raised? ==> goal.v.Raise?)
    requires goal.Value? && (o.End? || o.At?) ==> Same(goal.frame, o.frame, goal.n)
    requires goal.Value? && o.At? && o.jump in d.t ==> Exit(g.code, o.jump, o.frame, goal.v, true)
    requires goal.Value? && o.At? && o.jump in d.f ==> Exit(g.code, o.jump, o.frame, goal.v, false)
    requires goal.Value? && o.At? ==> o.jump !in outer && o.jump != pc
    requires goal.Value? ==>
               if Arrives(o, g.here) then
                 if goal.v.Raise? then o1.Raised?
                 else if Truthy(goal.v.v) == sense then o1 == At(pc, o.frame) && Exit(g1.code, pc, o.frame, goal.v, sense)
                 else o1 == End(o.frame)
               else o1 == o
    ensures AwayOutcome(g1.code, o1, pc, Stay(d, sense), Gone(d, sense), sense, outer, goal)
  {
  }

  lemma NotLive(x: Context, g: Gen, d: Desc, pc: nat, outer: set<nat>)
    requires WfBody(g, d, outer) && Body(g, d) <= pc
    ensures var o := Out(x, Core(g, d).code, Live(g, d, outer)); o.At? ==> o.jump != pc
  {
  }

  lemma AwayFromComparison(x: Context, g: Gen, d: Desc, sense: bool, outer: set<nat>, base: nat, goal: Goal)
    requires WfDesc(g, d, outer, base) && d.kind.KJump? && Fits(x, g)
    requires ProperGoal(x, goal, outer) && Tracks(x, g, d, outer, goal)
    ensures var g1 := if sense then g else InvertJump(g, d.kind.pc);
            && JumpedAway(g, d, g1, d.kind.pc, outer, base) && Controlled(g1.code, Stay(d, sense))
            && AwayOutcome(g1.code, Out(x, g1.code, Others(d, outer) + {d.kind.pc}), d.kind.pc,
                           Stay(d, sense), Gone(d, sense), sense, outer, goal)
  {
    hide WfPending, Apart, Kept, Out, AwayOutcome, EndsInTest, Others, JumpedAway, Controlled, WfGen, Run;
    var pc := d.kind.pc;
    var g1 := if sense then g else InvertJump(g, pc);
    JumpedAwayShape(g, d, outer, base);
    ListsKept(g, d, g1, pc, outer, base);
    JumpOutcome(x, g, d, g1, outer);
    NotLive(x, g, d, pc, outer);
    var o := Out(x, Core(g, d).code, Live(g, d, outer));
    var o1 := Out(x, g1.code, Others(d, outer) + {pc});
    AwayFrom(g, d, g1, pc, o, o1, sense, outer, goal);
  }

  /** The test that takes the place of a NOT. */
  lemma NotRun(x: Context, g: Gen, d: Desc, cond: nat, outer: set<nat>, base: nat)
    requires WfDesc(g, d, outer, base) && d.kind.KRelocatable? && Fits(x, g)
    ensures var i := Test(g.code[d.kind.pc].b, Opposite(cond));
            var (g1, pc) := JumpOnCondition(g, d, cond);
            var o := Out(x, Core(g, d).code, Live(g, d, outer));
            && JumpedAway(g, d, g1, pc, outer, base) && 1 <= pc < |g1.code| && g1.code[pc - 1] == i
            && i.a < |x.frame| && g.here == []
            && (o.Fault? || Out(x, g1.code, Others(d, outer) + {pc}) == if o.End? then Decided(x.env, i, pc, o.frame) else o)
  {
    hide WfPending, Apart, Kept, Out, ConditionalJump, Settled, WfGen, Controlled, JumpedAway;
    var c := Core(g, d);
    var i := Test(g.code[d.kind.pc].b, Opposite(cond));
    assert c == g.(code := g.code[..|g.code| - 1]);
    JumpOnNotShape(g, d, Opposite(cond), outer, base);
    var live := Others(d, outer);
    assert live + Elems(c.here) == live == Live(g, d, outer) by { assert Elems([]) == {}; }
    ConditionalJumpRun(x, c, i, live);
    ConditionalJumpShape(c, i, live);
  }

  lemma AwayFromNot(x: Context, g: Gen, d: Desc, sense: bool, outer: set<nat>, base: nat, goal: Goal)
    requires WfDesc(g, d, outer, base) && d.kind.KRelocatable? && Fits(x, g)
    requires ProperGoal(x, goal, outer) && Tracks(x, g, d, outer, goal)
    ensures var (g1, pc) := JumpOnCondition(g, d, if sense then 1 else 0);
            && JumpedAway(g, d, g1, pc, outer, base) && Controlled(g1.code, Stay(d, sense))
            && AwayOutcome(g1.code, Out(x, g1.code, Others(d, outer) + {pc}), pc,
                           Stay(d, sense), Gone(d, sense), sense, outer, goal)
  {
    hide WfPending, Apart, Kept, Out, JumpOnCondition, AwayOutcome, EndsInTest, Others;
    var cond := if sense then 1 else 0;
    var (g1, pc) := JumpOnCondition(g, d, cond);
    NotRun(x, g, d, cond, outer, base);
    ListsKept(g, d, g1, pc, outer, base);
    NotLive(x, g, d, pc, outer);
    var o := Out(x, Core(g, d).code, Live(g, d, outer));
    var o1 := Out(x, g1.code, Others(d, outer) + {pc});
    AwayFrom(g, d, g1, pc, o, o1, sense, outer, goal);
  }

  lemma RegisterRun(x: Context, g: Gen, d: Desc, cond: nat, outer: set<nat>, base: nat)
    requires WfDesc(g, d, outer, base) && d.kind.KNonRelocatable? && !FreeExpression(g, d).lossy
    ensures var i := TestSet(NO_REGISTER, d.kind.r, cond);
            var (g1, pc) := ConditionalJump(FreeExpression(g, d), i);
            var o := Out(x, g.code, Live(g, d, outer));
            && pc == |g.code| + 1 && pc < |g1.code| && g1.code[pc - 1] == i
            && (o.Fault? || Out(x, g1.code, Others(d, outer) + {pc})
                            == if Arrives(o, g.here) then Decided(x.env, i, pc, o.frame) else o)
  {
    var g' := FreeExpression(g, d);
    var i := TestSet(NO_REGISTER, d.kind.r, cond);
    var live := Others(d, outer);
    FreeShape(g, d, outer, base);
    assert Core(g', d) == g';
    assert Live(g', d, outer) == live + Elems(g'.here) == Live(g, d, outer);
    ConditionalJumpRun(x, g', i, live);
    ConditionalJumpShape(g', i, live);
  }

  lemma AwayFromRegister(x: Context, g: Gen, d: Desc, sense: bool, outer: set<nat>, base: nat, goal: Goal)
    requires WfDesc(g, d, outer, base) && d.kind.KNonRelocatable? && Fits(x, g) && !FreeExpression(g, d).lossy
    requires ProperGoal(x, goal, outer) && Tracks(x, g, d, outer, goal)
    ensures var (g1, pc) := ConditionalJump(FreeExpression(g, d), TestSet(NO_REGISTER, d.kind.r, if sense then 1 else 0));
            && JumpedAway(g, d, g1, pc, outer, base) && Controlled(g1.code, Stay(d, sense))
            && AwayOutcome(g1.code, Out(x, g1.code, Others(d, outer) + {pc}), pc,
                           Stay(d, sense), Gone(d, sense), sense, outer, goal)
  {
    hide ConditionalJump, WfGen, WfPending, Kept, Out, Settled, Emit;
    var cond := if sense then 1 else 0;
    var (g1, pc) := ConditionalJump(FreeExpression(g, d), TestSet(NO_REGISTER, d.kind.r, cond));
    JumpOnRegisterShape(g, d, cond, outer, base);
    ListsKept(g, d, g1, pc, outer, base);
    NotLive(x, g, d, pc, outer);
    RegisterRun(x, g, d, cond, outer, base);
    assert Core(g, d) == g;
    var o := Out(x, g.code, Live(g, d, outer));
    var o1 := Out(x, g1.code, Others(d, outer) + {pc});
    hide Apart, Others, EndsInTest;
    AwayFrom(g, d, g1, pc, o, o1, sense, outer, goal);
  }

  /** The two lists of `d1` are those of `d`, and so is what is apart from them. */
  lemma SplitRegister(x: Context, g: Gen, d: Desc, sense: bool, outer: set<nat>, base: nat, goal: Goal)
    requires WfDesc(g, d, outer, base) && !d.kind.KLocal? && !d.kind.KJump? && Enters(x, g)
    requires Fits(x, g) && Fits(x, JumpOnCondition(g, d, if sense then 1 else 0).0)
    requires ProperGoal(x, goal, outer) && Tracks(x, g, d, outer, goal)
    requires goal.Value? ==> goal.n <= base
    ensures var (g1, pc) := JumpOnCondition(g, d, if sense then 1 else 0);
            var g' := PatchToHere(Concatenate(g1, Stay(d, sense), [pc]), Gone(d, sense));
            && WfSplit(g', Stay(d, sense) + [pc], outer, base)
            && TracksSplit(x, g', Stay(d, sense) + [pc], sense, outer, goal)
  {
    var (g1, pc) := JumpOnCondition(g, d, if sense then 1 else 0);
    if d.kind.KRelocatable? {
      AwayFromNot(x, g, d, sense, outer, base, goal);
      SplitAway(x, g, d, g1, pc, sense, outer, base, goal);
    } else {
      var (g0, d0) := DischargeToAnyRegister(g, d);
      FitsEarlier(x, g0, g1);
      AnyRegisterTracks(x, g, d, outer, base, goal);
      AnyRegisterShape(g, d, outer, base);
      AwayFromRegister(x, g0, d0, sense, outer, base, goal);
      SplitAway(x, g0, d0, g1, pc, sense, outer, base, goal);
    }
  }

  // ---- goIfTrue and goIfFalse ----

  /** A constant that an expression stands for is a string: true in a condition. */
  ghost predicate ConstantIsTrue(g: Gen, d: Desc) {
    d.kind.KConstant? ==> d.kind.k < |g.constants| && Truthy(g.constants[d.kind.k])
  }

  lemma GoIfTrueTracks(x: Context, g: Gen, d: Desc, outer: set<nat>, base: nat, goal: Goal)
    requires WfDesc(g, d, outer, base) && Enters(x, g) && Fits(x, g) && Fits(x, GoIfTrue(g, d).0)
    requires ProperGoal(x, goal, outer) && Tracks(x, g, d, outer, goal) && ConstantIsTrue(g, d)
    requires goal.Value? ==> goal.n <= base
    ensures var (g', d') := GoIfTrue(g, d);
            WfSplit(g', d'.f, outer, base) && TracksSplit(x, g', d'.f, false, outer, goal)
  {
    hide WfPending, EndsInTest, Apart, Controlled, Settled, Tracks, TracksSplit, WfSplit, Concatenate, PatchToHere, WfBody, WfGen, JumpOnCondition, Kept;
    DischargeVariablesShape(g, d, outer, base);
    DischargeVariablesTracks(x, g, d, outer, goal);
    var d1 := DischargeVariables(d);
    if d1.kind.KJump? {
      AwayFromComparison(x, g, d1, false, outer, base, goal);
      SplitAway(x, g, d1, InvertJump(g, d1.kind.pc), d1.kind.pc, false, outer, base, goal);
    } else if d1.kind.KConstant? || d1.kind.KNumber? || d1.kind.KTrue? {
      SplitKnown(x, g, d1, false, outer, base, goal);
    } else {
      SplitRegister(x, g, d1, false, outer, base, goal);
    }
  }

  lemma GoIfFalseTracks(x: Context, g: Gen, d: Desc, outer: set<nat>, base: nat, goal: Goal)
    requires WfDesc(g, d, outer, base) && Enters(x, g) && Fits(x, g) && Fits(x, GoIfFalse(g, d).0)
    requires ProperGoal(x, goal, outer) && Tracks(x, g, d, outer, goal)
    requires goal.Value? ==> goal.n <= base
    ensures var (g', d') := GoIfFalse(g, d);
            WfSplit(g', d'.t, outer, base) && TracksSplit(x, g', d'.t, true, outer, goal)
  {
    DischargeVariablesShape(g, d, outer, base);
    DischargeVariablesTracks(x, g, d, outer, goal);
    var d1 := DischargeVariables(d);
    hide WfPending, EndsInTest, Apart, Controlled, Settled, Tracks, TracksSplit, WfSplit, Concatenate, PatchToHere;
    if d1.kind.KJump? {
      AwayFromComparison(x, g, d1, true, outer, base, goal);
      SplitAway(x, g, d1, g, d1.kind.pc, true, outer, base, goal);
    } else if d1.kind.KNil? || d1.kind.KFalse? {
      SplitKnown(x, g, d1, true, outer, base, goal);
    } else {
      SplitRegister(x, g, d1, true, outer, base, goal);
    }
  }

  // ---- not ----

  /** Without the values, the exits carry the booleans; swapped, they carry the negation. */
  lemma NegatedRun(x: Context, code: seq<Instr>, t: seq<nat>, f: seq<nat>, live: set<nat>)
    requires Elems(t) <= live && Elems(f) <= live
    ensures var code' := WithoutValues(WithoutValues(code, t), f);
            Out(x, code', live) == Out(x, code, live) || Out(x, code, live).Fault?
  {
    var code' := WithoutValues(WithoutValues(code, t), f);
    forall j | j in t || j in f
      ensures j in live
    {
      assert j in Elems(t) || j in Elems(f);
    }
    DemotedRun(x.env, code, code', x.pc, live, x.frame);
  }

  /** Turning the TESTSET of a pending jump into a TEST changes no run. */
  lemma {:induction false} DemotedRun(env: Env, code: seq<Instr>, code': seq<Instr>, pc: nat, p: set<nat>, frame: Frame)
    requires |code'| == |code|
    requires forall i :: 0 <= i < |code| ==>
               code'[i] == code[i] || (code[i].TestSet? && i + 1 in p && code'[i] == Test(code[i].b, code[i].c))
    ensures Run(env, code, pc, p, frame).Fault? || Run(env, code', pc, p, frame) == Run(env, code, pc, p, frame)
    decreases |code| - pc
  {
    if pc < |code| {
      var n := Next(env, code, pc, p, frame);
      if n != Stop(Fault) {
        assert pc + 1 < |code| ==> (code'[pc + 1].Jump? <==> code[pc + 1].Jump?);
        assert n == Next(env, code', pc, p, frame);
        if n.Goto? {
          DemotedRun(env, code, code', n.pc, p, n.frame);
        }
      }
    }
  }

  ghost function Negated(goal: Goal): Goal {
    if goal.Value? then goal.(v := Negate(goal.v)) else goal
  }

  /** Swapping the lists of an expression whose own value `kind` now is the negated one. */
  lemma SwapTracks(x: Context, g: Gen, d: Desc, outer: set<nat>, goal: Goal)
    requires WfBody(g, d, outer) && Fits(x, g) && ProperGoal(x, goal, outer)
    requires goal.Elsewhere? ==> Tracks(x, g, d, outer, goal)
    requires goal.Value? ==> HalfNegated(x, g, d, outer, goal)
    ensures var g' := g.(code := WithoutValues(WithoutValues(g.code, d.t), d.f));
            var d' := Desc(d.kind, d.f, d.t);
            WfBody(g', d', outer) && Tracks(x, g', d', outer, Negated(goal))
  {
    hide WithoutValues, Elems, WfPending, EndsInTest, Apart, Core, Controlled, Exit;
    WithoutValuesShape(g, d, outer);
    var g' := g.(code := WithoutValues(WithoutValues(g.code, d.t), d.f));
    SwapRun(x, g, d, outer);
    KindUnchanged(g, g', d, Desc(d.kind, d.f, d.t), outer);
    SwapExits(g.code, g'.code, d);
  }

  lemma SwapExits(code: seq<Instr>, code': seq<Instr>, d: Desc)
    requires Controlled(code, d.t) && Controlled(code, d.f)
    requires code' == WithoutValues(WithoutValues(code, d.t), d.f)
    ensures forall j, frame, v :: j in d.t && Exit(code, j, frame, v, true) ==> j <= |code'| && Exit(code', j, frame, Negate(v), false)
    ensures forall j, frame, v :: j in d.f && Exit(code, j, frame, v, false) ==> j <= |code'| && Exit(code', j, frame, Negate(v), true)
  {
    forall j | j in d.t || j in d.f
      ensures 1 <= j <= |code'| && !code'[j - 1].TestSet?
    {
      DemotedExit(code, d, j);
    }
  }

  lemma SwapRun(x: Context, g: Gen, d: Desc, outer: set<nat>)
    requires WfBody(g, d, outer)
    ensures var g' := g.(code := WithoutValues(WithoutValues(g.code, d.t), d.f));
            var d' := Desc(d.kind, d.f, d.t);
            var o := Out(x, Core(g, d).code, Live(g, d, outer));
            o.Fault? || Out(x, Core(g', d').code, Live(g', d', outer)) == o
  {
    var g' := g.(code := WithoutValues(WithoutValues(g.code, d.t), d.f));
    var d' := Desc(d.kind, d.f, d.t);
    var c := Core(g, d).code;
    var live := Live(g, d, outer);
    assert Live(g', d', outer) == live;
    assert Core(g', d').code == WithoutValues(WithoutValues(c, d.t), d.f);
    NegatedRun(x, c, d.t, d.f, live);
  }

  lemma KindUnchanged(g: Gen, g': Gen, d: Desc, d': Desc, outer: set<nat>)
    requires WfBody(g, d, outer) && g'.code == WithoutValues(WithoutValues(g.code, d.t), d.f)
    ensures d.kind.KRelocatable? ==> d.kind.pc < |g.code| && g'.code[d.kind.pc] == g.code[d.kind.pc]
    ensures d.kind.KJump? ==> 1 <= d.kind.pc < |g.code| && g'.code[d.kind.pc - 1] == g.code[d.kind.pc - 1]
  {
  }

  lemma DemotedExit(code: seq<Instr>, d: Desc, j: nat)
    requires Controlled(code, d.t) && Controlled(code, d.f) && (j in d.t || j in d.f)
    ensures 1 <= j <= |code| && !WithoutValues(WithoutValues(code, d.t), d.f)[j - 1].TestSet?
  {
    assert (j - 1) + 1 == j;
  }

  /** The expression's own value is negated already, its exits are not yet. */
  ghost predicate HalfNegated(x: Context, g: Gen, d: Desc, outer: set<nat>, goal: Goal)
    requires WfBody(g, d, outer) && Fits(x, g) && goal.Value?
  {
    var o := Out(x, Core(g, d).code, Live(g, d, outer));
    && !o.Fault?
    && (o.Raised? ==> goal.v.Raise?)
    && (o.End? || o.At? ==> Same(goal.frame, o.frame, goal.n))
    && (Arrives(o, g.here) ==> KindValue(x, g, d, o.frame) == Negate(goal.v))
    && (o.At? && o.jump in d.t ==> Exit(g.code, o.jump, o.frame, goal.v, true))
    && (o.At? && o.jump in d.f ==> Exit(g.code, o.jump, o.frame, goal.v, false))
    && (o.At? ==> o.jump !in outer)
  }

  lemma NotComparison(x: Context, g: Gen, d: Desc, outer: set<nat>, goal: Goal)
    requires WfBody(g, d, outer) && Fits(x, g) && ProperGoal(x, goal, outer) && d.kind.KJump?
    requires Tracks(x, g, d, outer, goal)
    ensures var g' := InvertJump(g, d.kind.pc);
            && WfBody(g', d, outer) && Fits(x, g')
            && (goal.Elsewhere? ==> Tracks(x, g', d, outer, goal))
            && (goal.Value? ==> HalfNegated(x, g', d, outer, goal))
  {
    hide Settled, Kept, EndsInTest;
    InvertShape(g, d, outer);
    var g' := InvertJump(g, d.kind.pc);
    assert Live(g', d, outer) == Live(g, d, outer);
    var o := Out(x, Core(g, d).code, Live(g, d, outer));
    if goal.Value? && o.At? && (o.jump in d.t || o.jump in d.f) {
      assert o.jump - 1 != d.kind.pc - 1;
      assert g'.code[o.jump - 1] == g.code[o.jump - 1];
    }
  }

  lemma NotKnown(x: Context, g: Gen, d: Desc, kind: Kind, outer: set<nat>, goal: Goal)
    requires WfBody(g, d, outer) && Fits(x, g) && ProperGoal(x, goal, outer) && Body(g, d) == |g.code|
    requires kind == KTrue || kind == KFalse
    requires forall frame :: |frame| == |x.frame| ==> Negate(KindValue(x, g, d, frame)) == Ok(Bool(kind == KTrue))
    requires Tracks(x, g, d, outer, goal)
    ensures var d' := Desc(kind, d.t, d.f);
            && WfBody(g, d', outer)
            && (goal.Elsewhere? ==> Tracks(x, g, d', outer, goal))
            && (goal.Value? ==> HalfNegated(x, g, d', outer, goal))
  {
    var d' := Desc(kind, d.t, d.f);
    assert Core(g, d') == Core(g, d) == g;
    assert Live(g, d', outer) == Live(g, d, outer);
  }

  lemma NotRegister(x: Context, g: Gen, d: Desc, outer: set<nat>, base: nat, goal: Goal)
    requires WfDesc(g, d, outer, base) && Fits(x, g) && ProperGoal(x, goal, outer)
    requires d.kind.KNonRelocatable? && !FreeExpression(g, d).lossy
    requires Tracks(x, g, d, outer, goal)
    ensures var g' := Emit(FreeExpression(g, d), Not(0, d.kind.r));
            var d' := Desc(KRelocatable(|g'.code| - 1), d.t, d.f);
            && WfDesc(g', d', outer, base) && Fits(x, g')
            && (goal.Elsewhere? ==> Tracks(x, g', d', outer, goal))
            && (goal.Value? ==> HalfNegated(x, g', d', outer, goal))
  {
    hide Emit, FreeExpression, Kept, WfGen, Apart, Tracks, HalfNegated, Out, WfRegister;
    var g' := Emit(FreeExpression(g, d), Not(0, d.kind.r));
    EmitNotShape(g, d, outer, base);
    NotRegisterRun(x, g, d, outer, base);
    NotRegisterExits(g, g', d, outer);
    NotRegisterGoal(x, g, g', d, outer, goal);
  }

  lemma NotRegisterGoal(x: Context, g: Gen, g': Gen, d: Desc, outer: set<nat>, goal: Goal)
    requires WfBody(g, d, outer) && Fits(x, g) && ProperGoal(x, goal, outer) && d.kind.KNonRelocatable?
    requires WfBody(g', Desc(KRelocatable(|g.code|), d.t, d.f), outer) && Fits(x, g') && g'.here == []
    requires Tracks(x, g, d, outer, goal) && g'.code[|g.code|] == Not(0, d.kind.r)
    requires forall j, frame, v :: j in d.t && Exit(g.code, j, frame, v, true) ==> j <= |g'.code| && Exit(g'.code, j, frame, v, true)
    requires forall j, frame, v :: j in d.f && Exit(g.code, j, frame, v, false) ==> j <= |g'.code| && Exit(g'.code, j, frame, v, false)
    requires var d' := Desc(KRelocatable(|g.code|), d.t, d.f);
             var o := Out(x, g.code, Live(g, d, outer));
             o.Fault? || Out(x, Core(g', d').code, Live(g', d', outer)) == if Arrives(o, g.here) then End(o.frame) else o
    ensures var d' := Desc(KRelocatable(|g.code|), d.t, d.f);
            && (goal.Elsewhere? ==> Tracks(x, g', d', outer, goal))
            && (goal.Value? ==> HalfNegated(x, g', d', outer, goal))
  {
    assert Core(g, d) == g;
    hide WfPending, EndsInTest, Apart, Out, Exit;
  }

  lemma NotRegisterExits(g: Gen, g': Gen, d: Desc, outer: set<nat>)
    requires Controlled(g.code, d.t) && Controlled(g.code, d.f) && Kept(g.code, g'.code, Others(d, outer))
    ensures forall j, frame, v :: j in d.t && Exit(g.code, j, frame, v, true) ==> j <= |g'.code| && Exit(g'.code, j, frame, v, true)
    ensures forall j, frame, v :: j in d.f && Exit(g.code, j, frame, v, false) ==> j <= |g'.code| && Exit(g'.code, j, frame, v, false)
  {
    forall j, frame, v | j in d.t && Exit(g.code, j, frame, v, true)
      ensures j <= |g'.code| && Exit(g'.code, j, frame, v, true)
    {
      ExitKept(g.code, g'.code, d.t, Others(d, outer), j, frame, v, true);
    }
    forall j, frame, v | j in d.f && Exit(g.code, j, frame, v, false)
      ensures j <= |g'.code| && Exit(g'.code, j, frame, v, false)
    {
      ExitKept(g.code, g'.code, d.f, Others(d, outer), j, frame, v, false);
    }
  }

  lemma NotRegisterRun(x: Context, g: Gen, d: Desc, outer: set<nat>, base: nat)
    requires WfDesc(g, d, outer, base) && d.kind.KNonRelocatable? && !FreeExpression(g, d).lossy
    ensures var g' := Emit(FreeExpression(g, d), Not(0, d.kind.r));
            var d' := Desc(KRelocatable(|g'.code| - 1), d.t, d.f);
            var o := Out(x, g.code, Live(g, d, outer));
            && |g'.code| == |g.code| + 1 && g'.code[|g.code|] == Not(0, d.kind.r) && g'.here == []
            && g'.constants == g.constants && g'.maxStack == g.maxStack && g'.lossy == g.lossy
            && (o.Fault? || Out(x, Core(g', d').code, Live(g', d', outer))
                            == if Arrives(o, g.here) then End(o.frame) else o)
  {
    hide Settled, Kept, EndsInTest;
    FreeShape(g, d, outer, base);
    var g1 := FreeExpression(g, d);
    var live := Others(d, outer);
    assert Core(g1, d) == g1;
    assert Live(g1, d, outer) == live + Elems(g1.here) == Live(g, d, outer);
    DischargeRun(x, g1, live);
    EmitShape(g1, Not(0, d.kind.r), live);
    var g' := Emit(g1, Not(0, d.kind.r));
    var d' := Desc(KRelocatable(|g'.code| - 1), d.t, d.f);
    assert Core(g', d').code == Patched(g1.code, g1.here, |g1.code|, NO_REGISTER, |g1.code|);
    assert Live(g', d', outer) == live by { assert Elems([]) == {}; }
  }

  lemma NotRegisterTracks(x: Context, g: Gen, d: Desc, outer: set<nat>, base: nat, goal: Goal)
    requires WfDesc(g, d, outer, base) && Enters(x, g) && Fits(x, g) && Fits(x, EncodeNot(g, d).0)
    requires d.kind.KRelocatable? || d.kind.KNonRelocatable?
    requires ProperGoal(x, goal, outer) && Tracks(x, g, d, outer, goal)
    requires goal.Value? ==> goal.n <= base
    ensures var (g', d') := EncodeNot(g, d);
            WfBody(g', d', outer) && Tracks(x, g', d', outer, Negated(goal))
  {
    hide WfBody, Tracks, WithoutValues, Emit, DischargeToRegister, HalfNegated;
    var (g1, d1) := DischargeToAnyRegister(g, d);
    FitsEarlier(x, g1, EncodeNot(g, d).0);
    AnyRegisterTracks(x, g, d, outer, base, goal);
    AnyRegisterShape(g, d, outer, base);
    NotRegister(x, g1, d1, outer, base, goal);
    var g2 := Emit(FreeExpression(g1, d1), Not(0, d1.kind.r));
    SwapTracks(x, g2, Desc(KRelocatable(|g2.code| - 1), d.t, d.f), outer, goal);
  }

  lemma NotComparisonTracks(x: Context, g: Gen, d: Desc, outer: set<nat>, goal: Goal)
    requires WfBody(g, d, outer) && Fits(x, g) && ProperGoal(x, goal, outer) && d.kind.KJump?
    requires Tracks(x, g, d, outer, goal)
    ensures var (g', d') := EncodeNot(g, d);
            WfBody(g', d', outer) && Tracks(x, g', d', outer, Negated(goal))
  {
    hide WfBody, Tracks, WithoutValues, HalfNegated, InvertJump, DischargeToAnyRegister, Fits;
    NotComparison(x, g, d, outer, goal);
    SwapTracks(x, InvertJump(g, d.kind.pc), d, outer, goal);
  }

  lemma NotKnownTracks(x: Context, g: Gen, d: Desc, outer: set<nat>, goal: Goal)
    requires WfBody(g, d, outer) && Fits(x, g) && ProperGoal(x, goal, outer)
    requires d.kind.KNil? || d.kind.KFalse? || d.kind.KTrue? || d.kind.KConstant? || d.kind.KNumber?
    requires Tracks(x, g, d, outer, goal) && ConstantIsTrue(g, d)
    ensures var (g', d') := EncodeNot(g, d);
            WfBody(g', d', outer) && Tracks(x, g', d', outer, Negated(goal))
  {
    hide WfGen, Out, InvertJump, DischargeToAnyRegister, Emit;
    var kind := if d.kind.KNil? || d.kind.KFalse? then KTrue else KFalse;
    NotKnown(x, g, d, kind, outer, goal);
    hide WfBody, Tracks, WithoutValues, HalfNegated, Fits;
    SwapTracks(x, g, Desc(kind, d.t, d.f), outer, goal);
  }

  lemma EncodeNotTracks(x: Context, g: Gen, d: Desc, outer: set<nat>, base: nat, goal: Goal)
    requires WfDesc(g, d, outer, base) && Enters(x, g) && Fits(x, g) && Fits(x, EncodeNot(g, d).0)
    requires ProperGoal(x, goal, outer) && Tracks(x, g, d, outer, goal) && ConstantIsTrue(g, d)
    requires goal.Value? ==> goal.n <= base
    ensures var (g', d') := EncodeNot(g, d);
            WfBody(g', d', outer) && Tracks(x, g', d', outer, Negated(goal))
  {
    hide WfBody, Tracks, WithoutValues, InvertJump, DischargeToAnyRegister, Fits, Emit;
    DischargeVariablesShape(g, d, outer, base);
    DischargeVariablesTracks(x, g, d, outer, goal);
    var d1 := DischargeVariables(d);
    if d1.kind.KJump? {
      NotComparisonTracks(x, g, d1, outer, goal);
    } else if d1.kind.KRelocatable? || d1.kind.KNonRelocatable? {
      NotRegisterTracks(x, g, d1, outer, base, goal);
    } else {
      NotKnownTracks(x, g, d1, outer, goal);
    }
  }

  // ---- Comparisons ----

  /** The first operand still denotes its value behind the second one's code. */
  lemma ComparisonTracks(x: Context, g: Gen, i: Instr, inOrder: bool, o1: nat, x1: Value, o2: nat,
                         outer: set<nat>, goal: Goal, goal2: Goal)
    requires WfStart(g, outer) && Fits(x, g) && i.Compare? && OperandFits(g, i.b) && OperandFits(g, i.c)
    requires ProperGoal(x, goal, outer) && ProperGoal(x, goal2, outer)
    requires if inOrder then i.b == o1 && i.c == o2 else i.b == o2 && i.c == o1
    requires TracksOperand(x, g, o2, outer, goal2)
    requires goal2.Elsewhere? ==> goal == goal2 || (goal2.o.Raised? && goal.Value? && goal.v.Raise?)
    requires goal2.Value? ==>
               && goal.Value? && goal.n <= goal2.n && Same(goal.frame, goal2.frame, goal.n)
               && (forall frame :: |frame| == |x.frame| && Same(goal2.frame, frame, goal2.n) ==>
                     Operand(x.env, frame, o1) == Ok(x1))
               && (goal2.v.Raise? ==> goal.v.Raise?)
               && (goal2.v.Ok? ==> goal.v == TestResult(x.env, i, x1, goal2.v.v, inOrder))
    ensures var (g', pc) := ConditionalJump(g, i);
            var d' := Desc(KJump(pc), [], []);
            WfDesc(g', d', outer, g.free) && Fits(x, g') && Tracks(x, g', d', outer, goal)
  {
    hide EndsInTest, Out, ConditionalJump, Kept;
    CompareShape(g, i, outer);
    ComparisonRun(x, g, i, outer);
    var (g', pc) := ConditionalJump(g, i);
    var d' := Desc(KJump(pc), [], []);
    var o := Out(x, g.code, outer + Elems(g.here));
    assert o.At? && goal2.Value? ==> o.jump in g.here;
    if goal2.Value? && Arrives(o, g.here) {
      assert Same(goal2.frame, o.frame, goal2.n);
      assert Operand(x.env, o.frame, o1) == Ok(x1);
      assert KindValue(x, g', d', o.frame) == goal.v;
    }
  }

  lemma ComparisonRun(x: Context, g: Gen, i: Instr, outer: set<nat>)
    requires WfStart(g, outer) && i.Compare?
    ensures var (g', pc) := ConditionalJump(g, i);
            var d' := Desc(KJump(pc), [], []);
            var o := Out(x, g.code, outer + Elems(g.here));
            && 1 <= pc < |g'.code| && g'.code[pc - 1] == i && g'.here == []
            && g'.maxStack == g.maxStack && g'.constants == g.constants && g'.lossy == g.lossy
            && (o.Fault? || Out(x, Core(g', d').code, Live(g', d', outer))
                            == if Arrives(o, g.here) then End(o.frame) else o)
  {
    ConditionalJumpShape(g, i, outer);
    var (g', pc) := ConditionalJump(g, i);
    var d' := Desc(KJump(pc), [], []);
    DischargeRun(x, g, outer);
    assert Core(g', d').code == Patched(g.code, g.here, |g.code|, NO_REGISTER, |g.code|);
    assert Live(g', d', outer) == outer by { assert Elems([]) == {}; }
  }

  /** What a comparison instruction says of its two operands. */
  ghost function TestResult(env: Env, i: Instr, x1: Value, x2: Value, inOrder: bool): Result
    requires i.Compare?
  {
    var r := if inOrder then Compared(env, i.rel, x1, x2) else Compared(env, i.rel, x2, x1);
    if r.Raise? then Raise else Ok(Bool(r.v.b == (i.a != 0)))
  }

  // ---- Whole expressions ----

  lemma {:induction false} ScopedMore(e: Expr, m: nat, n: nat)
    requires Scoped(e, m) && m <= n
    ensures Scoped(e, n)
  {
    match e
    case EParen(e1) => ScopedMore(e1, m, n);
    case ENot(e1) => ScopedMore(e1, m, n);
    case EAnd(e1, e2) => ScopedMore(e1, m, n); ScopedMore(e2, m, n);
    case EOr(e1, e2) => ScopedMore(e1, m, n); ScopedMore(e2, m, n);
    case ECompare(_, e1, e2) => ScopedMore(e1, m, n); ScopedMore(e2, m, n);
    case _ =>
  }

  /** An expression only depends on the locals. */
  lemma {:induction false} EvalSame(env: Env, e: Expr, before: Frame, after: Frame, n: nat)
    requires Scoped(e, n) && Same(before, after, n)
    ensures Scoped(e, |before|) && Scoped(e, |after|)
    ensures Eval(env, e, after) == Eval(env, e, before)
  {
    ScopedMore(e, n, |before|);
    match e
    case EParen(e1) => EvalSame(env, e1, before, after, n);
    case ENot(e1) => EvalSame(env, e1, before, after, n);
    case EAnd(e1, e2) => EvalSame(env, e1, before, after, n); EvalSame(env, e2, before, after, n);
    case EOr(e1, e2) => EvalSame(env, e1, before, after, n); EvalSame(env, e2, before, after, n);
    case ECompare(_, e1, e2) => EvalSame(env, e1, before, after, n); EvalSame(env, e2, before, after, n);
    case _ =>
  }

  /** The run up to where the next expression's code will be. */
  ghost function Before(x: Context, g: Gen, outer: set<nat>): Outcome {
    Out(x, g.code, outer + Elems(g.here))
  }

  /** What the code of an expression is to bring about. */
  ghost function GoalOf(x: Context, g: Gen, e: Expr, outer: set<nat>): Goal
    requires Scoped(e, |x.frame|)
  {
    var o := Before(x, g, outer);
    if Arrives(o, g.here) then Value(Eval(x.env, e, o.frame), o.frame, g.free) else Elsewhere(o)
  }

  /** What is needed to talk of compiling `e`. */
  ghost predicate Compilable(x: Context, g: Gen, e: Expr, outer: set<nat>) {
    && WfStart(g, outer) && Scoped(e, g.active) && Enters(x, g)
    && Fits(x, Compile(g, e).0)
    && !Before(x, g, outer).Fault?
  }

  lemma CompilableFits(x: Context, g: Gen, e: Expr, outer: set<nat>)
    requires Compilable(x, g, e, outer)
    ensures Fits(x, g) && Scoped(e, |x.frame|) && !Compile(g, e).0.lossy
    ensures ProperGoal(x, GoalOf(x, g, e, outer), outer)
  {
    FitsEarlier(x, g, Compile(g, e).0);
    ScopedMore(e, g.active, |x.frame|);
    var o := Before(x, g, outer);
    assert o.At? && o.jump !in g.here ==> o.jump in outer;
  }

  lemma CompilableStart(x: Context, g: Gen, e: Expr, outer: set<nat>)
    requires Compilable(x, g, e, outer)
    ensures WfStart(g, outer) && Enters(x, g) && Scoped(e, g.active) && g.active <= g.free <= |x.frame|
    ensures Fits(x, Compile(g, e).0)
  {
    CompilableFits(x, g, e, outer);
  }

  /** The first operand's exits become exits of the whole, the second's stay what they are. */
  lemma JoinOutcome(code2: seq<Instr>, code3: seq<Instr>, code': seq<Instr>, s: seq<nat>, d: Desc, d': Desc, sense: bool,
                    here: seq<nat>, here3: seq<nat>, o2: Outcome, o3: Outcome, outer: set<nat>, goal1: Goal, goal2: Goal, goal: Goal)
    requires Controlled(code2, s) && Controlled(code3, d.t) && Controlled(code3, d.f)
    requires Controlled(code', d'.t) && Controlled(code', d'.f)
    requires if sense then d' == d.(t := d.t + s) else d' == d.(f := d.f + s)
    requires forall j :: j in s || j in d.t || j in d.f ==> 1 <= j < |code3| && j < |code'| && code'[j - 1] == code3[j - 1]
    requires forall j :: j in s ==> j < |code2| && code3[j - 1] == code2[j - 1] && j !in here
    requires forall j :: j in s ==> j !in d.t && j !in d.f && j !in here3 && j !in outer
    requires goal1.Value? && goal.Value? && goal.frame == goal1.frame && goal.n == goal1.n
    requires !o2.Fault? && (o2.Raised? ==> goal1.v.Raise?)
    requires o2.End? || o2.At? ==> Same(goal1.frame, o2.frame, goal1.n)
    requires Arrives(o2, here) ==> goal1.v.Ok? && Truthy(goal1.v.v) != sense
    requires o2.At? && o2.jump in s ==> Exit(code2, o2.jump, o2.frame, goal1.v, sense)
    requires o2.At? ==> o2.jump in s || o2.jump in here
    requires if Arrives(o2, here) then goal2.Value? && goal2.frame == o2.frame && goal2.n == goal1.n else goal2 == Elsewhere(o2)
    requires goal.v == if goal1.v.Raise? || Truthy(goal1.v.v) == sense || !goal2.Value? then goal1.v else goal2.v
    requires goal2.Elsewhere? ==> o3 == goal2.o
    requires goal2.Value? ==>
               && !o3.Fault? && (o3.Raised? ==> goal2.v.Raise?)
               && (o3.End? || o3.At? ==> Same(goal2.frame, o3.frame, goal2.n))
               && (o3.At? && o3.jump in d.t ==> Exit(code3, o3.jump, o3.frame, goal2.v, true))
               && (o3.At? && o3.jump in d.f ==> Exit(code3, o3.jump, o3.frame, goal2.v, false))
               && (o3.At? ==> o3.jump !in outer && o3.jump !in s)
    ensures !o3.Fault? && (o3.Raised? ==> goal.v.Raise?)
    ensures o3.End? || o3.At? ==> Same(goal.frame, o3.frame, goal.n)
    ensures Arrives(o3, here3) ==> goal2.Value? && goal.v == goal2.v
    ensures o3.At? && o3.jump in d'.t ==> Exit(code', o3.jump, o3.frame, goal.v, true)
    ensures o3.At? && o3.jump in d'.f ==> Exit(code', o3.jump, o3.frame, goal.v, false)
    ensures o3.At? ==> o3.jump !in outer
  {
  }

  lemma SplitBefore(x: Context, g: Gen, s: seq<nat>, outer: set<nat>)
    ensures Before(x, g, outer + Elems(s)) == Out(x, g.code, outer + Elems(s) + Elems(g.here))
  {
  }

  ghost function Joined(d: Desc, s: seq<nat>, sense: bool): Desc {
    if sense then d.(t := d.t + s) else d.(f := d.f + s)
  }

  ghost function JoinedGen(g: Gen, d: Desc, s: seq<nat>, sense: bool): Gen {
    Concatenate(g, if sense then d.t else d.f, s)
  }

  /** The facts about both operands that joining them rests on. */
  lemma JoinFacts(x: Context, g2: Gen, g3: Gen, d: Desc, s: seq<nat>, sense: bool, outer: set<nat>, base: nat)
    requires WfSplit(g2, s, outer, base) && WfDesc(g3, d, outer + Elems(s), base)
    requires Kept(g2.code, g3.code, outer + Elems(s))
    ensures Controlled(g3.code, s)
    ensures var g', d' := JoinedGen(g3, d, s, sense), Joined(d, s, sense);
            && WfDesc(g', d', outer, base)
            && Out(x, Core(g', d').code, Live(g', d', outer)) == Out(x, Core(g3, d).code, Live(g3, d, outer + Elems(s)))
            && TestsKept(g3.code, g'.code) && g'.here == g3.here
            && g' == g3.(code := g'.code, failed := g'.failed)
    ensures forall j :: j in s ==>
              && 1 <= j < |g2.code| && j < |g3.code| && g3.code[j - 1] == g2.code[j - 1]
              && j !in g2.here && j !in d.t && j !in d.f && j !in g3.here && j !in outer
  {
    var s1 := if sense then d.t else d.f;
    var g', d' := JoinedGen(g3, d, s, sense), Joined(d, s, sense);
    KeptFewer(g2.code, g3.code, outer + Elems(s), Elems(s));
    ControlledKept(g2.code, g3.code, s);
    JoinShape(g3, d, d', s1, s, outer, base);
    JoinApart(g3, d, d', s1, s, outer);
    var live := Live(g3, d, outer + Elems(s));
    JoinCore(g3, d, s1, s, live);
    assert Core(g', d') == Core(g', d);
    JoinLinks(x, g3, d, s1, s, live);
    JoinMembers(g2, g3, d, s, outer, base);
  }

  lemma JoinMembers(g2: Gen, g3: Gen, d: Desc, s: seq<nat>, outer: set<nat>, base: nat)
    requires WfSplit(g2, s, outer, base) && WfDesc(g3, d, outer + Elems(s), base)
    requires Kept(g2.code, g3.code, outer + Elems(s))
    ensures forall j :: j in s ==>
              && 1 <= j < |g2.code| && j < |g3.code| && g3.code[j - 1] == g2.code[j - 1]
              && j !in g2.here && j !in d.t && j !in d.f && j !in g3.here && j !in outer
  {
    forall j | j in s
      ensures && 1 <= j < |g2.code| && j < |g3.code| && g3.code[j - 1] == g2.code[j - 1]
              && j !in g2.here && j !in d.t && j !in d.f && j !in g3.here && j !in outer
    {
      assert j in Elems(s);
      ListApart(g2, g3, d, s, j, outer);
    }
  }

  lemma ListApart(g2: Gen, g3: Gen, d: Desc, s: seq<nat>, j: nat, outer: set<nat>)
    requires Apart(outer, g2.here, s, []) && Apart(outer + Elems(s), g3.here, d.t, d.f) && j in s
    ensures j !in g2.here && j !in d.t && j !in d.f && j !in g3.here && j !in outer
  {
    assert j in Elems(s);
    assert j in g2.here ==> j in Elems(g2.here);
    assert j in g3.here ==> j in Elems(g3.here);
    assert j in d.t ==> j in Elems(d.t);
    assert j in d.f ==> j in Elems(d.f);
  }

  lemma JoinLinks(x: Context, g: Gen, d: Desc, s1: seq<nat>, s2: seq<nat>, live: set<nat>)
    requires Body(g, d) <= |g.code| && WfGen(Core(g, d), live) && Elems(s1) <= live && WfKind(g, d)
    ensures Out(x, Core(Concatenate(g, s1, s2), d).code, live) == Out(x, Core(g, d).code, live)
  {
    var g' := Concatenate(g, s1, s2);
    JoinCore(g, d, s1, s2, live);
    var c, c' := Core(g, d).code, Core(g', d).code;
    forall i | 0 <= i < |c| && c'[i] != c[i]
      ensures i in live
    {
      assert s1 != [] && i == s1[|s1| - 1];
      assert i in Elems(s1);
    }
    LinkRun(x, c, c', live);
  }

  /** `and` and `or`: an exit of the first operand is an exit of the whole; behind the first
      operand the second one's value is the whole's. */
  lemma JoinTracks(x: Context, g2: Gen, g3: Gen, d: Desc, s: seq<nat>, sense: bool, outer: set<nat>, base: nat,
                   goal1: Goal, goal2: Goal, goal: Goal)
    requires WfSplit(g2, s, outer, base) && WfDesc(g3, d, outer + Elems(s), base) && Fits(x, g3)
    requires Kept(g2.code, g3.code, outer + Elems(s))
    requires TracksSplit(x, g2, s, sense, outer, goal1) && Tracks(x, g3, d, outer + Elems(s), goal2)
    requires ProperGoal(x, goal1, outer)
    requires var o2 := Before(x, g2, outer + Elems(s));
             && (if Arrives(o2, g2.here) then goal2.Value? && goal2.frame == o2.frame && goal2.n == base else goal2 == Elsewhere(o2))
    requires goal1.Elsewhere? ==> goal == goal1
    requires goal1.Value? ==>
               && goal1.n == base && goal.Value? && goal.frame == goal1.frame && goal.n == goal1.n
               && goal.v == if goal1.v.Raise? || Truthy(goal1.v.v) == sense || !goal2.Value? then goal1.v else goal2.v
    ensures var g', d' := JoinedGen(g3, d, s, sense), Joined(d, s, sense);
            WfDesc(g', d', outer, base) && Fits(x, g') && Tracks(x, g', d', outer, goal)
  {
    hide WfPending, EndsInTest, Run, Controlled, OperandFits;
    JoinFacts(x, g2, g3, d, s, sense, outer, base);
    SplitBefore(x, g2, s, outer);
    var g', d' := JoinedGen(g3, d, s, sense), Joined(d, s, sense);
    var o2 := Before(x, g2, outer + Elems(s));
    var o3 := Out(x, Core(g3, d).code, Live(g3, d, outer + Elems(s)));
    JoinKind(x, g3, g', d, d', outer, s, o3);
    BeforeApart(x, g2, s, outer, base);
    assert o3.At? && o3.jump in s ==> o3.jump in Elems(s);
    ListsTested(g3.code, g'.code, d, s);
    hide Apart, Kept, Out, JoinedGen, Elems, Before, WfKind, TestsKept;
    if goal1.Value? {
      JoinOutcome(g2.code, g3.code, g'.code, s, d, d', sense, g2.here, g3.here, o2, o3, outer, goal1, goal2, goal);
    }
  }

  lemma ListsTested(code: seq<Instr>, code': seq<Instr>, d: Desc, s: seq<nat>)
    requires Controlled(code, d.t) && Controlled(code, d.f) && Controlled(code, s) && TestsKept(code, code')
    ensures forall j :: j in d.t || j in d.f || j in s ==> 1 <= j < |code| && code'[j - 1] == code[j - 1]
  {
  }

  lemma BeforeApart(x: Context, g: Gen, s: seq<nat>, outer: set<nat>, base: nat)
    requires WfSplit(g, s, outer, base)
    ensures var o := Before(x, g, outer + Elems(s));
            o.At? ==> (o.jump in outer && o.jump !in g.here) || o.jump in s || (o.jump in g.here && o.jump !in outer)
  {
    var o := Before(x, g, outer + Elems(s));
    if o.At? {
      assert o.jump in outer + Elems(s) + Elems(g.here);
      assert o.jump in g.here ==> o.jump in Elems(g.here);
    }
  }

  lemma JoinKind(x: Context, g: Gen, g': Gen, d: Desc, d': Desc, outer: set<nat>, s: seq<nat>, o: Outcome)
    requires WfBody(g, d, outer + Elems(s)) && WfBody(g', d', outer) && Fits(x, g) && d'.kind == d.kind
    requires TestsKept(g.code, g'.code) && g' == g.(code := g'.code, failed := g'.failed)
    requires o.End? || o.At? ==> |o.frame| == |x.frame|
    ensures Fits(x, g')
    ensures o.End? || o.At? ==> KindValue(x, g', d', o.frame) == KindValue(x, g, d, o.frame)
  {
  }

  lemma {:induction false} CompileConstant(g: Gen, e: Expr)
    ensures var (g', d) := Compile(g, e); ConstantIsTrue(g', d)
    decreases e
  {
    hide GoIfTrue, GoIfFalse;
    match e
    case EParen(e1) => CompileConstant(g, e1);
    case EAnd(e1, e2) =>
      var (g1, d1) := Compile(g, e1);
      CompileConstant(GoIfTrue(g1, d1).0, e2);
    case EOr(e1, e2) =>
      var (g1, d1) := Compile(g, e1);
      CompileConstant(GoIfFalse(g1, d1).0, e2);
    case _ =>
  }

  lemma PlainTracks(x: Context, g: Gen, g': Gen, kind: Kind, e: Expr, outer: set<nat>)
    requires WfStart(g, outer) && g' == g.(constants := g'.constants, lookup := g'.lookup) && Fits(x, g')
    requires !Before(x, g, outer).Fault? && Scoped(e, |x.frame|)
    requires kind.KNil? || kind.KTrue? || kind.KFalse? || kind.KNumber?
             || (kind.KConstant? && kind.k < |g'.constants|) || (kind.KLocal? && kind.l < g.active)
    requires WfBody(g', Plain(kind), outer)
    requires forall frame :: |frame| == |x.frame| ==> KindValue(x, g', Plain(kind), frame) == Eval(x.env, e, frame)
    ensures Tracks(x, g', Plain(kind), outer, GoalOf(x, g, e, outer))
  {
    var d := Plain(kind);
    assert Live(g', d, outer) == outer + Elems(g.here) by { assert Elems([]) == {}; }
    assert Core(g', d) == g';
    var o := Before(x, g, outer);
    assert o.At? && o.jump in g.here ==> o.jump in Elems(g.here) && o.jump !in outer;
  }

  /** What the whole of `and` or `or` is to bring about, from what its operands are to. */
  lemma JoinGoals(x: Context, g: Gen, g2: Gen, e1: Expr, e2: Expr, e: Expr, s: seq<nat>, sense: bool, outer: set<nat>)
    requires Scoped(e1, g.active) && Scoped(e2, g.active) && g.active <= g.free <= |x.frame| && g2.free == g.free
    requires e == if sense then EOr(e1, e2) else EAnd(e1, e2)
    requires WfSplit(g2, s, outer, g.free)
    requires Scoped(e, |x.frame|) && Scoped(e1, |x.frame|) && Scoped(e2, |x.frame|)
    requires ProperGoal(x, GoalOf(x, g, e1, outer), outer)
    requires TracksSplit(x, g2, s, sense, outer, GoalOf(x, g, e1, outer))
    ensures var goal1, goal2, goal := GoalOf(x, g, e1, outer), GoalOf(x, g2, e2, outer + Elems(s)), GoalOf(x, g, e, outer);
            && !Before(x, g2, outer + Elems(s)).Fault?
            && (goal1.Elsewhere? ==> goal == goal1)
            && (goal1.Value? ==>
                  && goal1.n == g.free && goal.Value? && goal.frame == goal1.frame && goal.n == goal1.n
                  && goal.v == if goal1.v.Raise? || Truthy(goal1.v.v) == sense || !goal2.Value? then goal1.v else goal2.v)
  {
    SplitBefore(x, g2, s, outer);
    BeforeApart(x, g2, s, outer, g.free);
    var o0 := Before(x, g, outer);
    var o2 := Before(x, g2, outer + Elems(s));
    if Arrives(o0, g.here) && Arrives(o2, g2.here) {
      ScopedMore(e2, g.active, g.free);
      EvalSame(x.env, e2, o0.frame, o2.frame, g.free);
    }
  }

  lemma AndTracks(x: Context, g: Gen, e1: Expr, e2: Expr, outer: set<nat>)
    requires Compilable(x, g, EAnd(e1, e2), outer)
    ensures var (g', d') := Compile(g, EAnd(e1, e2));
            && WfBody(g', d', outer) && Scoped(EAnd(e1, e2), |x.frame|) && Fits(x, g')
            && Tracks(x, g', d', outer, GoalOf(x, g, EAnd(e1, e2), outer))
    decreases EAnd(e1, e2), 0
  {
    hide WfGen, EncodeNot, EncodeComparison, ExpressionToOperand, GoIfFalse, Eval;
    var e := EAnd(e1, e2);
    var (g1, d1) := Compile(g, e1);
    var (g2, d1') := GoIfTrue(g1, d1);
    var s := d1'.f;
    var (g3, d2) := Compile(g2, e2);
    var (g', d') := Compile(g, e);
    FirstCompilable(x, g, g1, g2, g3, e, e1, outer);
    hide WfBody, Kept, Tracks, GoIfTrue, Concatenate, GoalOf, Before, Enters, Fits;
    CompileTracks(x, g, e1, outer);
    CompileShape(g, e1, outer);
    CompileConstant(g, e1);
    CompilableFits(x, g, e1, outer);
    CompilableFits(x, g, e, outer);
    EntersFirst(x, g, g1, d1, outer);
    GoalRegisters(x, g, e1, outer);
    GoIfTrueTracks(x, g1, d1, outer, g.free, GoalOf(x, g, e1, outer));
    GoIfTrueShape(g1, d1, outer, g.free);
    AfterSplit(x, g, g1, d1, g2, g3, e1, e2, s, false, outer);
    CompileTracks(x, g2, e2, outer + Elems(s));
    JoinExpr(x, g, g1, g2, g3, d2, e1, e2, s, false, outer);
  }

  lemma OrTracks(x: Context, g: Gen, e1: Expr, e2: Expr, outer: set<nat>)
    requires Compilable(x, g, EOr(e1, e2), outer)
    ensures var (g', d') := Compile(g, EOr(e1, e2));
            && WfBody(g', d', outer) && Scoped(EOr(e1, e2), |x.frame|) && Fits(x, g')
            && Tracks(x, g', d', outer, GoalOf(x, g, EOr(e1, e2), outer))
    decreases EOr(e1, e2), 0
  {
    hide WfBody, Kept, Tracks, GoIfFalse, Concatenate, GoalOf, Before, Enters, Fits;
    var e := EOr(e1, e2);
    var (g1, d1) := Compile(g, e1);
    var (g2, d1') := GoIfFalse(g1, d1);
    var s := d1'.t;
    var (g3, d2) := Compile(g2, e2);
    var (g', d') := Compile(g, e);
    FirstCompilable(x, g, g1, g2, g3, e, e1, outer);
    CompileTracks(x, g, e1, outer);
    CompileShape(g, e1, outer);
    CompilableFits(x, g, e1, outer);
    CompilableFits(x, g, e, outer);
    EntersFirst(x, g, g1, d1, outer);
    GoalRegisters(x, g, e1, outer);
    GoIfFalseTracks(x, g1, d1, outer, g.free, GoalOf(x, g, e1, outer));
    GoIfFalseShape(g1, d1, outer, g.free);
    AfterSplit(x, g, g1, d1, g2, g3, e1, e2, s, true, outer);
    CompileTracks(x, g2, e2, outer + Elems(s));
    JoinExpr(x, g, g1, g2, g3, d2, e1, e2, s, true, outer);
  }

  lemma GoalRegisters(x: Context, g: Gen, e: Expr, outer: set<nat>)
    requires Scoped(e, |x.frame|)
    ensures GoalOf(x, g, e, outer).Value? ==> GoalOf(x, g, e, outer).n == g.free
  {
  }

  lemma FirstCompilable(x: Context, g: Gen, g1: Gen, g2: Gen, g3: Gen, e: Expr, e1: Expr, outer: set<nat>)
    requires Compilable(x, g, e, outer) && Scoped(e1, g.active) && g1 == Compile(g, e1).0
    requires Grows(g1, g2) && Grows(g2, g3) && Grows(g3, Compile(g, e).0)
    ensures Compilable(x, g, e1, outer) && Fits(x, g1) && Fits(x, g2) && Fits(x, g3)
    ensures !g1.lossy && !g2.lossy && !g3.lossy
  {
    FitsEarlier(x, g3, Compile(g, e).0);
    FitsEarlier(x, g2, g3);
    FitsEarlier(x, g1, g2);
  }

  lemma EntersFirst(x: Context, g: Gen, g1: Gen, d1: Desc, outer: set<nat>)
    requires Enters(x, g) && WfStart(g, outer) && Compiled(g, g1, d1, outer)
    ensures Enters(x, g1)
  {
    LastTargetBody(g1, d1, outer);
  }

  lemma AfterSplit(x: Context, g: Gen, g1: Gen, d1: Desc, g2: Gen, g3: Gen, e1: Expr, e2: Expr, s: seq<nat>, sense: bool, outer: set<nat>)
    requires Enters(x, g) && WfStart(g, outer) && Compiled(g, g1, d1, outer)
    requires WfSplit(g2, s, outer, g.free) && Body(g1, d1) <= |g2.code| && g2.lastTarget == |g2.code|
    requires g3 == Compile(g2, e2).0 && Fits(x, g3) && Fits(x, g2)
    requires Scoped(e1, g.active) && Scoped(e2, g.active) && g2.active == g.active
    requires Scoped(e1, |x.frame|) && ProperGoal(x, GoalOf(x, g, e1, outer), outer)
    requires TracksSplit(x, g2, s, sense, outer, GoalOf(x, g, e1, outer))
    ensures Compilable(x, g2, e2, outer + Elems(s)) && g2.free == g.free
    ensures Scoped(e2, |x.frame|)
  {
    SplitStart(g2, s, outer, g.free);
    SplitBefore(x, g2, s, outer);
    ScopedMore(e2, g.active, |x.frame|);
  }

  lemma JoinExpr(x: Context, g: Gen, g1: Gen, g2: Gen, g3: Gen, d2: Desc, e1: Expr, e2: Expr, s: seq<nat>, sense: bool, outer: set<nat>)
    requires WfStart(g, outer) && WfSplit(g2, s, outer, g.free) && g2.free == g.free && g2.active == g.active
    requires (g3, d2) == Compile(g2, e2) && Fits(x, g3) && Fits(x, g)
    requires Compilable(x, g2, e2, outer + Elems(s))
    requires Scoped(e1, g.active) && Scoped(e2, g.active)
    requires Scoped(e1, |x.frame|) && Scoped(e2, |x.frame|) && ProperGoal(x, GoalOf(x, g, e1, outer), outer)
    requires TracksSplit(x, g2, s, sense, outer, GoalOf(x, g, e1, outer))
    requires WfBody(g3, d2, outer + Elems(s)) && Tracks(x, g3, d2, outer + Elems(s), GoalOf(x, g2, e2, outer + Elems(s)))
    ensures var e := if sense then EOr(e1, e2) else EAnd(e1, e2);
            var d := DischargeVariables(d2);
            var g', d' := JoinedGen(g3, d, s, sense), Joined(d, s, sense);
            && Scoped(e, |x.frame|)
            && WfBody(g', d', outer) && Fits(x, g') && Tracks(x, g', d', outer, GoalOf(x, g, e, outer))
  {
    var e := if sense then EOr(e1, e2) else EAnd(e1, e2);
    CompilableFits(x, g2, e2, outer + Elems(s));
    CompileShape(g2, e2, outer + Elems(s));
    JoinGoals(x, g, g2, e1, e2, e, s, sense, outer);
    DischargeVariablesShape(g3, d2, outer + Elems(s), g.free);
    DischargeVariablesTracks(x, g3, d2, outer + Elems(s), GoalOf(x, g2, e2, outer + Elems(s)));
    hide WfBody, Kept, Tracks, TracksSplit, WfSplit, JoinedGen, Fits;
    JoinTracks(x, g2, g3, DischargeVariables(d2), s, sense, outer, g.free,
               GoalOf(x, g, e1, outer), GoalOf(x, g2, e2, outer + Elems(s)), GoalOf(x, g, e, outer));
  }

  /** The code of an expression brings about what it is to. */
  lemma {:induction false} CompileTracks(x: Context, g: Gen, e: Expr, outer: set<nat>)
    requires Compilable(x, g, e, outer)
    ensures var (g', d') := Compile(g, e);
            && WfBody(g', d', outer) && Scoped(e, |x.frame|) && Fits(x, g')
            && Tracks(x, g', d', outer, GoalOf(x, g, e, outer))
    decreases e
  {
    hide WfBody, Tracks;
    CompilableFits(x, g, e, outer);
    CompileShape(g, e, outer);
    match e
    case EParen(e1) =>
      CompileTracks(x, g, e1, outer);
      ParenTracks(x, g, e1, outer);
    case ENot(e1) => NotTracks(x, g, e1, outer);
    case EAnd(e1, e2) => AndTracks(x, g, e1, e2, outer);
    case EOr(e1, e2) => OrTracks(x, g, e1, e2, outer);
    case ECompare(op, e1, e2) => CompareTracks(x, g, op, e1, e2, outer);
    case _ => AtomTracks(x, g, e, outer);
  }

  lemma ParenTracks(x: Context, g: Gen, e: Expr, outer: set<nat>)
    requires Scoped(e, |x.frame|) && Scoped(EParen(e), |x.frame|)
    requires var (g', d') := Compile(g, e);
             && WfBody(g', d', outer) && WfBody(g', DischargeVariables(d'), outer) && Fits(x, g')
             && Tracks(x, g', d', outer, GoalOf(x, g, e, outer))
    ensures var (g', d') := Compile(g, EParen(e));
            && WfBody(g', d', outer) && Fits(x, g') && Tracks(x, g', d', outer, GoalOf(x, g, EParen(e), outer))
  {
    hide WfBody, Tracks, Fits;
    var (g', d') := Compile(g, e);
    DischargeVariablesTracks(x, g', d', outer, GoalOf(x, g, e, outer));
  }

  lemma AtomTracks(x: Context, g: Gen, e: Expr, outer: set<nat>)
    requires Compilable(x, g, e, outer) && Fits(x, g) && Scoped(e, |x.frame|)
    requires !e.EParen? && !e.ENot? && !e.EAnd? && !e.EOr? && !e.ECompare?
    requires var (g', d') := Compile(g, e); WfBody(g', d', outer)
    ensures var (g', d') := Compile(g, e); Fits(x, g') && Tracks(x, g', d', outer, GoalOf(x, g, e, outer))
  {
    hide WfBody, Tracks;
    match e
    case ENil => PlainTracks(x, g, g, KNil, e, outer);
    case ETrue => PlainTracks(x, g, g, KTrue, e, outer);
    case EFalse => PlainTracks(x, g, g, KFalse, e, outer);
    case ENumber(bits) => PlainTracks(x, g, g, KNumber(bits), e, outer);
    case EString(s) =>
      var (g1, k) := AddConstant(g, Str(s));
      PlainTracks(x, g, g1, KConstant(k), e, outer);
    case ELocal(l) => PlainTracks(x, g, g, KLocal(l), e, outer);
  }

  lemma NotTracks(x: Context, g: Gen, e1: Expr, outer: set<nat>)
    requires Compilable(x, g, ENot(e1), outer)
    ensures var (g', d') := Compile(g, ENot(e1));
            && WfBody(g', d', outer) && Scoped(ENot(e1), |x.frame|) && Fits(x, g')
            && Tracks(x, g', d', outer, GoalOf(x, g, ENot(e1), outer))
    decreases ENot(e1), 0
  {
    var e := ENot(e1);
    var (g1, d1) := Compile(g, e1);
    var (g', d') := Compile(g, e);
    FirstCompilable(x, g, g1, g1, g1, e, e1, outer);
    CompileTracks(x, g, e1, outer);
    CompileShape(g, e1, outer);
    CompileConstant(g, e1);
    CompilableFits(x, g, e1, outer);
    CompilableFits(x, g, e, outer);
    EntersFirst(x, g, g1, d1, outer);
    GoalRegisters(x, g, e1, outer);
    hide WfBody, Kept, Tracks, EncodeNot, Before, Enters, Fits;
    EncodeNotTracks(x, g1, d1, outer, g.free, GoalOf(x, g, e1, outer));
    assert GoalOf(x, g, e, outer) == Negated(GoalOf(x, g, e1, outer));
  }

  // ---- Comparison expressions ----

  /** The instruction that encodeComparison emits. */
  ghost function Comparison(op: CompareOp, o1: nat, o2: nat): Instr {
    if ConditionOf(op) == 0 && !RelationOf(op).Equal? then Compare(RelationOf(op), 1, o2, o1)
    else Compare(RelationOf(op), ConditionOf(op), o1, o2)
  }

  ghost predicate InOrder(op: CompareOp) {
    !(ConditionOf(op) == 0 && !RelationOf(op).Equal?)
  }

  lemma SecondCompilable(x: Context, g: Gen, g1: Gen, d1: Desc, g2: Gen, d1': Desc, o1: nat, g3: Gen, e1: Expr, e2: Expr, outer: set<nat>)
    requires Enters(x, g) && WfStart(g, outer) && Compiled(g, g1, d1, outer)
    requires OperandDone(g1, d1, outer, g.free, (g2, d1', o1))
    requires g3 == Compile(g2, e2).0 && Fits(x, g3) && g2.active == g.active
    requires Scoped(e1, |x.frame|) && Scoped(e2, g.active) && ProperGoal(x, GoalOf(x, g, e1, outer), outer)
    requires TracksOperand(x, g2, o1, outer, GoalOf(x, g, e1, outer))
    ensures Compilable(x, g2, e2, outer)
  {
    LastTargetBody(g1, d1, outer);
  }

  /** The first operand's field keeps its value while registers below the second's are kept. */
  lemma OperandKept(x: Context, g: Gen, d: Desc, o1: nat, outer: set<nat>, base: nat, before: Frame, after: Frame)
    requires WfOperand(g, d, o1, outer, base) && |before| == |x.frame| && Same(before, after, g.free)
    requires Fits(x, g) && OperandReady(x.env, before, o1)
    ensures Operand(x.env, after, o1) == Operand(x.env, before, o1)
  {
  }

  /** The emitted instruction decides what the operator says. */
  lemma ComparedInstr(env: Env, op: CompareOp, o1: nat, o2: nat)
    ensures forall v1, v2 :: TestResult(env, Comparison(op, o1, o2), v1, v2, InOrder(op)) == CompareValues(env, op, v1, v2)
  {
  }

  lemma OperandsKept(x: Context, g: Gen, d: Desc, o1: nat, outer: set<nat>, base: nat, before: Frame, x1: Value)
    requires WfOperand(g, d, o1, outer, base) && |before| == |x.frame| && Fits(x, g)
    requires OperandReady(x.env, before, o1) && Operand(x.env, before, o1) == Ok(x1)
    ensures forall frame :: |frame| == |x.frame| && Same(before, frame, g.free) ==> Operand(x.env, frame, o1) == Ok(x1)
  {
    forall frame: Frame | |frame| == |x.frame| && Same(before, frame, g.free)
      ensures Operand(x.env, frame, o1) == Ok(x1)
    {
      OperandKept(x, g, d, o1, outer, base, before, frame);
    }
  }

  lemma HereApart(x: Context, g: Gen, outer: set<nat>)
    requires WfStart(g, outer)
    ensures var o := Before(x, g, outer); o.At? && o.jump in outer ==> o.jump !in g.here
  {
    var o := Before(x, g, outer);
    assert o.At? && o.jump in g.here ==> o.jump in Elems(g.here);
  }

  lemma EvalCompare(env: Env, op: CompareOp, e1: Expr, e2: Expr, frame: Frame)
    requires Scoped(e1, |frame|) && Scoped(e2, |frame|)
    ensures Eval(env, ECompare(op, e1, e2), frame)
            == var r1, r2 := Eval(env, e1, frame), Eval(env, e2, frame);
               if r1.Raise? || r2.Raise? then Raise else CompareValues(env, op, r1.v, r2.v)
  {
  }

  lemma OperandStart(g: Gen, d: Desc, field: nat, outer: set<nat>, base: nat)
    requires WfOperand(g, d, field, outer, base)
    ensures base <= g.free && WfStart(g, outer)
  {
  }

  lemma CompareGoals(x: Context, g: Gen, g2: Gen, d1: Desc, o1: nat, o2: nat, op: CompareOp, e1: Expr, e2: Expr, outer: set<nat>)
    returns (x1: Value)
    requires Scoped(e1, g.active) && Scoped(e2, g.active) && g.active <= g.free <= |x.frame| && Fits(x, g2)
    requires Scoped(e1, |x.frame|) && Scoped(e2, |x.frame|)
    requires WfOperand(g2, d1, o1, outer, g.free) && ProperGoal(x, GoalOf(x, g, e1, outer), outer)
    requires TracksOperand(x, g2, o1, outer, GoalOf(x, g, e1, outer))
    ensures var goal2, goal := GoalOf(x, g2, e2, outer), GoalOf(x, g, ECompare(op, e1, e2), outer);
            && (goal2.Elsewhere? ==> goal == goal2 || (goal2.o.Raised? && goal.Value? && goal.v.Raise?))
            && (goal2.Value? ==>
                  && goal.Value? && goal.n <= goal2.n && Same(goal.frame, goal2.frame, goal.n)
                  && (forall frame :: |frame| == |x.frame| && Same(goal2.frame, frame, goal2.n) ==>
                        Operand(x.env, frame, o1) == Ok(x1))
                  && (goal2.v.Raise? ==> goal.v.Raise?)
                  && (goal2.v.Ok? ==> goal.v == TestResult(x.env, Comparison(op, o1, o2), x1, goal2.v.v, InOrder(op))))
  {
    hide WfStart, Out, CompareValues, TestResult, WfOperand, Operand, OperandReady, Fits, Eval;
    OperandStart(g2, d1, o1, outer, g.free);
    ComparedInstr(x.env, op, o1, o2);
    var o0, o2' := Before(x, g, outer), Before(x, g2, outer);
    var goal1 := GoalOf(x, g, e1, outer);
    x1 := Nil;
    HereApart(x, g2, outer);
    if goal1.Value? {
      EvalCompare(x.env, op, e1, e2, o0.frame);
    }
    if goal1.Value? && Arrives(o2', g2.here) {
      x1 := goal1.v.v;
      ScopedMore(e2, g.active, g.free);
      EvalSame(x.env, e2, o0.frame, o2'.frame, g.free);
      OperandsKept(x, g2, d1, o1, outer, g.free, o2'.frame, x1);
    }
  }

  lemma ComparisonReady(x: Context, g: Gen, g2: Gen, g3: Gen, d1: Desc, o1: nat, d2: Desc, outer: set<nat>, goal2: Goal)
    requires WfOperand(g2, d1, o1, outer, g.free) && Grows(g2, g3) && WfDesc(g3, d2, outer, g2.free)
    requires Fits(x, g3) && Fits(x, ExpressionToOperand(g3, d2).0) && Enters(x, g3)
    requires ProperGoal(x, goal2, outer) && Tracks(x, g3, d2, outer, goal2) && (goal2.Value? ==> goal2.n <= g2.free)
    ensures var (g4, d2', o2) := ExpressionToOperand(g3, d2);
            var g5 := FreeExpression(FreeExpression(g4, d2'), d1);
            && g5 == g4.(free := g.free) && WfStart(g5, outer) && Fits(x, g5)
            && OperandFits(g5, o1) && OperandFits(g5, o2) && TracksOperand(x, g5, o2, outer, goal2)
  {
    hide WfBody, Kept, Tracks, ExpressionToOperand, Enters, TracksOperand, WfGen;
    var (g4, d2', o2) := ExpressionToOperand(g3, d2);
    OperandShape(g3, d2, outer, g2.free);
    OperandTracks(x, g3, d2, outer, g2.free, goal2);
    FreeOperandShape(g4, d2', g2.free);
    FreeOperandShape(FreeExpression(g4, d2'), d1, g.free);
    StartFree(g4, outer, g.free);
    OperandFreed(x, g4, g4.(free := g.free), o2, outer, goal2);
  }

  lemma EncodeComparisonTracks(x: Context, g: Gen, g2: Gen, g3: Gen, d1: Desc, o1: nat, d2: Desc, op: CompareOp,
                               e1: Expr, e2: Expr, outer: set<nat>)
    requires WfOperand(g2, d1, o1, outer, g.free) && Grows(g2, g3) && WfDesc(g3, d2, outer, g2.free)
    requires Fits(x, EncodeComparison(g3, RelationOf(op), ConditionOf(op), d1, d2).0) && Fits(x, g3) && Fits(x, g2)
    requires Scoped(e1, g.active) && Scoped(e2, g.active) && g.active <= g.free <= |x.frame| && g2.active == g.active
    requires Scoped(e1, |x.frame|) && Scoped(e2, |x.frame|) && Scoped(ECompare(op, e1, e2), |x.frame|) && Enters(x, g3)
    requires ProperGoal(x, GoalOf(x, g, e1, outer), outer) && ProperGoal(x, GoalOf(x, g2, e2, outer), outer)
    requires ProperGoal(x, GoalOf(x, g, ECompare(op, e1, e2), outer), outer)
    requires TracksOperand(x, g2, o1, outer, GoalOf(x, g, e1, outer))
    requires Tracks(x, g3, d2, outer, GoalOf(x, g2, e2, outer))
    ensures var (g', d') := EncodeComparison(g3, RelationOf(op), ConditionOf(op), d1, d2);
            WfBody(g', d', outer) && Tracks(x, g', d', outer, GoalOf(x, g, ECompare(op, e1, e2), outer))
  {
    hide WfGen, Kept, Eval, CompareValues, ConditionalJump;
    OperandStable(g2, g3, d1, o1, outer, g.free);
    FitsComparison(x, g3, RelationOf(op), ConditionOf(op), d1, d2, o1);
    hide WfBody, Tracks, ExpressionToOperand, GoalOf, Enters, TracksOperand, WfOperand, Fits, WfStart, FreeExpression,
         ProperGoal;
    GoalRegisters(x, g2, e2, outer);
    ComparisonReady(x, g, g2, g3, d1, o1, d2, outer, GoalOf(x, g2, e2, outer));
    var (g4, d2', o2) := ExpressionToOperand(g3, d2);
    var g5 := FreeExpression(FreeExpression(g4, d2'), d1);
    var x1 := CompareGoals(x, g, g2, d1, o1, o2, op, e1, e2, outer);
    ComparisonTracks(x, g5, Comparison(op, o1, o2), InOrder(op), o1, x1, o2, outer,
                     GoalOf(x, g, ECompare(op, e1, e2), outer), GoalOf(x, g2, e2, outer));
  }

  lemma OperandFreed(x: Context, g: Gen, g': Gen, field: nat, outer: set<nat>, goal: Goal)
    requires TracksOperand(x, g, field, outer, goal) && g'.code == g.code && g'.here == g.here
    ensures TracksOperand(x, g', field, outer, goal)
  {
  }

  lemma FitsComparison(x: Context, g: Gen, rel: Relation, cond: nat, d1: Desc, d2: Desc, o1: nat)
    requires Fits(x, EncodeComparison(g, rel, cond, d1, d2).0)
    requires ExpressionToOperand(g, d1) == (g, d1, o1)
    ensures Fits(x, ExpressionToOperand(g, d2).0)
  {
    var (g2, e2, o2) := ExpressionToOperand(g, d2);
    var g3 := FreeExpression(FreeExpression(g2, e2), d1);
    FitsEarlier(x, g2, EncodeComparison(g, rel, cond, d1, d2).0);
  }

  lemma CompareTracks(x: Context, g: Gen, op: CompareOp, e1: Expr, e2: Expr, outer: set<nat>)
    requires Compilable(x, g, ECompare(op, e1, e2), outer)
    ensures var (g', d') := Compile(g, ECompare(op, e1, e2));
            && WfBody(g', d', outer) && Scoped(ECompare(op, e1, e2), |x.frame|) && Fits(x, g')
            && Tracks(x, g', d', outer, GoalOf(x, g, ECompare(op, e1, e2), outer))
    decreases ECompare(op, e1, e2), 0
  {
    hide WfBody, Kept, Tracks, ExpressionToOperand, EncodeComparison, GoalOf, Before, Enters, TracksOperand, Fits,
         WfStart, WfOperand, ProperGoal, Compilable, WfRegister;
    var e := ECompare(op, e1, e2);
    var (g1, d1) := Compile(g, e1);
    var (g2, d1', o1) := ExpressionToOperand(g1, d1);
    var (g3, d2) := Compile(g2, e2);
    var (g', d') := Compile(g, e);
    CompilableStart(x, g, e, outer);
    FirstCompilable(x, g, g1, g2, g3, e, e1, outer);
    CompilableFits(x, g, e1, outer);
    CompilableFits(x, g, e, outer);
    CompileTracks(x, g, e1, outer);
    CompileShape(g, e1, outer);
    EntersFirst(x, g, g1, d1, outer);
    GoalRegisters(x, g, e1, outer);
    OperandTracks(x, g1, d1, outer, g.free, GoalOf(x, g, e1, outer));
    OperandShape(g1, d1, outer, g.free);
    SecondCompilable(x, g, g1, d1, g2, d1', o1, g3, e1, e2, outer);
    CompilableFits(x, g2, e2, outer);
    CompileTracks(x, g2, e2, outer);
    CompileShape(g2, e2, outer);
    EntersFirst(x, g2, g3, d2, outer);
    EncodeComparisonTracks(x, g, g2, g3, d1', o1, d2, op, e1, e2, outer);
  }
}
