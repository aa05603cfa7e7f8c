/**
  The code generator preserves meaning: compiling a short-circuit expression into a register
  yields code whose every run gets just past it with the expression's value in that register
  and all registers below untouched, or raises the error that evaluating it raises.
 */
module LuaCorrectness {
  import opened LuaMachine
  import opened LuaGenerator
  import opened LuaShape
  import opened LuaRuns

  // ---- What a run may look like in the middle of an expression ----

  /** Registers below `n` are as they were. */
  ghost predicate Same(before: Frame, after: Frame, n: nat) {
    && |after| == |before| && n <= |before|
    && forall i :: 0 <= i < n ==> after[i] == before[i]
  }

  /** What the run is to bring about: the expression was not reached and the run ended in `o`
      before, or it was reached with `frame`, has the value `v` and must keep `n` registers. */
  datatype Goal = Elsewhere(o: Outcome) | Value(v: Result, frame: Frame, n: nat)

  ghost predicate ProperGoal(x: Context, goal: Goal, outer: set<nat>) {
    match goal
    case Elsewhere(o) => o.Raised? || (o.At? && o.jump in outer)
    case Value(_, frame, n) => |frame| == |x.frame| && n <= |frame|
  }

  /** The value an expression under way will have, given the registers at its end. */
  ghost function KindValue(x: Context, g: Gen, d: Desc, frame: Frame): (r: Result)
    requires WfKind(g, d) && Fits(x, g) && |frame| == |x.frame| && g.active <= g.maxStack
  {
    match d.kind
    case KNil => Ok(Nil)
    case KTrue => Ok(Bool(true))
    case KFalse => Ok(Bool(false))
    case KConstant(k) => Ok(x.env.k[k])
    case KNumber(bits) => Ok(Number(bits))
    case KNonRelocatable(r) => Ok(frame[r])
    case KLocal(l) => Ok(frame[l])
    case KRelocatable(pc) => Ok(Bool(IsFalse(frame[g.code[pc].b])))
    case KJump(pc) => TestValue(x.env, g.code[pc - 1], frame)
  }

  /** Whether a comparison takes its jump, as a Lua boolean. */
  ghost function TestValue(env: Env, i: Instr, frame: Frame): (r: Result)
    requires i.Compare? && OperandReady(env, frame, i.b) && OperandReady(env, frame, i.c)
  {
    var r := Compared(env, i.rel, Operand(env, frame, i.b).v, Operand(env, frame, i.c).v);
    if r.Raise? then Raise else Ok(Bool(r.v.b == (i.a != 0)))
  }

  /** Leaving through jump `j` says that the value has truth `sense`. It is the tested
      register if a TESTSET controls the jump, and the boolean itself if not. */
  ghost predicate Exit(code: seq<Instr>, j: nat, frame: Frame, v: Result, sense: bool)
    requires 1 <= j <= |code|
  {
    && v.Ok? && Truthy(v.v) == sense
    && if code[j - 1].TestSet? then code[j - 1].b < |frame| && frame[code[j - 1].b] == v.v
       else v.v == Bool(sense)
  }

  /** The run of an expression under way. */
  ghost predicate Tracks(x: Context, g: Gen, d: Desc, outer: set<nat>, goal: Goal)
    requires WfBody(g, d, outer) && Fits(x, g)
  {
    var o := Out(x, Core(g, d).code, Live(g, d, outer));
    match goal
    case Elsewhere(o0) => o == o0
    case Value(v, frame, n) =>
      && !o.Fault?
      && (o.Raised? ==> v.Raise?)
      && (o.End? || o.At? ==> Same(frame, o.frame, n))
      && (Arrives(o, g.here) ==> KindValue(x, g, d, o.frame) == v)
      && (o.At? && o.jump in d.t ==> Exit(g.code, o.jump, o.frame, v, true))
      && (o.At? && o.jump in d.f ==> Exit(g.code, o.jump, o.frame, v, false))
      && (o.At? ==> o.jump !in outer)
  }

  /** The run between the operands of `and` and `or`, the jumps of `s` leaving when the first
      operand's truth is `sense`. */
  ghost predicate TracksSplit(x: Context, g: Gen, s: seq<nat>, sense: bool, outer: set<nat>, goal: Goal)
    requires Controlled(g.code, s)
  {
    var o := Out(x, g.code, outer + Elems(s) + Elems(g.here));
    match goal
    case Elsewhere(o0) => o == o0
    case Value(v, frame, n) =>
      && !o.Fault?
      && (o.Raised? ==> v.Raise?)
      && (o.End? || o.At? ==> Same(frame, o.frame, n))
      && (Arrives(o, g.here) ==> v.Ok? && Truthy(v.v) != sense)
      && (o.At? && o.jump in s ==> Exit(g.code, o.jump, o.frame, v, sense))
      && (o.At? ==> o.jump !in outer)
  }

  /** The run of code that puts a value into register `r`. */
  ghost predicate TracksRegister(x: Context, g: Gen, r: nat, outer: set<nat>, goal: Goal) {
    var o := Out(x, g.code, outer + Elems(g.here));
    match goal
    case Elsewhere(o0) => o == o0
    case Value(v, frame, n) =>
      && !o.Fault?
      && (o.Raised? ==> v.Raise?)
      && (o.At? ==> o.jump in g.here)
      && (o.End? || o.At? ==> InPlace(frame, o.frame, v, r, n))
  }

  // ---- Discharging ----

  /** The frame a value is discharged into. */
  ghost predicate Holds(x: Context, g: Gen, g': Gen, d: Desc, r: nat, outer: set<nat>)
    requires WfBody(g, d, outer) && Fits(x, g) && WfBody(g', Desc(KNonRelocatable(r), d.t, d.f), outer)
    requires r < g.maxStack && !d.kind.KJump?
  {
    var o := Out(x, Core(g, d).code, Live(g, d, outer));
    var o' := Out(x, g'.code, Live(g', Desc(KNonRelocatable(r), d.t, d.f), outer));
    o.Fault? ||
    if Arrives(o, g.here) then
      (o'.End? || (o'.At? && o'.jump in g'.here)) && o'.frame == o.frame[r := KindValue(x, g, d, o.frame).v]
    else o' == o
  }

  lemma HoldsEmit(x: Context, g: Gen, d: Desc, i: Instr, r: nat, outer: set<nat>)
    requires WfBody(g, d, outer) && Body(g, d) == |g.code| && Fits(x, g) && r < g.maxStack
    requires IsPlain(i) && PlainReady(x.env, i, |x.frame|)
    requires forall frame :: |frame| == |x.frame| ==>
               Execute(x.env, i, frame) == frame[r := KindValue(x, g, d, frame).v]
    ensures WfBody(Emit(g, i), Desc(KNonRelocatable(r), d.t, d.f), outer)
    ensures Holds(x, g, Emit(g, i), d, r, outer)
  {
    hide WfGen;
    DischargeEmit(g, d, i, r, outer);
    var live := Others(d, outer);
    var g' := Emit(g, i);
    assert Core(g, d) == g && Live(g, d, outer) == live + Elems(g.here);
    EmitRun(x, g, i, live);
    assert Live(g', Desc(KNonRelocatable(r), d.t, d.f), outer) == live;
  }

  lemma HoldsNil(x: Context, g: Gen, d: Desc, r: nat, outer: set<nat>)
    requires WfBody(g, d, outer) && Fits(x, g) && r < g.maxStack && d.kind.KNil? && Enters(x, g)
    requires !EmitLoadNil(g, r, 1).lossy
    ensures WfBody(EmitLoadNil(g, r, 1), Desc(KNonRelocatable(r), d.t, d.f), outer)
    ensures Holds(x, g, EmitLoadNil(g, r, 1), d, r, outer)
  {
    DischargeNil(g, d, r, outer);
    var live := Others(d, outer);
    var g' := EmitLoadNil(g, r, 1);
    assert Core(g, d) == g && Live(g, d, outer) == live + Elems(g.here);
    EmitLoadNilRun(x, g, r, live);
    EmitLoadNilShape(g, r, live);
    assert Live(g', Desc(KNonRelocatable(r), d.t, d.f), outer) == live;
  }

  lemma HoldsRelocatable(x: Context, g: Gen, d: Desc, r: nat, outer: set<nat>)
    requires WfBody(g, d, outer) && Fits(x, g) && r < g.maxStack && d.kind.KRelocatable?
    requires !DischargeToRegister(g, d, r).0.lossy
    ensures var g' := DischargeToRegister(g, d, r).0;
            WfBody(g', Desc(KNonRelocatable(r), d.t, d.f), outer) && Holds(x, g, g', d, r, outer)
  {
    hide Settled, Apart, Controlled, Kept, EndsInTest;
    DischargeRelocatable(g, d, r, outer);
    var g' := DischargeToRegister(g, d, r).0;
    var live := Others(d, outer);
    var c := Core(g, d).code;
    var i := Not(r, g.code[d.kind.pc].b);
    assert g'.code == c + [i];
    assert Live(g, d, outer) == live == Live(g', Desc(KNonRelocatable(r), d.t, d.f), outer) by {
      assert Elems([]) == {};
    }
    AppendRun(x, c, i, live);
  }

  lemma HoldsMove(x: Context, g: Gen, d: Desc, y: nat, r: nat, outer: set<nat>)
    requires WfBody(g, d, outer) && Fits(x, g) && r < g.maxStack
    requires d.kind == KNonRelocatable(y) || d.kind == KLocal(y)
    ensures var g' := DischargeToRegister(g, d, r).0;
            WfBody(g', Desc(KNonRelocatable(r), d.t, d.f), outer) && Holds(x, g, g', d, r, outer)
  {
    hide EndsInTest, Settled, Kept;
    if r != y {
      HoldsEmit(x, g, d, Move(r, y), r, outer);
    } else {
      DischargeMove(g, d, y, r, outer);
      assert Core(g, d) == g;
      assert Live(g, d, outer) == Live(g, Desc(KNonRelocatable(r), d.t, d.f), outer);
    }
  }

  lemma HoldsConstant(x: Context, g: Gen, d: Desc, k: nat, r: nat, outer: set<nat>)
    requires WfBody(g, d, outer) && Body(g, d) == |g.code| && Fits(x, g) && r < g.maxStack
    requires k < |g.constants| && !EmitConstant(g, r, k).lossy
    requires forall frame :: |frame| == |x.frame| ==> KindValue(x, g, d, frame) == Ok(x.env.k[k])
    ensures WfBody(EmitConstant(g, r, k), Desc(KNonRelocatable(r), d.t, d.f), outer)
    ensures Holds(x, g, EmitConstant(g, r, k), d, r, outer)
  {
    assert k <= MAX_ARG_BX;
    HoldsEmit(x, g, d, LoadConstant(r, k), r, outer);
  }

  /** Discharging to a register runs the code so far and then puts the value there. */
  lemma DischargeHolds(x: Context, g: Gen, d: Desc, r: nat, outer: set<nat>)
    requires WfBody(g, d, outer) && r < g.maxStack && !d.kind.KJump?
    requires Enters(x, g) && Fits(x, DischargeToRegister(g, d, r).0)
    ensures Fits(x, g)
    ensures var g' := DischargeToRegister(g, d, r).0;
            WfBody(g', Desc(KNonRelocatable(r), d.t, d.f), outer) && Holds(x, g, g', d, r, outer)
  {
    FitsEarlier(x, g, DischargeToRegister(g, d, r).0);
    match d.kind
    case KRelocatable(pc) => HoldsRelocatable(x, g, d, r, outer);
    case KNil => HoldsNil(x, g, d, r, outer);
    case KFalse => HoldsEmit(x, g, d, LoadBool(r, 0, 0), r, outer);
    case KTrue => HoldsEmit(x, g, d, LoadBool(r, 1, 0), r, outer);
    case KConstant(k) => HoldsConstant(x, g, d, k, r, outer);
    case KNumber(bits) => HoldsNumber(x, g, d, bits, r, outer);
    case KNonRelocatable(y) => HoldsMove(x, g, d, y, r, outer);
    case KLocal(y) => HoldsMove(x, g, d, y, r, outer);
  }

  lemma HoldsNumber(x: Context, g: Gen, d: Desc, bits: nat, r: nat, outer: set<nat>)
    requires WfBody(g, d, outer) && r < g.maxStack && d.kind == KNumber(bits)
    requires Fits(x, g) && Fits(x, DischargeToRegister(g, d, r).0)
    ensures var g' := DischargeToRegister(g, d, r).0;
            WfBody(g', Desc(KNonRelocatable(r), d.t, d.f), outer) && Holds(x, g, g', d, r, outer)
  {
    hide Settled, Controlled, Apart, EndsInTest, Out;
    var (g1, k) := AddConstant(g, Number(bits));
    assert Core(g1, d) == g1 && Core(g, d) == g;
    assert WfBody(g1, d, outer);
    assert Fits(x, g1);
    assert Live(g1, d, outer) == Live(g, d, outer);
    HoldsConstant(x, g1, d, k, r, outer);
  }

  /** The value is in `r`, and no register below `n` but `r` has changed. */
  ghost predicate InPlace(frame: Frame, after: Frame, v: Result, r: nat, n: nat) {
    && v.Ok? && n <= |frame| == |after| && r < |after| && after[r] == v.v
    && forall i :: 0 <= i < n && i != r ==> after[i] == frame[i]
  }

  /** The run of an expression whose value, when its end is reached, is in `r`; or, behind a
      comparison, is false. */
  ghost predicate TracksSettled(x: Context, g: Gen, d: Desc, r: nat, comparison: bool, outer: set<nat>, goal: Goal)
    requires Controlled(g.code, d.t) && Controlled(g.code, d.f)
  {
    SettledOutcome(g.code, g.here, d, Out(x, g.code, Live(g, d, outer)), r, comparison, outer, goal)
  }

  ghost predicate SettledOutcome(code: seq<Instr>, here: seq<nat>, d: Desc, o: Outcome, r: nat, comparison: bool,
                          outer: set<nat>, goal: Goal)
    requires Controlled(code, d.t) && Controlled(code, d.f)
  {
    match goal
    case Elsewhere(o0) => o == o0
    case Value(v, frame, n) =>
      && !o.Fault?
      && (o.Raised? ==> v.Raise?)
      && (Arrives(o, here) ==>
            if comparison then o.End? && v == Ok(Bool(false)) && Same(frame, o.frame, n)
            else InPlace(frame, o.frame, v, r, n))
      && (o.At? && o.jump !in here ==> Same(frame, o.frame, n))
      && (o.At? && o.jump in d.t ==> Exit(code, o.jump, o.frame, v, true))
      && (o.At? && o.jump in d.f ==> Exit(code, o.jump, o.frame, v, false))
      && (o.At? ==> o.jump !in outer)
  }

  lemma ExitKept(code: seq<Instr>, code': seq<Instr>, s: seq<nat>, pending: set<nat>,
                 j: nat, frame: Frame, v: Result, sense: bool)
    requires Controlled(code, s) && j in s && Elems(s) <= pending && Kept(code, code', pending)
    requires Exit(code, j, frame, v, sense)
    ensures 1 <= j < |code'| && Exit(code', j, frame, v, sense)
  {
    assert j in Elems(s);
  }

  /** Step one of expressionToRegister when the value is not a comparison. */
  lemma SettlePlain(x: Context, g: Gen, d: Desc, r: nat, outer: set<nat>, goal: Goal)
    requires WfBody(g, d, outer) && r < g.maxStack && !d.kind.KJump?
    requires Enters(x, g) && Fits(x, DischargeToRegister(g, d, r).0) && Fits(x, g)
    requires ProperGoal(x, goal, outer) && Tracks(x, g, d, outer, goal)
    ensures var g' := DischargeToRegister(g, d, r).0;
            && WfBody(g', Desc(KNonRelocatable(r), d.t, d.f), outer)
            && TracksSettled(x, g', Desc(KNonRelocatable(r), d.t, d.f), r, false, outer, goal)
  {
    DischargeHolds(x, g, d, r, outer);
    DischargeShape(g, d, r, outer);
    var g' := DischargeToRegister(g, d, r).0;
    var d' := Desc(KNonRelocatable(r), d.t, d.f);
    SettleOutcome(x, g, g', d, d', r, outer, goal);
  }

  lemma SettleOutcome(x: Context, g: Gen, g': Gen, d: Desc, d': Desc, r: nat, outer: set<nat>, goal: Goal)
    requires WfBody(g, d, outer) && r < g.maxStack && !d.kind.KJump? && Fits(x, g)
    requires d' == Desc(KNonRelocatable(r), d.t, d.f) && WfBody(g', d', outer)
    requires Kept(g.code, g'.code, Others(d, outer))
    requires Holds(x, g, g', d, r, outer)
    requires ProperGoal(x, goal, outer) && Tracks(x, g, d, outer, goal)
    ensures TracksSettled(x, g', d', r, false, outer, goal)
  {
    var o := Out(x, Core(g, d).code, Live(g, d, outer));
    var o' := Out(x, g'.code, Live(g', d', outer));
    assert Core(g', d') == g';
    if goal.Value? && o.At? {
      if o.jump in d.t {
        assert o.jump in Elems(d.t);
        ExitKept(g.code, g'.code, d.t, Others(d, outer), o.jump, o.frame, goal.v, true);
      }
      if o.jump in d.f {
        assert o.jump in Elems(d.f);
        ExitKept(g.code, g'.code, d.f, Others(d, outer), o.jump, o.frame, goal.v, false);
      }
      assert o.jump in g.here ==> o.jump in Elems(g.here);
      assert o.jump in g'.here ==> o.jump in Elems(g'.here);
    }
  }

  /** A comparison in place, with or without its condition inverted. */
  lemma JumpParts(x: Context, g: Gen, d: Desc, g1: Gen, outer: set<nat>)
    requires WfBody(g, d, outer) && d.kind.KJump? && Fits(x, g)
    requires g1 == g || g1 == InvertJump(g, d.kind.pc)
    ensures var pc, c := d.kind.pc, Core(g, d).code;
            && 1 <= pc < |g1.code| && g1.code[pc - 1].Compare? && g1.code[pc].Jump? && |c| + 1 == pc
            && g1.code == c + [g1.code[pc - 1], g1.code[pc]]
            && (forall frame: Frame :: |frame| == |x.frame| ==>
                  OperandReady(x.env, frame, g1.code[pc - 1].b) && OperandReady(x.env, frame, g1.code[pc - 1].c))
    ensures Live(g, d, outer) == Others(d, outer) && forall j :: j in Others(d, outer) ==> j + 1 < d.kind.pc
  {
    hide Settled, Apart, Controlled, Kept;
    JumpShape(g, d, outer);
    assert Elems([]) == {};
  }

  /** The jump of a comparison in place: taken when the comparison holds. */
  lemma JumpOutcome(x: Context, g: Gen, d: Desc, g1: Gen, outer: set<nat>)
    requires WfBody(g, d, outer) && d.kind.KJump? && Fits(x, g)
    requires g1 == g || g1 == InvertJump(g, d.kind.pc)
    ensures 1 <= d.kind.pc < |g1.code| && g1.code[d.kind.pc - 1].Compare?
    ensures var o := Out(x, Core(g, d).code, Live(g, d, outer));
            var o' := Out(x, g1.code, Others(d, outer) + {d.kind.pc});
            o.Fault? || if o.End? then
                          OperandReady(x.env, o.frame, g1.code[d.kind.pc - 1].b)
                          && OperandReady(x.env, o.frame, g1.code[d.kind.pc - 1].c)
                          && o' == (var v := TestValue(x.env, g1.code[d.kind.pc - 1], o.frame);
                                    if v.Raise? then Raised
                                    else if v.v.b then At(d.kind.pc, o.frame) else End(o.frame))
                        else o' == o
  {
    hide WfBody, WfGen, Kept, Fits, Out;
    JumpParts(x, g, d, g1, outer);
    var pc := d.kind.pc;
    var c := Core(g, d).code;
    var live := Others(d, outer);
    TestRun(x, c, g1.code[pc - 1], g1.code[pc], live);
    var o := Out(x, c, live);
    if o.End? {
      assert OperandReady(x.env, o.frame, g1.code[pc - 1].b) && OperandReady(x.env, o.frame, g1.code[pc - 1].c);
    }
  }

  lemma SettleJump(x: Context, g: Gen, d: Desc, r: nat, outer: set<nat>, goal: Goal)
    requires WfBody(g, d, outer) && r < g.maxStack && d.kind.KJump? && Fits(x, g)
    requires ProperGoal(x, goal, outer) && Tracks(x, g, d, outer, goal)
    ensures var (g', d') := Settle(g, d, r);
            WfBody(g', d', outer) && TracksSettled(x, g', d', r, true, outer, goal)
  {
    hide Controlled, WfGen, WfPending, Core, Concatenate, DischargeToRegister, Out, Settled, Kept;
    SettleJumpShape(g, d, r, outer);
    SettleJumpLinks(x, g, d, r, outer);
    var (g', d') := Settle(g, d, r);
    var o := Out(x, Core(g, d).code, Live(g, d, outer));
    if goal.Value? {
      JumpNotLive(g, d, o, outer);
      SettleJumpOutcome(g, g', d, o, outer, goal);
    }
    hide WfBody, Settle;
    JumpAfterTest(x, g, d, outer, goal);
  }

  lemma JumpAfterTest(x: Context, g: Gen, d: Desc, outer: set<nat>, goal: Goal)
    requires WfBody(g, d, outer) && d.kind.KJump? && Fits(x, g)
    requires ProperGoal(x, goal, outer) && Tracks(x, g, d, outer, goal)
    ensures var o := Out(x, Core(g, d).code, Live(g, d, outer));
            var o' := Out(x, g.code, Others(d, outer) + {d.kind.pc});
            && (goal.Elsewhere? ==> o' == goal.o)
            && (goal.Value? ==> AfterTest(g, d, o, o', goal))
  {
    JumpOutcome(x, g, d, g, outer);
  }

  lemma JumpNotLive(g: Gen, d: Desc, o: Outcome, outer: set<nat>)
    requires WfBody(g, d, outer) && d.kind.KJump?
    requires o.At? ==> o.jump < |Core(g, d).code|
    ensures o.At? ==> o.jump != d.kind.pc
  {
  }

  /** What the run does at the comparison that ends the expression. */
  ghost predicate AfterTest(g: Gen, d: Desc, o: Outcome, o': Outcome, goal: Goal)
    requires d.kind.KJump? && goal.Value?
  {
    if o.End? then
      o' == if goal.v.Raise? then Raised
            else if goal.v.v == Bool(true) then At(d.kind.pc, o.frame) else End(o.frame)
    else o' == o
  }

  lemma SettleJumpOutcome(g: Gen, g': Gen, d: Desc, o: Outcome, outer: set<nat>, goal: Goal)
    requires WfBody(g, d, outer) && d.kind.KJump? && goal.Value?
    requires d.kind.pc < |g'.code| == |g.code|
    requires forall i :: 0 <= i < |g.code| && !g.code[i].Jump? ==> g'.code[i] == g.code[i]
    requires Controlled(g'.code, d.t + [d.kind.pc]) && Controlled(g'.code, d.f)
    requires d.kind.pc !in d.f && d.kind.pc !in outer && (o.At? ==> o.jump != d.kind.pc)
    requires !o.Fault? && (o.Raised? ==> goal.v.Raise?)
    requires o.End? || o.At? ==> Same(goal.frame, o.frame, goal.n)
    requires o.End? ==> goal.v.Raise? || goal.v == Ok(Bool(true)) || goal.v == Ok(Bool(false))
    requires o.At? && o.jump in d.t ==> Exit(g.code, o.jump, o.frame, goal.v, true)
    requires o.At? && o.jump in d.f ==> Exit(g.code, o.jump, o.frame, goal.v, false)
    requires o.At? ==> o.jump !in outer
    ensures forall o' :: AfterTest(g, d, o, o', goal) ==>
              SettledOutcome(g'.code, [], Desc(d.kind, d.t + [d.kind.pc], d.f), o', 0, true, outer, goal)
  {
    assert !g'.code[d.kind.pc - 1].TestSet?;
    assert o.At? && (o.jump in d.t || o.jump in d.f) ==> g'.code[o.jump - 1] == g.code[o.jump - 1];
  }

  lemma SettleJumpLinks(x: Context, g: Gen, d: Desc, r: nat, outer: set<nat>)
    requires WfBody(g, d, outer) && r < g.maxStack && d.kind.KJump?
    ensures var (g', d') := Settle(g, d, r);
            && Out(x, g'.code, Live(g', d', outer)) == Out(x, g.code, Others(d, outer) + {d.kind.pc})
            && |g'.code| == |g.code|
            && (forall i :: 0 <= i < |g.code| && !g.code[i].Jump? ==> g'.code[i] == g.code[i])
            && d.kind.pc !in d.f && d.kind.pc !in outer && d.kind.pc in d'.t && g'.here == []
  {
    JumpShape(g, d, outer);
    var pc := d.kind.pc;
    var live := Others(d, outer) + {pc};
    ConcatenateShape(g, d.t, [pc], live);
    SettleList(outer, d.t, d.f, pc);
    var (g', d') := Settle(g, d, r);
    assert Live(g', d', outer) == live by { assert Elems([]) == {}; }
    assert pc in d.f ==> pc in Elems(d.f);
    LinkRun(x, g.code, g'.code, live);
  }

  // ---- Into a register ----

  /** The two LOADBOOLs behind the expression, and the jump over them. */
  lemma LoadTracks(x: Context, g: Gen, d: Desc, r: nat, comparison: bool, outer: set<nat>, goal: Goal)
    requires WfBody(g, d, outer) && d.kind == KNonRelocatable(r) && r < g.maxStack && Fits(x, g)
    requires comparison ==> g.here == []
    requires ProperGoal(x, goal, outer) && TracksSettled(x, g, d, r, comparison, outer, goal)
    ensures var (g3, jump) := if comparison then (g, []) else EmitJump(g);
            var g' := EmitLoads(g3, r, jump);
            && WfBody(g', d, outer)
            && TracksSettled(x, g', d, r, false, outer, goal)
  {
    hide WfBody, EmitJump, EmitLoads, Out, Fits;
    LoadRun(x, g, d, r, comparison, outer);
    LoadApart(g, d, outer);
    LoadOutcome(x, g, EmitLoads(if comparison then g else EmitJump(g).0, r, if comparison then [] else EmitJump(g).1), d,
                Out(x, g.code, Live(g, d, outer)), r, comparison, outer, goal);
  }

  lemma LoadRun(x: Context, g: Gen, d: Desc, r: nat, comparison: bool, outer: set<nat>)
    requires WfBody(g, d, outer) && d.kind == KNonRelocatable(r) && r < g.maxStack && Fits(x, g)
    requires comparison ==> g.here == []
    ensures var (g3, jump) := if comparison then (g, []) else EmitJump(g);
            var g' := EmitLoads(g3, r, jump);
            var o := Out(x, g.code, Live(g, d, outer));
            && Core(g, d) == g && Core(g', d) == g' && WfBody(g', d, outer) && r < |x.frame|
            && Controlled(g.code, d.t) && Controlled(g.code, d.f) && Controlled(g'.code, d.t) && Controlled(g'.code, d.f)
            && |g.code| <= |g'.code| && g'.code[..|g.code|] == g.code
            && g'.here == (if comparison then [] else [|g.code|] + g.here)
            && (o.Fault? || Out(x, g'.code, Live(g', d, outer))
                            == if !o.End? then o
                               else if comparison then End(o.frame[r := Bool(false)])
                               else At(|g.code|, o.frame))
  {
    hide Run, Next, Emit, PatchList, PatchToHere;
    LoadShape(g, d, r, outer, !comparison);
    var (g3, jump) := if comparison then (g, []) else EmitJump(g);
    var g' := EmitLoads(g3, r, jump);
    assert Core(g, d) == g;
    if comparison {
      LoadBehindComparison(x, g.code, g'.code, r, Live(g, d, outer));
      assert Live(g', d, outer) == Live(g, d, outer) by { assert g'.here == []; }
    } else {
      LoadBehindJump(x, g, d, g3, g'.code, outer);
    }
  }

  lemma LoadApart(g: Gen, d: Desc, outer: set<nat>)
    requires WfBody(g, d, outer) && d.kind.KNonRelocatable?
    ensures |g.code| !in d.t && |g.code| !in d.f && |g.code| !in outer
    ensures forall j :: j in g.here ==> j !in d.t && j !in d.f
  {
    assert Core(g, d) == g;
    assert |g.code| !in Live(g, d, outer);
    assert forall j :: j in d.t ==> j in Elems(d.t);
    assert forall j :: j in d.f ==> j in Elems(d.f);
    assert forall j :: j in g.here ==> j in Elems(g.here);
  }

  lemma LoadOutcome(x: Context, g: Gen, g': Gen, d: Desc, o: Outcome, r: nat, comparison: bool, outer: set<nat>, goal: Goal)
    requires Controlled(g.code, d.t) && Controlled(g.code, d.f)
    requires Controlled(g'.code, d.t) && Controlled(g'.code, d.f)
    requires |g.code| <= |g'.code| && g'.code[..|g.code|] == g.code && r < |x.frame|
    requires g'.here == (if comparison then [] else [|g.code|] + g.here) && (comparison ==> g.here == [])
    requires |g.code| !in d.t && |g.code| !in d.f && |g.code| !in outer
    requires forall j :: j in g.here ==> j !in d.t && j !in d.f
    requires ProperGoal(x, goal, outer) && (o.End? || o.At? ==> |o.frame| == |x.frame|)
    requires o.At? ==> o.jump < |g.code|
    requires SettledOutcome(g.code, g.here, d, o, r, comparison, outer, goal)
    ensures var o' := if !o.End? then o
                      else if comparison then End(o.frame[r := Bool(false)])
                      else At(|g.code|, o.frame);
            SettledOutcome(g'.code, g'.here, d, o', r, false, outer, goal)
  {
    if o.At? && goal.Value? {
      assert o.jump in d.t || o.jump in d.f ==> g'.code[o.jump - 1] == g'.code[..|g.code|][o.jump - 1];
    }
  }

  lemma LoadBehindComparison(x: Context, code: seq<Instr>, code': seq<Instr>, r: nat, live: set<nat>)
    requires code' == code + [LoadBool(r, 0, 1), LoadBool(r, 1, 0)] && r < |x.frame|
    requires forall j :: j in live ==> j < |code|
    ensures var o := Out(x, code, live);
            o.Fault? || Out(x, code', live) == if o.End? then End(o.frame[r := Bool(false)]) else o
  {
    RunAppend(x.env, code, [LoadBool(r, 0, 1), LoadBool(r, 1, 0)], x.pc, live, live, x.frame);
    var o := Out(x, code, live);
    if o.End? {
      assert Next(x.env, code', |code|, live, o.frame) == Goto(|code| + 2, o.frame[r := Bool(false)]);
    }
  }

  lemma LoadBehindJump(x: Context, g: Gen, d: Desc, g3: Gen, code': seq<Instr>, outer: set<nat>)
    requires WfBody(g, d, outer) && d.kind.KNonRelocatable?
    requires g3 == EmitJump(g).0 && g3.code <= code'
    ensures var o := Out(x, g.code, Live(g, d, outer));
            var (_, jump) := EmitJump(g);
            && jump == [|g.code|] + g.here
            && (o.Fault? || Out(x, code', outer + Elems(jump) + Elems(d.t) + Elems(d.f))
                            == if o.End? then At(|g.code|, o.frame) else o)
  {
    var (_, jump) := EmitJump(g);
    var p := Live(g, d, outer);
    var q := outer + Elems(jump) + Elems(d.t) + Elems(d.f);
    assert Core(g, d) == g;
    assert forall j :: j in jump <==> j == |g.code| || j in g.here;
    assert SamePending(|g.code|, p, q);
    assert code'[|g.code|].Jump? by { assert g3.code[|g.code|].Jump?; }
    assert code' == g.code + code'[|g.code|..] by {
      assert g3.code[..|g.code|] == g.code;
    }
    RunAppend(x.env, g.code, code'[|g.code|..], x.pc, p, q, x.frame);
    var o := Out(x, g.code, p);
    if o.End? {
      assert |g.code| in q by { assert |g.code| in jump; }
      assert |g.code| > 0 ==> code'[|g.code| - 1] == g.code[|g.code| - 1];
      assert Next(x.env, code', |g.code|, q, o.frame) == Stop(At(|g.code|, o.frame));
    }
  }

  // The instructions of both lists after patching.

  ghost function Destination(g: Gen, d: Desc, j: nat, loadFalse: int, loadTrue: int): int {
    if ControlIsTestSet(g.code, j) then |g.code| else if j in d.f then loadFalse else loadTrue
  }

  lemma PatchBothAt(g: Gen, d: Desc, r: nat, loadFalse: int, loadTrue: int, outer: set<nat>)
    requires WfBody(g, d, outer) && d.kind.KNonRelocatable? && !LosesExit(g.code, d, r)
    ensures var code' := PatchBoth(g, d, r, loadFalse, loadTrue).code;
            var s := Elems(d.t) + Elems(d.f);
            && |code'| == |g.code|
            && (forall j :: 0 <= j < |g.code| && j in s ==>
                  code'[j].Jump? && code'[j].sbx == Destination(g, d, j, loadFalse, loadTrue) - (j + 1))
            && (forall i :: 0 <= i < |g.code| && i !in s ==>
                  code'[i] == if g.code[i].TestSet? && i + 1 in s then
                                if r == g.code[i].b then Test(g.code[i].b, g.code[i].c)
                                else TestSet(r, g.code[i].b, g.code[i].c)
                              else g.code[i])
  {
    hide WfKind, Concatenate, ConditionalJump, DischargeToRegister, Emit, EmitJump, Encodable, Exit, Fits, Kept,
         Others, Out, Tracks, WfRegister, Controlled;
    var n := |g.code|;
    var g1 := PatchList(g, d.f, n, r, loadFalse);
    var code' := PatchBoth(g, d, r, loadFalse, loadTrue).code;
    forall i | 0 <= i < n
      ensures g1.code[i] == PatchAt(g.code, i, d.f, n, r, loadFalse)
      ensures code'[i] == PatchAt(g1.code, i, d.t, n, r, loadTrue)
    {
    }
    forall j | 0 <= j < n && j in Elems(d.t) + Elems(d.f)
      ensures code'[j].Jump? && code'[j].sbx == Destination(g, d, j, loadFalse, loadTrue) - (j + 1)
    {
      assert g.code[j].Jump?;
      if j in d.f {
        assert j in Elems(d.f);
        assert j !in d.t by { assert j in d.t ==> j in Elems(d.t); }
      } else {
        assert j in d.t;
        assert j !in Elems(d.f);
        assert j > 0 ==> (j - 1) + 1 !in d.f;
      }
    }
    forall i | 0 <= i < n && i !in Elems(d.t) + Elems(d.f)
      ensures code'[i] == if g.code[i].TestSet? && i + 1 in Elems(d.t) + Elems(d.f) then
                            if r == g.code[i].b then Test(g.code[i].b, g.code[i].c)
                            else TestSet(r, g.code[i].b, g.code[i].c)
                          else g.code[i]
    {
      assert i !in d.t && i !in d.f;
      assert i + 1 in Elems(d.t) + Elems(d.f) <==> i + 1 in d.t || i + 1 in d.f;
      assert i + 1 in d.f ==> i + 1 in Elems(d.f);
      assert i + 1 in d.t ==> i + 1 in Elems(d.t);
    }
  }

  /** Where the lists are sent: to the end when every exit brings its value along, to the two
      LOADBOOLs at the end otherwise. */
  ghost predicate Landings(g: Gen, d: Desc, r: nat, loadFalse: int, loadTrue: int) {
    || (forall j :: j in d.t || j in d.f ==> ControlIsTestSet(g.code, j))
    || (&& |g.code| >= 2 && loadFalse == |g.code| - 2 && loadTrue == |g.code| - 1
        && g.code[|g.code| - 2] == LoadBool(r, 0, 1) && g.code[|g.code| - 1] == LoadBool(r, 1, 0))
  }

  lemma PatchBothFrom(x: Context, g: Gen, d: Desc, r: nat, loadFalse: int, loadTrue: int, outer: set<nat>)
    requires WfBody(g, d, outer) && d.kind.KNonRelocatable? && !LosesExit(g.code, d, r) && r < |x.frame|
    ensures var code' := PatchBoth(g, d, r, loadFalse, loadTrue).code;
            var s := Elems(d.t) + Elems(d.f);
            && PatchedFrom(g.code, code', s)
            && forall j :: j in s && j < |g.code| ==> StoresInside(code', j, |x.frame|)
  {
    PatchBothAt(g, d, r, loadFalse, loadTrue, outer);
    var code' := PatchBoth(g, d, r, loadFalse, loadTrue).code;
    var s := Elems(d.t) + Elems(d.f);
    assert Core(g, d) == g;
    forall i | 0 <= i < |g.code|
      ensures PatchedInstr(g.code[i], code'[i], i, s)
    {
      assert i in s ==> i in Live(g, d, outer);
    }
    forall j | j in s && j < |g.code|
      ensures StoresInside(code', j, |x.frame|)
    {
      if j > 0 && code'[j - 1].TestSet? {
        assert j - 1 !in s;
        assert g.code[j - 1].TestSet? && (j - 1) + 1 in s;
      }
    }
  }

  /** From a patched exit the run gets to the end with the value in `r`. */
  lemma ExitLands(x: Context, g: Gen, d: Desc, r: nat, loadFalse: int, loadTrue: int, outer: set<nat>,
                  j: nat, frame: Frame, v: Result, live: set<nat>)
    requires WfBody(g, d, outer) && d.kind.KNonRelocatable? && !LosesExit(g.code, d, r) && r < |frame|
    requires Landings(g, d, r, loadFalse, loadTrue)
    requires j in d.t || j in d.f
    requires Exit(g.code, j, frame, v, j in d.t)
    requires forall k :: k in live ==> k < |g.code| && g.code[k].Jump?
    ensures 1 <= j < |g.code|
    ensures var code' := PatchBoth(g, d, r, loadFalse, loadTrue).code;
            && code'[j].Jump?
            && Resume(x.env, code', Follow(code', j, Stored(code', j, frame)), live) == End(frame[r := v.v])
  {
    hide PatchBoth, WfGen, Apart, Kept;
    PatchBothAt(g, d, r, loadFalse, loadTrue, outer);
    var code' := PatchBoth(g, d, r, loadFalse, loadTrue).code;
    var n := |g.code|;
    assert j in Elems(d.t) + Elems(d.f);
    assert j - 1 !in Elems(d.t) + Elems(d.f) by {
      assert g.code[j - 1].IsTest();
      assert Core(g, d) == g;
      assert forall k :: k in Elems(d.t) + Elems(d.f) ==> k in Live(g, d, outer);
    }
    if g.code[j - 1].TestSet? {
      assert (j - 1) + 1 in Elems(d.t) + Elems(d.f);
      assert Destination(g, d, j, loadFalse, loadTrue) == n;
      assert Stored(code', j, frame) == frame[r := v.v];
    } else {
      LoadLands(x, g, code', d, r, loadFalse, loadTrue, outer, j, frame, live);
    }
  }

  /** The run through the LOADBOOLs at the end of the code. */
  lemma RunLoads(x: Context, code: seq<Instr>, r: nat, live: set<nat>, frame: Frame)
    requires |code| >= 2 && r < |frame|
    requires code[|code| - 2] == LoadBool(r, 0, 1) && code[|code| - 1] == LoadBool(r, 1, 0)
    requires |code| - 2 !in live && |code| - 1 !in live
    ensures Run(x.env, code, |code| - 2, live, frame) == End(frame[r := Bool(false)])
    ensures Run(x.env, code, |code| - 1, live, frame) == End(frame[r := Bool(true)])
  {
    var n := |code|;
    assert Next(x.env, code, n - 1, live, frame) == Goto(n, frame[r := Bool(true)]);
    assert Next(x.env, code, n - 2, live, frame) == Goto(n, frame[r := Bool(false)]);
  }

  /** A jump without a value of its own goes to its LOADBOOL. */
  lemma LoadLandsAt(g: Gen, d: Desc, r: nat, loadFalse: int, loadTrue: int, outer: set<nat>, j: nat)
    requires WfBody(g, d, outer) && d.kind.KNonRelocatable? && !LosesExit(g.code, d, r)
    requires Landings(g, d, r, loadFalse, loadTrue)
    requires j in d.t || j in d.f
    requires !g.code[j - 1].TestSet?
    ensures var code', n := PatchBoth(g, d, r, loadFalse, loadTrue).code, |g.code|;
            && |code'| == n && 2 <= n && 1 <= j < n
            && code'[n - 2] == LoadBool(r, 0, 1) && code'[n - 1] == LoadBool(r, 1, 0)
            && !g.code[n - 2].Jump? && !g.code[n - 1].Jump?
            && code'[j - 1] == g.code[j - 1]
            && code'[j].Jump? && code'[j].sbx == (if j in d.t then n - 1 else n - 2) - (j + 1)
  {
    PatchBothAt(g, d, r, loadFalse, loadTrue, outer);
    NotListed(g, d, outer);
    assert j in Elems(d.t) + Elems(d.f);
    assert !ControlIsTestSet(g.code, j);
    assert j in d.t ==> j !in d.f by { assert j in d.t ==> j in Elems(d.t); assert j in d.f ==> j in Elems(d.f); }
  }

  lemma LoadLands(x: Context, g: Gen, code': seq<Instr>, d: Desc, r: nat, loadFalse: int, loadTrue: int, outer: set<nat>,
                  j: nat, frame: Frame, live: set<nat>)
    requires WfBody(g, d, outer) && d.kind.KNonRelocatable? && !LosesExit(g.code, d, r) && r < |frame|
    requires Landings(g, d, r, loadFalse, loadTrue)
    requires j in d.t || j in d.f
    requires !g.code[j - 1].TestSet?
    requires code' == PatchBoth(g, d, r, loadFalse, loadTrue).code
    requires forall k :: k in live ==> k < |g.code| && g.code[k].Jump?
    ensures code'[j].Jump?
    ensures Resume(x.env, code', Follow(code', j, Stored(code', j, frame)), live)
            == End(frame[r := Bool(j in d.t)])
  {
    hide WfBody, Landings, PatchBoth, Run;
    LoadLandsAt(g, d, r, loadFalse, loadTrue, outer, j);
    var n := |g.code|;
    RunLoads(x, code', r, live, frame);
    assert Stored(code', j, frame) == frame;
    assert Follow(code', j, frame) == Goto(if j in d.t then n - 1 else n - 2, frame);
  }

  /** Only jumps are in lists. */
  lemma NotListed(g: Gen, d: Desc, outer: set<nat>)
    requires WfBody(g, d, outer) && d.kind.KNonRelocatable?
    ensures forall i :: 0 <= i < |g.code| && !g.code[i].Jump? ==> i !in Elems(d.t) + Elems(d.f)
  {
    assert Core(g, d) == g;
    assert forall k :: k in Elems(d.t) + Elems(d.f) ==> k in Live(g, d, outer);
  }

  /** Patching both lists leaves the value in `r` on every way out. */
  lemma PatchBothTracks(x: Context, g: Gen, d: Desc, r: nat, loadFalse: int, loadTrue: int, outer: set<nat>, goal: Goal)
    requires WfBody(g, d, outer) && d.kind.KNonRelocatable? && !LosesExit(g.code, d, r) && r < |x.frame|
    requires Landings(g, d, r, loadFalse, loadTrue)
    requires ProperGoal(x, goal, outer) && TracksSettled(x, g, d, r, false, outer, goal)
    ensures TracksRegister(x, PatchBoth(g, d, r, loadFalse, loadTrue), r, outer, goal)
  {
    hide Settled, WfKind, Landings, Controlled, EndsInTest, OperandFits, Run;
    var g' := PatchBoth(g, d, r, loadFalse, loadTrue);
    var s := Elems(d.t) + Elems(d.f);
    var p := Live(g, d, outer);
    PatchBothFrom(x, g, d, r, loadFalse, loadTrue, outer);
    assert Core(g, d) == g;
    RunPatched(x.env, g.code, g'.code, x.pc, p, s, x.frame);
    assert p - s == outer + Elems(g.here);
    var o := Out(x, g.code, p);
    if goal.Value? && o.At? {
      assert o.jump in g.here <==> o.jump in Elems(g.here);
      if o.jump in s {
        ExitLands(x, g, d, r, loadFalse, loadTrue, outer, o.jump, o.frame, goal.v, p - s);
      }
    }
    if goal.Elsewhere? && o.At? {
      assert o.jump !in s;
    }
  }

  lemma SettleTracks(x: Context, g: Gen, d: Desc, r: nat, outer: set<nat>, goal: Goal)
    requires WfBody(g, d, outer) && r < g.maxStack && Enters(x, g)
    requires Fits(x, g) && Fits(x, Settle(g, d, r).0)
    requires ProperGoal(x, goal, outer) && Tracks(x, g, d, outer, goal)
    ensures var (g', d') := Settle(g, d, r);
            WfBody(g', d', outer) && TracksSettled(x, g', d', r, d.kind.KJump?, outer, goal)
  {
    hide WfBody, Tracks, TracksSettled;
    if d.kind.KJump? {
      SettleJump(x, g, d, r, outer, goal);
    } else {
      SettlePlain(x, g, d, r, outer, goal);
    }
  }

  lemma FinishLoads(x: Context, g: Gen, d: Desc, r: nat, comparison: bool, outer: set<nat>, goal: Goal)
    requires WfBody(g, d, outer) && d.kind == KNonRelocatable(r) && r < g.maxStack && Fits(x, g)
    requires comparison ==> g.here == []
    requires ProperGoal(x, goal, outer) && TracksSettled(x, g, d, r, comparison, outer, goal)
    requires var (g3, jump) := if comparison then (g, []) else EmitJump(g);
             !PatchBoth(EmitLoads(g3, r, jump), d, r, |g3.code|, |g3.code| + 1).lossy
    ensures var (g3, jump) := if comparison then (g, []) else EmitJump(g);
            TracksRegister(x, PatchBoth(EmitLoads(g3, r, jump), d, r, |g3.code|, |g3.code| + 1), r, outer, goal)
  {
    hide Run, Next, WfGen, Controlled, Landings;
    assert Fits(x, g) && r < |x.frame|;
    assert var (g3, jump) := if comparison then (g, []) else EmitJump(g); !LosesExit(EmitLoads(g3, r, jump).code, d, r);
    hide WfBody, TracksSettled, EmitLoads, EmitJump, PatchBoth, TracksRegister, Fits, Kept;
    LoadTracks(x, g, d, r, comparison, outer, goal);
    LoadShape(g, d, r, outer, !comparison);
    var (g3, jump) := if comparison then (g, []) else EmitJump(g);
    var g5 := EmitLoads(g3, r, jump);
    LandsBehind(g3, g5, d, r);
    PatchBothTracks(x, g5, d, r, |g3.code|, |g3.code| + 1, outer, goal);
  }

  lemma FinishDirect(x: Context, g: Gen, d: Desc, r: nat, outer: set<nat>, goal: Goal)
    requires WfBody(g, d, outer) && d.kind == KNonRelocatable(r) && r < g.maxStack && Fits(x, g)
    requires !NeedValue(g.code, d.t) && !NeedValue(g.code, d.f) && !PatchBoth(Label(g), d, r, -1, -1).lossy
    requires ProperGoal(x, goal, outer) && TracksSettled(x, g, d, r, false, outer, goal)
    ensures TracksRegister(x, PatchBoth(Label(g), d, r, -1, -1), r, outer, goal)
  {
    LabelShape(g, d, outer);
    LabelTracks(x, g, d, r, outer, goal);
    LandsAtEnd(g, d, r);
    hide WfBody, TracksSettled, PatchBoth, TracksRegister, Landings, NeedValue;
    PatchBothTracks(x, Label(g), d, r, -1, -1, outer, goal);
  }

  /** expressionToRegister: whichever way the expression is left, its value is in `r`. */
  lemma ExpressionToRegisterTracks(x: Context, g: Gen, d: Desc, r: nat, outer: set<nat>, goal: Goal)
    requires WfBody(g, d, outer) && r < g.maxStack && Enters(x, g)
    requires Fits(x, g) && Fits(x, ExpressionToRegister(g, d, r))
    requires ProperGoal(x, goal, outer) && Tracks(x, g, d, outer, goal)
    ensures TracksRegister(x, ExpressionToRegister(g, d, r), r, outer, goal)
  {
    hide WfBody, TracksSettled, Settle, EmitLoads, EmitJump, PatchBoth, Tracks, TracksRegister, NeedValue, Fits, Kept;
    var (g2, d2) := Settle(g, d, r);
    SettleShape(g, d, r, outer);
    FitsSettled(x, g, d, r);
    FitsLossless(x, ExpressionToRegister(g, d, r));
    SettleTracks(x, g, d, r, outer, goal);
    if !HasJumps(d2) {
      SettledRegister(x, g2, d2, r, outer, goal);
    } else if NeedValue(g2.code, d2.t) || NeedValue(g2.code, d2.f) {
      FinishLoads(x, g2, d2, r, d.kind.KJump?, outer, goal);
    } else {
      if d.kind.KJump? {
        ComparisonNeedsValue(g, d, r, outer);
      }
      FinishDirect(x, g2, d2, r, outer, goal);
    }
  }

  lemma FitsLossless(x: Context, g: Gen)
    requires Fits(x, g)
    ensures !g.lossy
  {
  }

  lemma FitsSettled(x: Context, g: Gen, d: Desc, r: nat)
    requires Fits(x, ExpressionToRegister(g, d, r))
    ensures Fits(x, Settle(g, d, r).0)
  {
    hide Settle, PatchBoth, EmitLoads, EmitJump, NeedValue;
  }

  lemma SettledRegister(x: Context, g: Gen, d: Desc, r: nat, outer: set<nat>, goal: Goal)
    requires WfBody(g, d, outer) && d.kind.KNonRelocatable? && !HasJumps(d)
    requires ProperGoal(x, goal, outer) && TracksSettled(x, g, d, r, false, outer, goal)
    ensures TracksRegister(x, g, r, outer, goal)
  {
    assert Elems([]) == {};
    assert Live(g, d, outer) == outer + Elems(g.here);
  }

  lemma LabelTracks(x: Context, g: Gen, d: Desc, r: nat, outer: set<nat>, goal: Goal)
    requires WfBody(g, d, outer) && TracksSettled(x, g, d, r, false, outer, goal)
    ensures TracksSettled(x, Label(g), d, r, false, outer, goal)
  {
    assert Live(Label(g), d, outer) == Live(g, d, outer);
  }

  lemma LandsBehind(g3: Gen, g: Gen, d: Desc, r: nat)
    requires g.code == g3.code + [LoadBool(r, 0, 1), LoadBool(r, 1, 0)]
    ensures Landings(g, d, r, |g3.code|, |g3.code| + 1)
  {
  }

  lemma LandsAtEnd(g: Gen, d: Desc, r: nat)
    requires !NeedValue(g.code, d.t) && !NeedValue(g.code, d.f)
    ensures Landings(Label(g), d, r, -1, -1)
  {
  }

  lemma ComparisonNeedsValue(g: Gen, d: Desc, r: nat, outer: set<nat>)
    requires WfBody(g, d, outer) && d.kind.KJump?
    ensures NeedValue(Settle(g, d, r).0.code, Settle(g, d, r).1.t)
  {
    var (g', d') := Settle(g, d, r);
    assert d.kind.pc in d'.t;
    assert !g'.code[d.kind.pc - 1].TestSet?;
  }

  // ---- Operands ----

  /** The run of code behind which an operand field denotes the value. */
  ghost predicate TracksOperand(x: Context, g: Gen, field: nat, outer: set<nat>, goal: Goal) {
    var o := Out(x, g.code, outer + Elems(g.here));
    match goal
    case Elsewhere(o0) => o == o0
    case Value(v, frame, n) =>
      && !o.Fault?
      && (o.Raised? ==> v.Raise?)
      && (o.At? ==> o.jump in g.here)
      && (o.End? || o.At? ==>
            && v.Ok? && Same(frame, o.frame, n)
            && OperandReady(x.env, o.frame, field) && Operand(x.env, o.frame, field) == v)
  }

  lemma RegisterOperand(x: Context, g: Gen, r: nat, outer: set<nat>, goal: Goal)
    requires TracksRegister(x, g, r, outer, goal) && r <= MAX_ARG_A
    requires goal.Value? ==> goal.n <= r
    ensures TracksOperand(x, g, r, outer, goal)
  {
  }

  lemma NextRegisterTracks(x: Context, g: Gen, d: Desc, outer: set<nat>, base: nat, goal: Goal)
    requires WfDesc(g, d, outer, base) && !d.kind.KLocal? && Enters(x, g)
    requires Fits(x, ExpressionToNextRegister(g, d).0) && ExpressionToNextRegister(g, d).1.kind.r < BIT_RK
    requires Fits(x, g) && ProperGoal(x, goal, outer) && Tracks(x, g, d, outer, goal)
    requires goal.Value? ==> goal.n <= base
    ensures var (g', d') := ExpressionToNextRegister(g, d);
            TracksOperand(x, g', d'.kind.r, outer, goal)
  {
    hide WfBody, WfGen, Tracks, TracksOperand, TracksRegister, ExpressionToRegister, Out, Fits, ProperGoal;
    ReservedTracks(x, g, d, outer, base, goal);
    var g1 := Reserve(FreeExpression(g, d), 1);
    ExpressionToRegisterTracks(x, g1, d, base, outer, goal);
    RegisterOperand(x, ExpressionToRegister(g1, d, base), base, outer, goal);
  }

  /** With the expression's own register freed and the next one reserved. */
  lemma ReservedTracks(x: Context, g: Gen, d: Desc, outer: set<nat>, base: nat, goal: Goal)
    requires WfDesc(g, d, outer, base) && !d.kind.KLocal? && Enters(x, g)
    requires Fits(x, ExpressionToNextRegister(g, d).0)
    requires Fits(x, g) && Tracks(x, g, d, outer, goal)
    ensures var g1 := Reserve(FreeExpression(g, d), 1);
            && g1.free == base + 1 && base < g1.maxStack && Enters(x, g1)
            && WfBody(g1, d, outer) && Fits(x, g1) && Tracks(x, g1, d, outer, goal)
            && Fits(x, ExpressionToRegister(g1, d, base))
  {
    hide WfBody, WfGen, Tracks, ExpressionToRegister, Out;
    var g1 := Reserve(FreeExpression(g, d), 1);
    FitsEarlier(x, g1, ExpressionToNextRegister(g, d).0);
    FreeShape(g, d, outer, base);
    ReserveShape(g, g1, d, outer);
    SameCodeTracks(x, g, g1, d, outer, goal);
  }

  lemma SameCodeTracks(x: Context, g: Gen, g1: Gen, d: Desc, outer: set<nat>, goal: Goal)
    requires WfBody(g, d, outer) && WfBody(g1, d, outer) && Fits(x, g) && Fits(x, g1)
    requires g1.code == g.code && g1.here == g.here && g1.constants == g.constants && g1.active == g.active
    requires Tracks(x, g, d, outer, goal)
    ensures Tracks(x, g1, d, outer, goal)
  {
    assert Core(g1, d).code == Core(g, d).code;
    assert Live(g1, d, outer) == Live(g, d, outer);
  }

  lemma DischargeVariablesTracks(x: Context, g: Gen, d: Desc, outer: set<nat>, goal: Goal)
    requires WfBody(g, d, outer) && WfBody(g, DischargeVariables(d), outer) && Fits(x, g)
    requires Tracks(x, g, d, outer, goal)
    ensures Tracks(x, g, DischargeVariables(d), outer, goal)
  {
    assert Core(g, d) == Core(g, DischargeVariables(d));
    assert Live(g, d, outer) == Live(g, DischargeVariables(d), outer);
  }

  /** An expression without jumps that is in place already. */
  lemma PlaceTracks(x: Context, g: Gen, g': Gen, d: Desc, field: nat, outer: set<nat>, goal: Goal)
    requires WfBody(g, d, outer) && Body(g, d) == |g.code| && !HasJumps(d) && Fits(x, g) && Fits(x, g')
    requires g'.code == g.code && g'.here == g.here
    requires Tracks(x, g, d, outer, goal)
    requires forall frame :: |frame| == |x.frame| ==>
               && OperandReady(x.env, frame, field)
               && Operand(x.env, frame, field) == KindValue(x, g, d, frame)
    ensures TracksOperand(x, g', field, outer, goal)
  {
    assert Core(g, d) == g;
    assert Elems([]) == {};
    assert Live(g, d, outer) == outer + Elems(g.here);
  }

  lemma AnyTracks(x: Context, g: Gen, d: Desc, outer: set<nat>, base: nat, goal: Goal)
    requires WfDesc(g, d, outer, base) && Enters(x, g)
    requires Fits(x, ExpressionToAnyRegister(g, d).0) && ExpressionToAnyRegister(g, d).1.kind.r < BIT_RK
    requires Fits(x, g) && ProperGoal(x, goal, outer) && Tracks(x, g, d, outer, goal)
    requires goal.Value? ==> goal.n <= base
    ensures var (g', d') := ExpressionToAnyRegister(g, d);
            TracksOperand(x, g', d'.kind.r, outer, goal)
  {
    DischargeVariablesShape(g, d, outer, base);
    DischargeVariablesTracks(x, g, d, outer, goal);
    var d1 := DischargeVariables(d);
    if d1.kind.KNonRelocatable? && !HasJumps(d1) {
      PlaceTracks(x, g, g, d1, d1.kind.r, outer, goal);
    } else if d1.kind.KNonRelocatable? && d1.kind.r >= g.active {
      assert d1.kind.r == base && base < g.maxStack;
      hide WfBody, Tracks, TracksOperand, TracksRegister, ExpressionToRegister;
      ExpressionToRegisterTracks(x, g, d1, base, outer, goal);
      RegisterOperand(x, ExpressionToRegister(g, d1, base), base, outer, goal);
    } else {
      hide ExpressionToNextRegister;
      NextRegisterTracks(x, g, d1, outer, base, goal);
    }
  }

  lemma ConstantTracks(x: Context, g: Gen, d: Desc, v: Value, outer: set<nat>, goal: Goal)
    requires WfBody(g, d, outer) && Body(g, d) == |g.code| && !HasJumps(d) && Fits(x, g)
    requires AddConstant(g, v).1 <= MAX_INDEX_RK && Fits(x, AddConstant(g, v).0)
    requires forall frame :: |frame| == |x.frame| ==> KindValue(x, g, d, frame) == Ok(v)
    requires Tracks(x, g, d, outer, goal)
    ensures TracksOperand(x, AddConstant(g, v).0, AddConstant(g, v).1 + BIT_RK, outer, goal)
  {
    var (g', k) := AddConstant(g, v);
    ConstantCode(g, v);
    assert x.env.k[k] == v;
    hide AddConstant, Tracks, WfBody, TracksOperand;
    PlaceTracks(x, g, g', d, k + BIT_RK, outer, goal);
  }

  lemma StableConstantTracks(x: Context, g: Gen, d: Desc, outer: set<nat>, goal: Goal)
    requires WfBody(g, d, outer) && !HasJumps(d) && Fits(x, g) && d.kind.KConstant? && d.kind.k <= MAX_INDEX_RK
    requires Tracks(x, g, d, outer, goal)
    ensures TracksOperand(x, g, d.kind.k + BIT_RK, outer, goal)
  {
    PlaceTracks(x, g, g, d, d.kind.k + BIT_RK, outer, goal);
  }

  lemma NumberTracks(x: Context, g: Gen, d: Desc, bits: nat, outer: set<nat>, base: nat, goal: Goal)
    requires WfDesc(g, d, outer, base) && d.kind == KNumber(bits) && Enters(x, g)
    requires var (g2, k) := AddConstant(g, Number(bits));
             Fits(x, Register(g2, d.(kind := KConstant(k))).0)
    requires Fits(x, g) && ProperGoal(x, goal, outer) && Tracks(x, g, d, outer, goal)
    requires goal.Value? ==> goal.n <= base
    ensures var (g2, k) := AddConstant(g, Number(bits));
            var (g', d', r) := Register(g2, d.(kind := KConstant(k)));
            TracksOperand(x, g', r, outer, goal)
  {
    hide WfPending, Out, ExpressionToAnyRegister, TracksOperand, WfRegister;
    var (g2, k) := AddConstant(g, Number(bits));
    var d2 := d.(kind := KConstant(k));
    NumberShape(g, d, bits, outer, base);
    FitsEarlier(x, g2, ExpressionToAnyRegister(g2, d2).0);
    assert Core(g2, d2).code == Core(g, d).code;
    assert Live(g2, d2, outer) == Live(g, d, outer);
    assert Tracks(x, g2, d2, outer, goal);
    AnyTracks(x, g2, d2, outer, base, goal);
  }

  lemma PlainOperandTracks(x: Context, g: Gen, d: Desc, outer: set<nat>, base: nat, goal: Goal)
    requires WfDesc(g, d, outer, base) && !HasJumps(d) && !d.kind.KLocal? && Enters(x, g)
    requires Fits(x, ExpressionToOperand(g, d).0)
    requires Fits(x, g) && ProperGoal(x, goal, outer) && Tracks(x, g, d, outer, goal)
    requires goal.Value? ==> goal.n <= base
    ensures var (g', _, field) := ExpressionToOperand(g, d); TracksOperand(x, g', field, outer, goal)
  {
    hide WfBody, Tracks, TracksOperand, ExpressionToAnyRegister, AddConstant, WfRegister;
    match d.kind
    case KTrue =>
      if |g.constants| <= MAX_INDEX_RK {
        ConstantIndex(g, Bool(true));
        ConstantTracks(x, g, d, Bool(true), outer, goal);
      } else {
        AnyTracks(x, g, d, outer, base, goal);
      }
    case KFalse =>
      if |g.constants| <= MAX_INDEX_RK {
        ConstantIndex(g, Bool(false));
        ConstantTracks(x, g, d, Bool(false), outer, goal);
      } else {
        AnyTracks(x, g, d, outer, base, goal);
      }
    case KNil =>
      if |g.constants| <= MAX_INDEX_RK {
        ConstantIndex(g, Nil);
        ConstantTracks(x, g, d, Nil, outer, goal);
      } else {
        AnyTracks(x, g, d, outer, base, goal);
      }
    case KNumber(bits) =>
      var (g2, k) := AddConstant(g, Number(bits));
      if k <= MAX_INDEX_RK {
        ConstantTracks(x, g, d, Number(bits), outer, goal);
      } else {
        NumberTracks(x, g, d, bits, outer, base, goal);
      }
    case KConstant(k) =>
      if k <= MAX_INDEX_RK {
        StableConstantTracks(x, g, d, outer, goal);
      } else {
        AnyTracks(x, g, d, outer, base, goal);
      }
    case KRelocatable(_) => AnyTracks(x, g, d, outer, base, goal);
    case KJump(_) => AnyTracks(x, g, d, outer, base, goal);
    case KNonRelocatable(_) => AnyTracks(x, g, d, outer, base, goal);
  }

  lemma OperandTracks(x: Context, g: Gen, d: Desc, outer: set<nat>, base: nat, goal: Goal)
    requires WfDesc(g, d, outer, base) && Enters(x, g)
    requires Fits(x, ExpressionToOperand(g, d).0)
    requires Fits(x, g) && ProperGoal(x, goal, outer) && Tracks(x, g, d, outer, goal)
    requires goal.Value? ==> goal.n <= base
    ensures var (g', _, field) := ExpressionToOperand(g, d); TracksOperand(x, g', field, outer, goal)
  {
    hide WfBody, Tracks, TracksOperand, ExpressionToAnyRegister, AddConstant, WfRegister;
    if HasJumps(d) {
      var (g1, d1) := ExpressionToAnyRegister(g, d);
      RegisterStable(g1, d1);
      AnyTracks(x, g, d, outer, base, goal);
    } else {
      DischargeVariablesShape(g, d, outer, base);
      DischargeVariablesTracks(x, g, d, outer, goal);
      PlainOperandTracks(x, g, DischargeVariables(d), outer, base, goal);
    }
  }

  // ---- Conditions ----

  lemma AnyRegisterTracks(x: Context, g: Gen, d: Desc, outer: set<nat>, base: nat, goal: Goal)
    requires WfDesc(g, d, outer, base) && !d.kind.KLocal? && !d.kind.KJump? && Enters(x, g)
    requires Fits(x, g) && Fits(x, DischargeToAnyRegister(g, d).0)
    requires ProperGoal(x, goal, outer) && Tracks(x, g, d, outer, goal)
    requires goal.Value? ==> goal.n <= base
    ensures var (g', d') := DischargeToAnyRegister(g, d);
            WfDesc(g', d', outer, base) && Tracks(x, g', d', outer, goal)
  {
    hide DischargeToRegister, Emit, Kept, WfGen;
    AnyRegisterShape(g, d, outer, base);
    if !d.kind.KNonRelocatable? {
      var g1 := Reserve(g, 1);
      var (g', d') := DischargeToAnyRegister(g, d);
      FitsEarlier(x, g1, g');
      ReserveShape(g, g1, d, outer);
      SameCodeTracks(x, g, g1, d, outer, goal);
      SettlePlain(x, g1, d, base, outer, goal);
      assert Core(g', d') == g';
      hide WfBody;
      SettledTracks(x, g', d', base, outer, goal);
    }
  }

  lemma SettledTracks(x: Context, g: Gen, d: Desc, r: nat, outer: set<nat>, goal: Goal)
    requires WfBody(g, d, outer) && d.kind == KNonRelocatable(r) && Fits(x, g)
    requires TracksSettled(x, g, d, r, false, outer, goal)
    requires goal.Value? ==> goal.n <= r
    ensures Tracks(x, g, d, outer, goal)
  {
    assert Core(g, d) == g;
  }

  /** A run between an expression and the jump away from it: `stay` and the jump at `pc` leave
      when its truth is `sense`, `gone` when it is the opposite. */
  ghost predicate AwayOutcome(code: seq<Instr>, o: Outcome, pc: nat, stay: seq<nat>, gone: seq<nat>, sense: bool,
                              outer: set<nat>, goal: Goal)
    requires Controlled(code, stay) && 1 <= pc <= |code|
  {
    match goal
    case Elsewhere(o0) => o == o0
    case Value(v, frame, n) =>
      && !o.Fault?
      && (o.Raised? ==> v.Raise?)
      && (o.End? || o.At? ==> Same(frame, o.frame, n))
      && (o.End? || (o.At? && o.jump in gone) ==> v.Ok? && Truthy(v.v) != sense)
      && (o.At? && o.jump in stay ==> Exit(code, o.jump, o.frame, v, sense))
      && (o.At? && o.jump == pc ==> Exit(code, pc, o.frame, v, sense))
      && (o.At? ==> o.jump !in outer)
  }

  ghost function Stay(d: Desc, sense: bool): seq<nat> { if sense then d.t else d.f }
  ghost function Gone(d: Desc, sense: bool): seq<nat> { if sense then d.f else d.t }

  /** What goIfTrue and goIfFalse do once the jump away is there. */
  lemma SplitAway(x: Context, g: Gen, d: Desc, g1: Gen, pc: nat, sense: bool, outer: set<nat>, base: nat, goal: Goal)
    requires WfBody(g, d, outer) && JumpedAway(g, d, g1, pc, outer, base)
    requires Controlled(g1.code, Stay(d, sense))
    requires AwayOutcome(g1.code, Out(x, g1.code, Others(d, outer) + {pc}), pc, Stay(d, sense), Gone(d, sense), sense, outer, goal)
    ensures var g' := PatchToHere(Concatenate(g1, Stay(d, sense), [pc]), Gone(d, sense));
            && WfSplit(g', Stay(d, sense) + [pc], outer, base)
            && TracksSplit(x, g', Stay(d, sense) + [pc], sense, outer, goal)
  {
    hide Settled, WfKind, Linked, Patched, WfGen, Kept, Decide, WfSplit, Live;
    var stay, gone := Stay(d, sense), Gone(d, sense);
    SplitJumpShape(g, d, g1, pc, stay, gone, outer, base);
    SplitAwayLinks(x, g, d, g1, pc, sense, outer);
    var g' := PatchToHere(Concatenate(g1, stay, [pc]), gone);
    var o := Out(x, g1.code, Others(d, outer) + {pc});
    assert Others(d, outer) + {pc} == outer + Elems(stay + [pc]) + Elems(g'.here);
    if goal.Value? && o.At? {
      assert o.jump in stay + [pc] <==> o.jump in stay || o.jump == pc;
      assert o.jump in stay ==> g'.code[o.jump - 1] == g1.code[o.jump - 1];
      assert g'.code[pc - 1] == g1.code[pc - 1];
    }
  }

  lemma SplitAwayLinks(x: Context, g: Gen, d: Desc, g1: Gen, pc: nat, sense: bool, outer: set<nat>)
    requires WfBody(g, d, outer) && JumpedAway(g, d, g1, pc, outer, g1.free)
    requires Controlled(g1.code, Stay(d, sense))
    ensures var stay, gone := Stay(d, sense), Gone(d, sense);
            var g' := PatchToHere(Concatenate(g1, stay, [pc]), gone);
            && Out(x, g'.code, Others(d, outer) + {pc}) == Out(x, g1.code, Others(d, outer) + {pc})
            && TestsKept(g1.code, g'.code) && g'.here == gone
            && Elems(stay + [pc]) == Elems(stay) + {pc}
  {
    hide WfGen, EndsInTest, WfPending, Kept;
    var stay, gone := Stay(d, sense), Gone(d, sense);
    SplitJumpReady(g, d, g1, pc, stay, gone, outer);
    SplitJumpApart(g, d, g1, pc, stay, gone, outer);
    SplitShape(g1, stay, [pc], gone, outer, g1.free);
    SingleList(pc);
    var g' := PatchToHere(Concatenate(g1, stay, [pc]), gone);
    assert outer + Elems(stay) + Elems(gone) + Elems([pc]) + Elems(g1.here) == Others(d, outer) + {pc};
    LinkRun(x, g1.code, g'.code, Others(d, outer) + {pc});
  }

  /** The expressions whose truth is known need no jump. */
  lemma SplitKnown(x: Context, g: Gen, d: Desc, sense: bool, outer: set<nat>, base: nat, goal: Goal)
    requires WfDesc(g, d, outer, base) && Body(g, d) == |g.code| && g.free == base && Fits(x, g)
    requires Tracks(x, g, d, outer, goal)
    requires forall frame :: |frame| == |x.frame| ==>
               KindValue(x, g, d, frame).Ok? && Truthy(KindValue(x, g, d, frame).v) != sense
    ensures var g' := PatchToHere(Concatenate(g, Stay(d, sense), []), Gone(d, sense));
            && WfSplit(g', Stay(d, sense) + [], outer, base)
            && TracksSplit(x, g', Stay(d, sense) + [], sense, outer, goal)
  {
    hide WfGen, Concatenate, Out, Distinct, OperandFits;
    var stay, gone := Stay(d, sense), Gone(d, sense);
    SplitPlainShape(g, d, stay, gone, outer, base);
    SplitKnownLinks(x, g, d, sense, outer);
    var g' := PatchToHere(Concatenate(g, stay, []), gone);
    assert stay + [] == stay;
    assert Live(g, d, outer) == outer + Elems(stay) + Elems(g'.here);
    assert Core(g, d) == g;
    var o := Out(x, g.code, Live(g, d, outer));
    if goal.Value? && o.At? {
      assert o.jump in stay ==> g'.code[o.jump - 1] == g.code[o.jump - 1];
    }
  }

  lemma SplitKnownLinks(x: Context, g: Gen, d: Desc, sense: bool, outer: set<nat>)
    requires WfBody(g, d, outer) && Body(g, d) == |g.code|
    ensures var stay, gone := Stay(d, sense), Gone(d, sense);
            var g' := PatchToHere(Concatenate(g, stay, []), gone);
            && Out(x, g'.code, Live(g, d, outer)) == Out(x, g.code, Live(g, d, outer))
            && TestsKept(g.code, g'.code) && g'.here == g.here + gone
            && Elems(g'.here) == Elems(g.here) + Elems(gone)
  {
    var stay, gone := Stay(d, sense), Gone(d, sense);
    assert Core(g, d) == g;
    assert Elems([]) == {};
    assert outer + Elems(stay) + Elems(gone) + Elems([]) + Elems(g.here) == Live(g, d, outer);
    SplitShape(g, stay, [], gone, outer, g.free);
    var g' := PatchToHere(Concatenate(g, stay, []), gone);
    LinkRun(x, g.code, g'.code, Live(g, d, outer));
  }
}
