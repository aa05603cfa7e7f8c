/**
  What each step of the code generator does to runs. The runs are those of one context `x`,
  any constants and comparisons, any entry point and any register contents; a lemma compares
  the run of the code before a step with the run of the code behind it.
 */
module LuaRuns {
  import opened LuaMachine
  import opened LuaGenerator
  import opened LuaShape

  datatype Context = Context(env: Env, pc: nat, frame: Frame)

  ghost function Out(x: Context, code: seq<Instr>, live: set<nat>): (o: Outcome)
    ensures o.End? || o.At? ==> |o.frame| == |x.frame|
    ensures o.At? ==> o.jump < |code| && o.jump in live
  {
    Run(x.env, code, x.pc, live, x.frame)
  }

  /** The context has the constants and the registers of the function, and the generator has not
      met a limit of the instructions. */
  ghost predicate Fits(x: Context, g: Gen) {
    && g.constants <= x.env.k
    && g.maxStack <= |x.frame|
    && !g.lossy
  }

  /** The run enters before the next instruction, or at it through a label. */
  ghost predicate Enters(x: Context, g: Gen) {
    x.pc < |g.code| || x.pc <= g.lastTarget
  }

  lemma FitsEarlier(x: Context, g: Gen, g': Gen)
    requires Fits(x, g') && Grows(g, g')
    ensures Fits(x, g)
  {
  }

  /** The run gets to the next instruction. */
  ghost predicate Arrives(o: Outcome, here: seq<nat>) {
    o.End? || (o.At? && o.jump in here)
  }

  // ---- Emitting ----

  lemma DischargeRun(x: Context, g: Gen, live: set<nat>)
    requires WfGen(g, live + Elems(g.here)) && live !! Elems(g.here)
    ensures var code' := Patched(g.code, g.here, |g.code|, NO_REGISTER, |g.code|);
            var o := Out(x, g.code, live + Elems(g.here));
            o.Fault? || Out(x, code', live) == if Arrives(o, g.here) then End(o.frame) else o
  {
    var n := |g.code|;
    var code' := Patched(g.code, g.here, n, NO_REGISTER, n);
    var s := Elems(g.here);
    var p := live + s;
    forall i | 0 <= i < n
      ensures PatchedInstr(g.code[i], code'[i], i, s)
    {
      assert code'[i] == PatchAt(g.code, i, g.here, n, NO_REGISTER, n);
      assert i in s ==> i in p;
    }
    forall j | j in s && j < n
      ensures StoresInside(code', j, |x.frame|)
    {
      if j > 0 {
        assert code'[j - 1] == PatchAt(g.code, j - 1, g.here, n, NO_REGISTER, n);
      }
    }
    RunPatched(x.env, g.code, code', x.pc, p, s, x.frame);
    assert p - s == live;
    var o := Out(x, g.code, p);
    if o.At? && o.jump in s {
      var j := o.jump;
      assert code'[j] == PatchAt(g.code, j, g.here, n, NO_REGISTER, n);
      if j > 0 {
        assert code'[j - 1] == PatchAt(g.code, j - 1, g.here, n, NO_REGISTER, n);
      }
      assert Stored(code', j, o.frame) == o.frame;
      assert Follow(code', j, o.frame) == Goto(n, o.frame);
    }
  }

  /** An ordinary instruction is executed by exactly the runs that get to it. */
  lemma EmitRun(x: Context, g: Gen, i: Instr, live: set<nat>)
    requires WfGen(g, live + Elems(g.here)) && live !! Elems(g.here)
    requires IsPlain(i) && PlainReady(x.env, i, |x.frame|)
    ensures var o := Out(x, g.code, live + Elems(g.here));
            o.Fault? || Out(x, Emit(g, i).code, live)
                        == if Arrives(o, g.here) then End(Execute(x.env, i, o.frame)) else o
  {
    DischargeRun(x, g, live);
    var n := |g.code|;
    var code' := Patched(g.code, g.here, n, NO_REGISTER, n);
    AppendRun(x, code', i, live);
  }

  lemma AppendRun(x: Context, code: seq<Instr>, i: Instr, live: set<nat>)
    requires IsPlain(i) && PlainReady(x.env, i, |x.frame|)
    requires forall j :: j in live ==> j < |code|
    ensures var o := Out(x, code, live);
            o.Fault? || Out(x, code + [i], live) == if o.End? then End(Execute(x.env, i, o.frame)) else o
  {
    RunAppend(x.env, code, [i], x.pc, live, live, x.frame);
    var o := Out(x, code, live);
    if o.End? {
      assert |code| !in live;
      assert Next(x.env, code + [i], |code|, live, o.frame) == Goto(|code| + 1, Execute(x.env, i, o.frame));
    }
  }

  /** What a test makes of a run that gets to it. */
  ghost function Decided(env: Env, i: Instr, pc: nat, frame: Frame): Outcome
    requires i.IsTest()
  {
    match Decide(env, i, frame)
    case Taken => At(pc, frame)
    case Skipped => End(frame)
    case BranchRaises => Raised
    case BranchFaults => Fault
  }

  lemma TestRun(x: Context, code: seq<Instr>, i: Instr, j: Instr, live: set<nat>)
    requires i.IsTest() && j.Jump? && forall k :: k in live ==> k < |code|
    ensures var o := Out(x, code, live);
            o.Fault? || Out(x, code + [i, j], live + {|code| + 1})
                        == if o.End? then Decided(x.env, i, |code| + 1, o.frame) else o
  {
    var p := live + {|code| + 1};
    var code' := code + [i, j];
    RunAppend(x.env, code, [i, j], x.pc, live, p, x.frame);
    var o := Out(x, code, live);
    if o.End? {
      assert |code| !in p && code'[|code|] == i && code'[|code| + 1].Jump?;
      if Decide(x.env, i, o.frame).Skipped? {
        assert Next(x.env, code', |code|, p, o.frame) == Goto(|code| + 2, o.frame);
      }
    }
  }

  lemma ConditionalJumpRun(x: Context, g: Gen, i: Instr, live: set<nat>)
    requires WfGen(g, live + Elems(g.here)) && live !! Elems(g.here) && i.IsTest()
    ensures var o := Out(x, g.code, live + Elems(g.here));
            var (g', pc) := ConditionalJump(g, i);
            o.Fault? || Out(x, g'.code, live + {pc})
                        == if Arrives(o, g.here) then Decided(x.env, i, pc, o.frame) else o
  {
    DischargeRun(x, g, live);
    var n := |g.code|;
    var code' := Patched(g.code, g.here, n, NO_REGISTER, n);
    TestRun(x, code', i, Jump(0, -1), live);
    var (g', pc) := ConditionalJump(g, i);
    assert g'.code == code' + [i, Jump(0, -1)];
  }

  /** The last instruction is a LOADNIL that the new one joins. */
  predicate Merges(g: Gen, r: nat) {
    |g.code| > g.lastTarget && g.code[|g.code| - 1].LoadNil? && Connects(g.code[|g.code| - 1], r, 1)
  }

  lemma UnmergedNil(g: Gen, r: nat)
    requires !Merges(g, r)
    ensures EmitLoadNil(g, r, 1) == Emit(g, LoadNil(r, 0))
  {
  }

  function Merged(i: Instr, r: nat): (i': Instr)
    requires i.LoadNil?
  {
    LoadNil(Min(r, i.a), Max(r, i.a + i.b) - Min(r, i.a))
  }

  lemma MergedNilCode(g: Gen, r: nat, live: set<nat>)
    requires WfGen(g, live + Elems(g.here)) && Merges(g, r) && !EmitLoadNil(g, r, 1).lossy
    ensures var last := |g.code| - 1;
            && g.here == [] && last !in live && OnlyFallsOut(g.code, live)
            && EmitLoadNil(g, r, 1).code == g.code[..last] + [Merged(g.code[last], r)]
  {
    assert live + Elems(g.here) == live;
    assert !g.code[|g.code| - 1].Jump?;
  }

  lemma MergedNilRun(x: Context, g: Gen, r: nat, live: set<nat>)
    requires WfGen(g, live + Elems(g.here)) && r < |x.frame| && Enters(x, g) && Merges(g, r)
    requires !EmitLoadNil(g, r, 1).lossy
    ensures var o := Out(x, g.code, live + Elems(g.here));
            o.Fault? || Out(x, EmitLoadNil(g, r, 1).code, live)
                        == if Arrives(o, g.here) then End(o.frame[r := Nil]) else o
  {
    hide WfGen, EmitLoadNil, OnlyFallsOut, Merged, Connects, Next, Execute;
    MergedNilCode(g, r, live);
    assert live + Elems(g.here) == live;
    var last := |g.code| - 1;
    var prev := g.code[last];
    var init, merged := g.code[..last], Merged(prev, r);
    RunSplit(x.env, g.code, x.pc, live, x.frame);
    RunAppend(x.env, init, [merged], x.pc, live, live, x.frame);
    var o := Out(x, init, live);
    if o.End? {
      NilNext(x.env, g.code, live, o.frame);
      if PlainReady(x.env, prev, |o.frame|) {
        MergedClears(x.env, prev, r, o.frame);
        NilNext(x.env, init + [merged], live, o.frame);
      }
    }
  }

  lemma NilNext(env: Env, code: seq<Instr>, live: set<nat>, frame: Frame)
    requires |code| > 0 && code[|code| - 1].LoadNil? && |code| - 1 !in live
    ensures var i := code[|code| - 1];
            Next(env, code, |code| - 1, live, frame)
            == if PlainReady(env, i, |frame|) then Goto(|code|, Execute(env, i, frame)) else Stop(Fault)
  {
    hide Decide, Execute;
  }

  lemma MergedClears(env: Env, i: Instr, r: nat, frame: Frame)
    requires i.LoadNil? && Connects(i, r, 1) && r < |frame| && PlainReady(env, i, |frame|)
    ensures Merged(i, r).LoadNil? && PlainReady(env, Merged(i, r), |frame|)
    ensures Execute(env, Merged(i, r), frame) == Execute(env, i, frame)[r := Nil]
  {
  }

  /** LOADNIL, whether emitted or merged into the one before. */
  lemma EmitLoadNilRun(x: Context, g: Gen, r: nat, live: set<nat>)
    requires WfGen(g, live + Elems(g.here)) && live !! Elems(g.here)
    requires r < |x.frame| && Enters(x, g) && !EmitLoadNil(g, r, 1).lossy
    ensures var o := Out(x, g.code, live + Elems(g.here));
            o.Fault? || Out(x, EmitLoadNil(g, r, 1).code, live)
                        == if Arrives(o, g.here) then End(o.frame[r := Nil]) else o
  {
    hide WfGen, Out, Enters, EmitLoadNil;
    if Merges(g, r) {
      MergedNilRun(x, g, r, live);
    } else {
      assert EmitLoadNil(g, r, 1) == Emit(g, LoadNil(r, 0)) by { UnmergedNil(g, r); }
      EmitRun(x, g, LoadNil(r, 0), live);
      var o := Out(x, g.code, live + Elems(g.here));
      if Arrives(o, g.here) {
        assert Execute(x.env, LoadNil(r, 0), o.frame) == o.frame[r := Nil];
      }
    }
  }

  /** Threading a list through pending jumps changes no run. */
  lemma LinkRun(x: Context, code: seq<Instr>, code': seq<Instr>, live: set<nat>)
    requires TestsKept(code, code')
    requires forall i :: 0 <= i < |code| && code'[i] != code[i] ==> i in live
    ensures Out(x, code', live) == Out(x, code, live)
  {
    RunRelinked(x.env, code, code', x.pc, live, x.frame);
  }
}
