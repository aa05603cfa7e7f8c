/**
  The part of the Lua virtual machine that short-circuit expressions are compiled to: the
  instructions MOVE, LOADK, LOADBOOL, LOADNIL, NOT, JMP, EQ, LT, LE, TEST and TESTSET,
  over registers holding nil, booleans, numbers and strings.

  `Run` executes code from one pc until it reaches the end of the code, or a *pending* jump:
  one whose destination the code generator has not filled in yet.
 */
module LuaMachine {

  /** A number is its 64-bit pattern; what the comparisons make of it is left to `Env`. */
  datatype Value = Nil | Bool(b: bool) | Number(bits: nat) | Str(s: string)

  predicate IsFalse(v: Value) {
    v == Nil || v == Bool(false)
  }

  predicate Truthy(v: Value) {
    !IsFalse(v)
  }

  datatype Relation = Equal | LessThan | LessOrEqual

  /** The outcome of evaluating: a value, or a Lua run-time error. */
  datatype Result = Ok(v: Value) | Raise

  datatype Instr =
    | Move(a: nat, b: nat)
    | LoadConstant(a: nat, bx: nat)
    | LoadBool(a: nat, b: nat, c: nat)
    | LoadNil(a: nat, b: nat)
    | Not(a: nat, b: nat)
    | Jump(a: nat, sbx: int)
    | Compare(rel: Relation, a: nat, b: nat, c: nat)
    | Test(a: nat, c: nat)
    | TestSet(a: nat, b: nat, c: nat)
    | ExtraArg(ax: nat)
  {
    /** The instructions that decide whether the jump behind them is taken. */
    predicate IsTest() {
      Compare? || Test? || TestSet?
    }
  }

  const BIT_RK := 256
  const MAX_ARG_A := 255
  const MAX_ARG_B := 511
  const MAX_ARG_BX := 0x3FFFF
  const MAX_ARG_SBX := 0x1FFFF

  /** The constants of the running function, and the meaning of the three comparisons.
      A comparison may raise (`nil < 1`). */
  datatype Env = Env(k: seq<Value>, compare: (Relation, Value, Value) -> Result)

  type Frame = seq<Value>

  datatype Outcome =
    | End(frame: Frame)              // reached the end of the code
    | At(jump: nat, frame: Frame)    // about to take a pending jump
    | Raised                         // a Lua run-time error
    | Fault                          // the machine itself would go wrong

  datatype Step = Goto(pc: nat, frame: Frame) | Stop(outcome: Outcome)

  /** A register, or a constant when bit 8 of the field is set. */
  ghost function Operand(env: Env, frame: Frame, field: nat): (r: Result) {
    if field < BIT_RK then
      if field < |frame| then Ok(frame[field]) else Raise
    else
      if field - BIT_RK < |env.k| then Ok(env.k[field - BIT_RK]) else Raise
  }

  ghost predicate OperandReady(env: Env, frame: Frame, field: nat) {
    if field < BIT_RK then field < |frame| else field - BIT_RK < |env.k|
  }

  /** What a comparison of two operands yields, as a Lua boolean or an error. */
  ghost function Compared(env: Env, rel: Relation, x: Value, y: Value): (r: Result) {
    var r := env.compare(rel, x, y);
    if r.Raise? then Raise else Ok(Bool(Truthy(r.v)))
  }

  datatype Branch = Taken | Skipped | BranchRaises | BranchFaults

  ghost function Decide(env: Env, i: Instr, frame: Frame): (r: Branch)
    requires i.IsTest()
  {
    match i
    case Test(a, c) =>
      if a >= |frame| then BranchFaults
      else if IsFalse(frame[a]) == (c == 0) then Taken else Skipped
    case TestSet(_, b, c) =>
      if b >= |frame| then BranchFaults
      else if IsFalse(frame[b]) == (c == 0) then Taken else Skipped
    case Compare(rel, a, b, c) =>
      if !OperandReady(env, frame, b) || !OperandReady(env, frame, c) then BranchFaults
      else
        var r := Compared(env, rel, Operand(env, frame, b).v, Operand(env, frame, c).v);
        if r.Raise? then BranchRaises
        else if r.v.b == (a != 0) then Taken else Skipped
  }

  /** The instructions that only write registers and fall through. */
  predicate IsPlain(i: Instr) {
    i.Move? || i.LoadConstant? || (i.LoadBool? && i.c == 0) || i.LoadNil? || i.Not?
  }

  ghost predicate PlainReady(env: Env, i: Instr, n: nat)
    requires IsPlain(i)
  {
    match i
    case Move(a, b) => a < n && b < n
    case LoadConstant(a, bx) => a < n && bx < |env.k|
    case LoadBool(a, _, _) => a < n
    case LoadNil(a, b) => a + b < n
    case Not(a, b) => a < n && b < n
  }

  ghost function ClearRange(frame: Frame, a: nat, n: nat): (r: Frame)
    requires a + n <= |frame|
    ensures |r| == |frame|
    ensures forall i :: 0 <= i < |frame| ==> r[i] == if a <= i < a + n then Nil else frame[i]
  {
    seq(|frame|, i requires 0 <= i < |frame| => if a <= i < a + n then Nil else frame[i])
  }

  ghost function Execute(env: Env, i: Instr, frame: Frame): (r: Frame)
    requires IsPlain(i) && PlainReady(env, i, |frame|)
    ensures |r| == |frame|
  {
    match i
    case Move(a, b) => frame[a := frame[b]]
    case LoadConstant(a, bx) => frame[a := env.k[bx]]
    case LoadBool(a, b, _) => frame[a := Bool(b != 0)]
    case LoadNil(a, b) => ClearRange(frame, a, b + 1)
    case Not(a, b) => frame[a := Bool(IsFalse(frame[b]))]
  }

  /** Following the jump at `pc`. */
  ghost function Follow(code: seq<Instr>, pc: nat, frame: Frame): (r: Step)
    requires pc < |code| && code[pc].Jump?
    ensures r.Goto? ==> r.pc > pc && r.frame == frame
    ensures r.Stop? ==> r.outcome == Fault
  {
    if code[pc].sbx < 0 then Stop(Fault) else Goto(pc + 1 + code[pc].sbx, frame)
  }

  /**
    One step of the machine. A test and the jump behind it are one step, as in the machine's
    dispatch loop. A TESTSET in front of a pending jump does not write: whether and where it
    will is settled when the jump is patched. Expression code only jumps forward, so a
    backward jump is a fault here.
   */
  ghost function Next(env: Env, code: seq<Instr>, pc: nat, pending: set<nat>, frame: Frame): (r: Step)
    requires pc < |code|
    ensures r.Goto? ==> r.pc > pc && |r.frame| == |frame|
    ensures r.Stop? ==> !r.outcome.End?
    ensures r.Stop? && r.outcome.At? ==>
              && |r.outcome.frame| == |frame| && r.outcome.jump < |code|
              && r.outcome.jump in pending && code[r.outcome.jump].Jump?
  {
    var i := code[pc];
    if pc in pending then
      if !i.Jump? || (pc > 0 && code[pc - 1].TestSet?) then Stop(Fault) else Stop(At(pc, frame))
    else if i.Jump? then Follow(code, pc, frame)
    else if i.IsTest() then
      if pc + 1 >= |code| || !code[pc + 1].Jump? then Stop(Fault)
      else
        match Decide(env, i, frame)
        case BranchFaults => Stop(Fault)
        case BranchRaises => Stop(Raised)
        case Skipped => Goto(pc + 2, frame)
        case Taken =>
          if pc + 1 in pending then Stop(At(pc + 1, frame))
          else if !i.TestSet? then Follow(code, pc + 1, frame)
          else if i.a < |frame| then Follow(code, pc + 1, frame[i.a := frame[i.b]])
          else Stop(Fault)
    else if i.LoadBool? && i.c != 0 then
      if i.a < |frame| then Goto(pc + 2, frame[i.a := Bool(i.b != 0)]) else Stop(Fault)
    else if IsPlain(i) then
      if PlainReady(env, i, |frame|) then Goto(pc + 1, Execute(env, i, frame)) else Stop(Fault)
    else Stop(Fault)
  }

  ghost function Run(env: Env, code: seq<Instr>, pc: nat, pending: set<nat>, frame: Frame): (r: Outcome)
    ensures r.End? || r.At? ==> |r.frame| == |frame|
    ensures r.At? ==> r.jump < |code| && r.jump in pending && code[r.jump].Jump?
    decreases |code| - pc
  {
    if pc == |code| then End(frame)
    else if pc > |code| then Fault
    else
      match Next(env, code, pc, pending, frame)
      case Goto(pc', frame') => Run(env, code, pc', pending, frame')
      case Stop(outcome) => outcome
  }

  ghost function Resume(env: Env, code: seq<Instr>, step: Step, pending: set<nat>): (r: Outcome) {
    if step.Goto? then Run(env, code, step.pc, pending, step.frame) else step.outcome
  }

  // ---- How runs change when code is extended, patched or truncated ----

  /** Two pending sets that agree on the code that is there. */
  ghost predicate SamePending(n: nat, p: set<nat>, q: set<nat>) {
    forall i :: 0 <= i < n ==> (i in p <==> i in q)
  }

  /** Code appended behind is entered exactly where the run used to end. */
  lemma {:induction false} RunAppend(env: Env, code: seq<Instr>, more: seq<Instr>, pc: nat,
                                     p: set<nat>, q: set<nat>, frame: Frame)
    requires SamePending(|code|, p, q)
    ensures var o := Run(env, code, pc, p, frame);
            o.Fault? || Run(env, code + more, pc, q, frame)
                        == if o.End? then Run(env, code + more, |code|, q, o.frame) else o
    decreases |code| - pc
  {
    if pc < |code| {
      var s := Next(env, code, pc, p, frame);
      if s != Stop(Fault) {
        assert s == Next(env, code + more, pc, q, frame);
        if s.Goto? {
          RunAppend(env, code, more, s.pc, p, q, s.frame);
        }
      }
    }
  }

  /** What patching the jumps of `s` may do to the instruction `i` in front of, or at, position `pc`. */
  ghost predicate PatchedInstr(i: Instr, i': Instr, pc: nat, s: set<nat>) {
    if pc in s then i.Jump? && i'.Jump?
    else if i.TestSet? && pc + 1 in s then
      i' == Test(i.b, i.c) || (i'.TestSet? && i'.b == i.b && i'.c == i.c)
    else i' == i
  }

  /** `code'` is `code` with the jumps of `s` given destinations, and the TESTSETs in front of
      them turned into TESTs or given a register. */
  ghost predicate PatchedFrom(code: seq<Instr>, code': seq<Instr>, s: set<nat>) {
    && |code'| == |code|
    && forall i :: 0 <= i < |code| ==> PatchedInstr(code[i], code'[i], i, s)
  }

  /** The frame with which a patched jump is left: its control may have stored the tested value. */
  ghost function Stored(code': seq<Instr>, j: nat, frame: Frame): (r: Frame)
    requires j <= |code'|
  {
    if 0 < j && code'[j - 1].TestSet? && code'[j - 1].a < |frame| && code'[j - 1].b < |frame|
    then frame[code'[j - 1].a := frame[code'[j - 1].b]] else frame
  }

  ghost predicate StoresInside(code': seq<Instr>, j: nat, n: nat)
    requires j <= |code'|
  {
    0 < j && code'[j - 1].TestSet? ==> code'[j - 1].a < n
  }

  /** Patching: a run that stopped at a patched jump goes on from there; any other is unchanged. */
  lemma {:induction false} RunPatched(env: Env, code: seq<Instr>, code': seq<Instr>, pc: nat,
                                      p: set<nat>, s: set<nat>, frame: Frame)
    requires PatchedFrom(code, code', s) && s <= p
    requires forall j :: j in s && j < |code| ==> StoresInside(code', j, |frame|)
    ensures var o := Run(env, code, pc, p, frame);
            var o' := Run(env, code', pc, p - s, frame);
            if o.At? && o.jump in s then
              && o.jump < |code| && |o.frame| == |frame|
              && o' == Resume(env, code', Follow(code', o.jump, Stored(code', o.jump, o.frame)), p - s)
            else o.Fault? || o' == o
    decreases |code| - pc
  {
    hide Next, Decide, Execute, PatchedInstr;
    if pc < |code| {
      NextPatched(env, code, code', pc, p, s, frame);
      var n := Next(env, code, pc, p, frame);
      if n.Goto? {
        RunPatched(env, code, code', n.pc, p, s, n.frame);
      }
    }
  }

  lemma NextPatched(env: Env, code: seq<Instr>, code': seq<Instr>, pc: nat, p: set<nat>, s: set<nat>, frame: Frame)
    requires PatchedFrom(code, code', s) && s <= p && pc < |code|
    requires forall j :: j in s && j < |code| ==> StoresInside(code', j, |frame|)
    ensures forall j :: j in s && j < |code| ==> code'[j].Jump?
    ensures var n := Next(env, code, pc, p, frame);
            n == Stop(Fault)
            || Next(env, code', pc, p - s, frame)
               == if n.Stop? && n.outcome.At? && n.outcome.jump in s
                  then Follow(code', n.outcome.jump, Stored(code', n.outcome.jump, n.outcome.frame))
                  else n
  {
    forall j | j in s && j < |code| ensures code'[j].Jump? {
      assert PatchedInstr(code[j], code'[j], j, s);
    }
    assert PatchedInstr(code[pc], code'[pc], pc, s);
    assert pc + 1 < |code| ==> PatchedInstr(code[pc + 1], code'[pc + 1], pc + 1, s);
    assert 0 < pc ==> PatchedInstr(code[pc - 1], code'[pc - 1], pc - 1, s);
  }

  /** Filling in the link field of a pending jump changes no run. */
  lemma {:induction false} RunRelinked(env: Env, code: seq<Instr>, code': seq<Instr>, pc: nat,
                                       p: set<nat>, frame: Frame)
    requires |code'| == |code|
    requires forall i :: 0 <= i < |code| ==>
               code'[i] == code[i] || (i in p && code[i].Jump? && code'[i].Jump?)
    ensures Run(env, code', pc, p, frame) == Run(env, code, pc, p, frame)
    decreases |code| - pc
  {
    if pc < |code| {
      var n := Next(env, code, pc, p, frame);
      assert n == Next(env, code', pc, p, frame);
      if n.Goto? {
        RunRelinked(env, code, code', n.pc, p, n.frame);
      }
    }
  }

  /** Every way into the last position `|code|` is by falling out of the last instruction. */
  ghost predicate OnlyFallsOut(code: seq<Instr>, p: set<nat>) {
    && |code| > 0 && code[|code| - 1].LoadNil?
    && (forall i :: 0 <= i < |code| && code[i].Jump? && i !in p ==> i + 1 + code[i].sbx != |code|)
    && (forall i :: 0 <= i < |code| && code[i].LoadBool? && code[i].c != 0 ==> i + 2 != |code|)
  }

  /** Splitting a run at a trailing LOADNIL. */
  lemma {:induction false} RunSplit(env: Env, code: seq<Instr>, pc: nat, p: set<nat>, frame: Frame)
    requires OnlyFallsOut(code, p) && pc < |code|
    requires |code| - 1 !in p
    ensures var init := code[..|code| - 1];
            var last := code[|code| - 1];
            var o := Run(env, code, pc, p, frame);
            var o' := Run(env, init, pc, p, frame);
            o.Fault? ||
            if o'.End? then
              PlainReady(env, last, |o'.frame|) && o == End(Execute(env, last, o'.frame))
            else o == o' && !o.End?
    decreases |code| - pc
  {
    var init := code[..|code| - 1];
    if pc < |code| - 1 {
      var n := Next(env, code, pc, p, frame);
      if n != Stop(Fault) {
        assert n == Next(env, init, pc, p, frame);
        if n.Goto? && n.pc < |code| {
          RunSplit(env, code, n.pc, p, n.frame);
        }
      }
    }
  }
}
