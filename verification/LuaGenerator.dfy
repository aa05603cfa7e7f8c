/**
  The code generator for short-circuit expressions as functions on its state.

  A jump whose destination is not known yet sits in a *patch list*. Here a list is the
  sequence of its jumps; the code holds the same list threaded through the jumps' own sBx
  fields (see LuaBuilder). `here` is the list of jumps that go to the next
  instruction to be emitted.
 */
module LuaGenerator {
  import opened LuaMachine

  const NO_REGISTER := MAX_ARG_A
  const MAX_STACK := 1000000
  const MAX_INDEX_RK := BIT_RK - 1

  datatype Kind =
    | KNil | KTrue | KFalse
    | KConstant(k: nat)
    | KNumber(bits: nat)
    | KNonRelocatable(r: nat)
    | KLocal(l: nat)
    | KJump(pc: nat)
    | KRelocatable(pc: nat)

  /** An expression under way: where its value is, and the jumps that leave it early because
      its value is already known to be true (`t`) or false (`f`). */
  datatype Desc = Desc(kind: Kind, t: seq<nat>, f: seq<nat>)

  /**
    The generator's state. `failed` records a syntax or assertion error, which unwinds the
    Go stack: nothing is said of the state behind one. `misfreed` records the register check
    of freeRegister going wrong. `lossy` records that a limit of the instructions was met
    which nothing checks: a constant beyond LOADK's reach, a tested value for register 255 or
    above, a register above 255 that is set into an instruction, freed or made an operand, and
    a LOADNIL widened to more than 512 registers.
   */
  datatype Gen = Gen(
    code: seq<Instr>, here: seq<nat>, lastTarget: nat,
    free: nat, active: nat, maxStack: nat,
    constants: seq<Value>, lookup: map<Value, nat>,
    failed: bool, misfreed: bool, lossy: bool)

  /** What no operation takes back. */
  ghost predicate Grows(g: Gen, g': Gen) {
    && g.maxStack <= g'.maxStack
    && g.constants <= g'.constants
    && g'.active == g.active
    && (g.failed ==> g'.failed)
    && (g.misfreed ==> g'.misfreed)
    && (g.lossy ==> g'.lossy)
  }

  // ---- Patch lists ----

  predicate TooFar(pc: nat, dest: int) {
    var offset := dest - (pc + 1);
    offset > MAX_ARG_SBX || -offset > MAX_ARG_SBX
  }

  predicate ControlIsTestSet(code: seq<Instr>, j: nat) {
    1 <= j <= |code| && code[j - 1].TestSet?
  }

  /** Instruction `i` after patching the jumps of `s`. */
  function PatchAt(code: seq<Instr>, i: nat, s: seq<nat>, target: int, register: nat, otherwise: int): Instr
    requires i < |code|
  {
    if i in s && code[i].Jump? then
      Jump(code[i].a, (if ControlIsTestSet(code, i) then target else otherwise) - (i + 1))
    else if code[i].TestSet? && i + 1 in s then
      if register == NO_REGISTER || register == code[i].b
      then Test(code[i].b, code[i].c)
      else TestSet(register % 256, code[i].b, code[i].c)
    else code[i]
  }

  /** The code after patchListHelper(s, target, register, otherwise). */
  function Patched(code: seq<Instr>, s: seq<nat>, target: int, register: nat, otherwise: int): (r: seq<Instr>)
    ensures |r| == |code|
    ensures forall i :: 0 <= i < |code| ==> r[i] == PatchAt(code, i, s, target, register, otherwise)
  {
    seq(|code|, i requires 0 <= i < |code| => PatchAt(code, i, s, target, register, otherwise))
  }

  predicate PatchTooFar(code: seq<Instr>, s: seq<nat>, target: int, otherwise: int) {
    exists j :: j in s && TooFar(j, if ControlIsTestSet(code, j) then target else otherwise)
  }

  function PatchList(g: Gen, s: seq<nat>, target: int, register: nat, otherwise: int): (g': Gen)
    ensures Grows(g, g')
  {
    g.(code := Patched(g.code, s, target, register, otherwise),
       failed := g.failed || PatchTooFar(g.code, s, target, otherwise))
  }

  /** removeValues: the TESTSETs in front of the jumps become TESTs. */
  function WithoutValues(code: seq<Instr>, s: seq<nat>): (r: seq<Instr>)
    ensures |r| == |code|
    ensures forall i :: 0 <= i < |code| ==>
              r[i] == if code[i].TestSet? && i + 1 in s then Test(code[i].b, code[i].c) else code[i]
  {
    seq(|code|, i requires 0 <= i < |code| =>
      if code[i].TestSet? && i + 1 in s then Test(code[i].b, code[i].c) else code[i])
  }

  /** The code after Concatenate(s1, s2): the last jump of `s1` links to the first of `s2`. */
  function Linked(code: seq<Instr>, s1: seq<nat>, s2: seq<nat>): (r: seq<Instr>)
    ensures |r| == |code|
  {
    if s1 == [] || s2 == [] then code
    else
      var last := s1[|s1| - 1];
      if last < |code| && code[last].Jump? then code[last := Jump(code[last].a, s2[0] - (last + 1))] else code
  }

  function Concatenate(g: Gen, s1: seq<nat>, s2: seq<nat>): (g': Gen)
    ensures Grows(g, g') && g' == g.(code := g'.code, failed := g'.failed)
  {
    g.(code := Linked(g.code, s1, s2),
       failed := g.failed || (s1 != [] && s2 != [] && TooFar(s1[|s1| - 1], s2[0])))
  }

  predicate NeedValue(code: seq<Instr>, s: seq<nat>) {
    exists j :: j in s && !ControlIsTestSet(code, j)
  }

  // ---- Emitting ----

  predicate Encodable(i: Instr) {
    match i
    case LoadConstant(a, bx) => a <= MAX_ARG_A && bx <= MAX_ARG_BX
    case Jump(a, _) => a <= MAX_ARG_A
    case Move(a, b) => a <= MAX_ARG_A && b <= MAX_ARG_B
    case LoadBool(a, b, c) => a <= MAX_ARG_A && b <= MAX_ARG_B && c <= MAX_ARG_B
    case LoadNil(a, b) => a <= MAX_ARG_A && b <= MAX_ARG_B
    case Not(a, b) => a <= MAX_ARG_A && b <= MAX_ARG_B
    case Compare(_, a, b, c) => a <= MAX_ARG_A && b <= MAX_ARG_B && c <= MAX_ARG_B
    case Test(a, c) => a <= MAX_ARG_A && c <= MAX_ARG_B
    case TestSet(a, b, c) => a <= MAX_ARG_A && b <= MAX_ARG_B && c <= MAX_ARG_B
    case ExtraArg(ax) => ax < 0x400_0000
  }

  /** encode: the jumps to here get their destination, then the instruction is appended. */
  function Emit(g: Gen, i: Instr): (g': Gen)
    ensures Grows(g, g')
  {
    var n := |g.code|;
    var p := PatchList(g, g.here, n, NO_REGISTER, n);
    p.(code := p.code + [i], here := [], failed := p.failed || !Encodable(i))
  }

  /** A new jump. It takes the jumps that were to come here along. */
  function EmitJump(g: Gen): (r: (Gen, seq<nat>))
    ensures Grows(g, r.0)
  {
    var pc := |g.code|;
    var j := g.(code := g.code + [Jump(0, -1)], here := []);
    (Concatenate(j, [pc], g.here), [pc] + g.here)
  }

  function ConditionalJump(g: Gen, test: Instr): (r: (Gen, nat))
    ensures Grows(g, r.0)
  {
    var e := Emit(g, test);
    (EmitJump(e).0, |e.code|)
  }

  function Label(g: Gen): Gen {
    g.(lastTarget := |g.code|)
  }

  function PatchToHere(g: Gen, s: seq<nat>): (g': Gen)
    ensures Grows(g, g')
  {
    var l := Concatenate(Label(g), g.here, s);
    l.(here := g.here + s)
  }

  function Min(x: nat, y: nat): nat { if x < y then x else y }
  function Max(x: nat, y: nat): nat { if x > y then x else y }

  /** loadNil: a LOADNIL just emitted is widened when nothing jumps behind it. setB writes nine
      bits. */
  function EmitLoadNil(g: Gen, from: nat, n: nat): (g': Gen)
    requires n > 0
    ensures Grows(g, g')
  {
    var last := |g.code| - 1;
    if |g.code| > g.lastTarget && g.code[last].LoadNil? && Connects(g.code[last], from, n) then
      var pf, pl, l := g.code[last].a, g.code[last].a + g.code[last].b, from + n - 1;
      var b := Max(l, pl) - Min(from, pf);
      g.(code := g.code[last := LoadNil(Min(from, pf), b % (MAX_ARG_B + 1))], lossy := g.lossy || b > MAX_ARG_B)
    else Emit(g, LoadNil(from, n - 1))
  }

  predicate Connects(i: Instr, from: nat, n: nat)
    requires i.LoadNil?
  {
    var pf, pl, l := i.a, i.a + i.b, from + n - 1;
    (pf <= from && from <= pl + 1) || (from <= pf && pf <= l + 1)
  }

  /** EncodeConstant. Behind MAX_ARG_BX it emits LOADK with index 0 and an EXTRAARG. */
  function EmitConstant(g: Gen, r: nat, k: nat): (g': Gen)
    ensures Grows(g, g')
  {
    if k <= MAX_ARG_BX then Emit(g, LoadConstant(r, k))
    else Emit(Emit(g.(lossy := true), LoadConstant(r, 0)), ExtraArg(k))
  }

  predicate IsNaN(v: Value) {
    v.Number? && v.bits % 0x8000_0000_0000_0000 > 0x7FF0_0000_0000_0000
  }

  /** addConstant: a constant is reused when the one found compares equal, which NaN never does. */
  function AddConstant(g: Gen, v: Value): (r: (Gen, nat))
    ensures Grows(g, r.0)
    ensures r.1 < |r.0.constants| && r.0.constants[r.1] == v
  {
    if v in g.lookup && g.lookup[v] < |g.constants| && g.constants[g.lookup[v]] == v && !IsNaN(v) then
      (g, g.lookup[v])
    else
      (g.(constants := g.constants + [v], lookup := g.lookup[v := |g.constants|]), |g.constants|)
  }

  // ---- Registers ----

  function Reserve(g: Gen, n: nat): (g': Gen)
    ensures Grows(g, g')
  {
    var top := g.free + n;
    g.(free := top, maxStack := Max(g.maxStack, top), failed := g.failed || top >= MAX_STACK)
  }

  /** freeRegister. A field with bit 8 set is a constant and is not freed. */
  function FreeRegister(g: Gen, r: nat): (g': Gen)
    ensures Grows(g, g')
  {
    if (r / BIT_RK) % 2 == 0 && r >= g.active then
      g.(free := if g.free == 0 then 0 else g.free - 1, misfreed := g.misfreed || r + 1 != g.free,
         lossy := g.lossy || r >= BIT_RK)
    else g.(lossy := g.lossy || r >= BIT_RK)
  }

  function FreeExpression(g: Gen, d: Desc): (g': Gen)
    ensures Grows(g, g')
  {
    if d.kind.KNonRelocatable? then FreeRegister(g, d.kind.r) else g
  }

  // ---- Discharging expressions ----

  function DischargeVariables(d: Desc): Desc {
    if d.kind.KLocal? then d.(kind := KNonRelocatable(d.kind.l)) else d
  }

  /** setA writes eight bits. */
  function SetA(i: Instr, r: nat): Instr {
    var a := r % 256;
    match i
    case Move(_, b) => Move(a, b)
    case LoadConstant(_, bx) => LoadConstant(a, bx)
    case LoadBool(_, b, c) => LoadBool(a, b, c)
    case LoadNil(_, b) => LoadNil(a, b)
    case Not(_, b) => Not(a, b)
    case Jump(_, sbx) => Jump(a, sbx)
    case Compare(rel, _, b, c) => Compare(rel, a, b, c)
    case Test(_, c) => Test(a, c)
    case TestSet(_, b, c) => TestSet(a, b, c)
    case ExtraArg(ax) => ExtraArg(ax - ax % 256 + a)
  }

  function DischargeToRegister(g: Gen, d: Desc, r: nat): (res: (Gen, Desc))
    ensures Grows(g, res.0)
    ensures res.1.t == d.t && res.1.f == d.f
    ensures res.1.kind == if d.kind.KJump? then d.kind else KNonRelocatable(r)
  {
    var d := DischargeVariables(d);
    match d.kind
    case KNil => (EmitLoadNil(g, r, 1), d.(kind := KNonRelocatable(r)))
    case KFalse => (Emit(g, LoadBool(r, 0, 0)), d.(kind := KNonRelocatable(r)))
    case KTrue => (Emit(g, LoadBool(r, 1, 0)), d.(kind := KNonRelocatable(r)))
    case KConstant(k) => (EmitConstant(g, r, k), d.(kind := KNonRelocatable(r)))
    case KNumber(bits) =>
      var (g1, k) := AddConstant(g, Number(bits));
      (EmitConstant(g1, r, k), d.(kind := KNonRelocatable(r)))
    case KRelocatable(pc) =>
      (if pc < |g.code| then g.(code := g.code[pc := SetA(g.code[pc], r)], lossy := g.lossy || r > MAX_ARG_A) else g,
       d.(kind := KNonRelocatable(r)))
    case KNonRelocatable(x) =>
      (if r != x then Emit(g, Move(r, x)) else g, d.(kind := KNonRelocatable(r)))
    case KLocal(_) => (g, d.(kind := KNonRelocatable(r)))
    case KJump(_) => (g, d)
  }

  function DischargeToAnyRegister(g: Gen, d: Desc): (res: (Gen, Desc))
    ensures Grows(g, res.0)
    ensures res.1.t == d.t && res.1.f == d.f
  {
    if d.kind.KNonRelocatable? then (g, d)
    else DischargeToRegister(Reserve(g, 1), d, g.free)
  }

  function EmitLabel(g: Gen, i: Instr): (g': Gen)
    ensures Grows(g, g')
  {
    Emit(Label(g), i)
  }

  predicate HasJumps(d: Desc) {
    d.t != [] || d.f != []
  }

  /** The start of expressionToRegister: the value in `r`, or the comparison's jump in `t`. */
  function Settle(g: Gen, d: Desc, r: nat): (res: (Gen, Desc))
    ensures Grows(g, res.0)
    ensures res.1 == Desc(KNonRelocatable(r), if d.kind.KJump? then d.t + [d.kind.pc] else d.t, d.f)
  {
    var (g1, d1) := DischargeToRegister(g, d, r);
    if d1.kind.KJump? then
      (Concatenate(g1, d1.t, [d1.kind.pc]), Desc(KNonRelocatable(r), d1.t + [d1.kind.pc], d1.f))
    else (g1, d1)
  }

  /** The two LOADBOOLs for the exits that carry no value, skipped by the jumps of `s`. */
  function EmitLoads(g: Gen, r: nat, s: seq<nat>): (g': Gen)
    ensures Grows(g, g')
  {
    var g4 := EmitLabel(g, LoadBool(r, 0, 1));
    Label(PatchToHere(EmitLabel(g4, LoadBool(r, 1, 0)), s))
  }

  /** The end of expressionToRegister: both lists go to the end, or to the LOADBOOLs. */
  function PatchBoth(g: Gen, d: Desc, r: nat, loadFalse: int, loadTrue: int): (g': Gen)
    ensures Grows(g, g')
  {
    PatchList(PatchList(g, d.f, |g.code|, r, loadFalse), d.t, |g.code|, r, loadTrue).(lossy := g.lossy || LosesExit(g.code, d, r))
  }

  /** An exit should bring the value it tested to register 255, which means "no register", or
      to one above, which field A cannot name. */
  predicate LosesExit(code: seq<Instr>, d: Desc, r: nat) {
    r >= NO_REGISTER && ((exists j :: j in d.t && BringsOther(code, j, r)) || (exists j :: j in d.f && BringsOther(code, j, r)))
  }

  predicate BringsOther(code: seq<Instr>, j: nat, r: nat) {
    ControlIsTestSet(code, j) && code[j - 1].b != r
  }

  /** expressionToRegister: the value into `r`, whichever way the expression is left. */
  function ExpressionToRegister(g: Gen, d: Desc, r: nat): (g': Gen)
    ensures Grows(g, g')
  {
    var (g2, d2) := Settle(g, d, r);
    if !HasJumps(d2) then g2
    else if NeedValue(g2.code, d2.t) || NeedValue(g2.code, d2.f) then
      var (g3, jump) := if d.kind.KJump? then (g2, []) else EmitJump(g2);
      PatchBoth(EmitLoads(g3, r, jump), d2, r, |g3.code|, |g3.code| + 1)
    else PatchBoth(Label(g2), d2, r, -1, -1)
  }

  function InRegister(r: nat): Desc {
    Desc(KNonRelocatable(r), [], [])
  }

  function ExpressionToNextRegister(g: Gen, d: Desc): (res: (Gen, Desc))
    ensures Grows(g, res.0)
    ensures res.1.kind.KNonRelocatable? && !HasJumps(res.1)
  {
    var d1 := DischargeVariables(d);
    var g1 := Reserve(FreeExpression(g, d1), 1);
    var r := g1.free - 1;
    (ExpressionToRegister(g1, d1, r), InRegister(r))
  }

  function ExpressionToAnyRegister(g: Gen, d: Desc): (res: (Gen, Desc))
    ensures Grows(g, res.0)
    ensures res.1.kind.KNonRelocatable? && !HasJumps(res.1)
  {
    var d1 := DischargeVariables(d);
    if d1.kind.KNonRelocatable? && !HasJumps(d1) then (g, d1)
    else if d1.kind.KNonRelocatable? && d1.kind.r >= g.active then
      (ExpressionToRegister(g, d1, d1.kind.r), InRegister(d1.kind.r))
    else ExpressionToNextRegister(g, d1)
  }

  function ExpressionToValue(g: Gen, d: Desc): (res: (Gen, Desc))
    ensures Grows(g, res.0)
  {
    if HasJumps(d) then ExpressionToAnyRegister(g, d) else (g, DischargeVariables(d))
  }

  /** A register as operand field: above 255 the field denotes a constant. */
  function Register(g: Gen, d: Desc): (res: (Gen, Desc, nat))
    ensures Grows(g, res.0)
  {
    var (g1, d1) := ExpressionToAnyRegister(g, d);
    (g1.(lossy := g1.lossy || d1.kind.r >= BIT_RK), d1, d1.kind.r)
  }

  /** expressionToRegisterOrConstant: the operand field of a comparison. */
  function ExpressionToOperand(g: Gen, d: Desc): (res: (Gen, Desc, nat))
    ensures Grows(g, res.0)
  {
    var (g1, d1) := ExpressionToValue(g, d);
    match d1.kind
    case KTrue =>
      if |g1.constants| <= MAX_INDEX_RK then
        var (g2, k) := AddConstant(g1, Bool(true));
        (g2, d1.(kind := KConstant(k)), k + BIT_RK)
      else Register(g1, d1)
    case KFalse =>
      if |g1.constants| <= MAX_INDEX_RK then
        var (g2, k) := AddConstant(g1, Bool(false));
        (g2, d1.(kind := KConstant(k)), k + BIT_RK)
      else Register(g1, d1)
    case KNil =>
      if |g1.constants| <= MAX_INDEX_RK then
        var (g2, k) := AddConstant(g1, Nil);
        (g2, d1.(kind := KConstant(k)), k + BIT_RK)
      else Register(g1, d1)
    case KNumber(bits) =>
      var (g2, k) := AddConstant(g1, Number(bits));
      var d2 := d1.(kind := KConstant(k));
      if k <= MAX_INDEX_RK then (g2, d2, k + BIT_RK) else Register(g2, d2)
    case KConstant(k) =>
      if k <= MAX_INDEX_RK then (g1, d1, k + BIT_RK) else Register(g1, d1)
    case _ => Register(g1, d1)
  }

  // ---- Conditions ----

  function Opposite(cond: nat): nat {
    if cond == 0 then 1 else 0
  }

  function InvertJump(g: Gen, pc: nat): (g': Gen)
    ensures Grows(g, g')
  {
    if 1 <= pc <= |g.code| && g.code[pc - 1].Compare?
    then g.(code := g.code[pc - 1 := SetA(g.code[pc - 1], Opposite(g.code[pc - 1].a))])
    else g
  }

  /** A jump taken when the truth of the value is `cond`. */
  function JumpOnCondition(g: Gen, d: Desc, cond: nat): (res: (Gen, nat))
    ensures Grows(g, res.0)
  {
    if d.kind.KRelocatable? && 0 < |g.code| && d.kind.pc < |g.code| && g.code[d.kind.pc].Not? then
      ConditionalJump(g.(code := g.code[..|g.code| - 1]), Test(g.code[d.kind.pc].b, Opposite(cond)))
    else
      var (g1, d1) := DischargeToAnyRegister(g, d);
      var r := if d1.kind.KNonRelocatable? then d1.kind.r else 0;
      ConditionalJump(FreeExpression(g1, d1), TestSet(NO_REGISTER, r, cond))
  }

  /** Fall through when the expression is true, jump away through `f` when it is false. */
  function GoIfTrue(g: Gen, d: Desc): (res: (Gen, Desc))
    ensures Grows(g, res.0)
    ensures res.1.t == []
  {
    var d1 := DischargeVariables(d);
    var (g1, away) :=
      match d1.kind
      case KJump(pc) => (InvertJump(g, pc), [pc])
      case KConstant(_) => (g, [])
      case KNumber(_) => (g, [])
      case KTrue => (g, [])
      case _ => var (g', pc) := JumpOnCondition(g, d1, 0); (g', [pc]);
    (PatchToHere(Concatenate(g1, d1.f, away), d1.t), Desc(d1.kind, [], d1.f + away))
  }

  /** Fall through when the expression is false, jump away through `t` when it is true. */
  function GoIfFalse(g: Gen, d: Desc): (res: (Gen, Desc))
    ensures Grows(g, res.0)
    ensures res.1.f == []
  {
    var d1 := DischargeVariables(d);
    var (g1, away) :=
      match d1.kind
      case KJump(pc) => (g, [pc])
      case KNil => (g, [])
      case KFalse => (g, [])
      case _ => var (g', pc) := JumpOnCondition(g, d1, 1); (g', [pc]);
    (PatchToHere(Concatenate(g1, d1.t, away), d1.f), Desc(d1.kind, d1.t + away, []))
  }

  function EncodeNot(g: Gen, d: Desc): (res: (Gen, Desc))
    ensures Grows(g, res.0)
  {
    var d1 := DischargeVariables(d);
    var (g1, kind) :=
      match d1.kind
      case KNil => (g, KTrue)
      case KFalse => (g, KTrue)
      case KConstant(_) => (g, KFalse)
      case KNumber(_) => (g, KFalse)
      case KTrue => (g, KFalse)
      case KJump(pc) => (InvertJump(g, pc), d1.kind)
      case _ =>
        var (g', d2) := DischargeToAnyRegister(g, d1);
        var r := if d2.kind.KNonRelocatable? then d2.kind.r else 0;
        var g'' := Emit(FreeExpression(g', d2), Not(0, r));
        (g'', KRelocatable(|g''.code| - 1));
    (g1.(code := WithoutValues(WithoutValues(g1.code, d1.t), d1.f)), Desc(kind, d1.f, d1.t))
  }

  // ---- Expressions ----

  datatype CompareOp = Eq | Lt | Le | Ne | Gt | Ge

  datatype Expr =
    | ENil | ETrue | EFalse
    | ENumber(bits: nat)
    | EString(s: string)
    | ELocal(l: nat)
    | EParen(e: Expr)
    | ENot(e: Expr)
    | EAnd(e1: Expr, e2: Expr)
    | EOr(e1: Expr, e2: Expr)
    | ECompare(op: CompareOp, e1: Expr, e2: Expr)

  function RelationOf(op: CompareOp): Relation {
    match op
    case Eq => Equal
    case Ne => Equal
    case Lt => LessThan
    case Gt => LessThan
    case Le => LessOrEqual
    case Ge => LessOrEqual
  }

  function ConditionOf(op: CompareOp): nat {
    if op.Eq? || op.Lt? || op.Le? then 1 else 0
  }

  function EncodeComparison(g: Gen, rel: Relation, cond: nat, d1: Desc, d2: Desc): (res: (Gen, Desc))
    ensures Grows(g, res.0)
  {
    var (g1, e1, o1) := ExpressionToOperand(g, d1);
    var (g2, e2, o2) := ExpressionToOperand(g1, d2);
    var g3 := FreeExpression(FreeExpression(g2, e2), e1);
    var (g4, pc) := if cond == 0 && !rel.Equal?
                    then ConditionalJump(g3, Compare(rel, 1, o2, o1))
                    else ConditionalJump(g3, Compare(rel, cond, o1, o2));
    (g4, Desc(KJump(pc), [], []))
  }

  function Plain(kind: Kind): Desc {
    Desc(kind, [], [])
  }

  /** The calls that subExpression makes for an expression: operands left to right, Infix
      between them and Postfix (or Prefix) behind. */
  function Compile(g: Gen, e: Expr): (res: (Gen, Desc))
    ensures Grows(g, res.0)
    decreases e
  {
    match e
    case ENil => (g, Plain(KNil))
    case ETrue => (g, Plain(KTrue))
    case EFalse => (g, Plain(KFalse))
    case ENumber(bits) => (g, Plain(KNumber(bits)))
    case EString(s) => var (g1, k) := AddConstant(g, Str(s)); (g1, Plain(KConstant(k)))
    case ELocal(l) => (g, Plain(KLocal(l)))
    case EParen(e1) => var (g1, d1) := Compile(g, e1); (g1, DischargeVariables(d1))
    case ENot(e1) => var (g1, d1) := Compile(g, e1); EncodeNot(g1, d1)
    case EAnd(e1, e2) =>
      var (g1, d1) := Compile(g, e1);
      var (g2, d1') := GoIfTrue(g1, d1);
      var (g3, d2) := Compile(g2, e2);
      var d2' := DischargeVariables(d2);
      (Concatenate(g3, d2'.f, d1'.f), d2'.(f := d2'.f + d1'.f))
    case EOr(e1, e2) =>
      var (g1, d1) := Compile(g, e1);
      var (g2, d1') := GoIfFalse(g1, d1);
      var (g3, d2) := Compile(g2, e2);
      var d2' := DischargeVariables(d2);
      (Concatenate(g3, d2'.t, d1'.t), d2'.(t := d2'.t + d1'.t))
    case ECompare(op, e1, e2) =>
      var (g1, d1) := Compile(g, e1);
      var (g2, d1', _) := ExpressionToOperand(g1, d1);
      var (g3, d2) := Compile(g2, e2);
      EncodeComparison(g3, RelationOf(op), ConditionOf(op), d1', d2)
  }

  // ---- What an expression means ----

  /** The locals an expression reads are active. */
  predicate Scoped(e: Expr, active: nat) {
    match e
    case ELocal(l) => l < active
    case EParen(e1) => Scoped(e1, active)
    case ENot(e1) => Scoped(e1, active)
    case EAnd(e1, e2) => Scoped(e1, active) && Scoped(e2, active)
    case EOr(e1, e2) => Scoped(e1, active) && Scoped(e2, active)
    case ECompare(_, e1, e2) => Scoped(e1, active) && Scoped(e2, active)
    case _ => true
  }

  function Negate(r: Result): Result {
    if r.Raise? then Raise else Ok(Bool(IsFalse(r.v)))
  }

  /** Sections 3.4.3 and 3.4.4 of the Lua 5.2 Reference Manual. */
  ghost function Eval(env: Env, e: Expr, frame: Frame): (r: Result)
    requires Scoped(e, |frame|)
  {
    match e
    case ENil => Ok(Nil)
    case ETrue => Ok(Bool(true))
    case EFalse => Ok(Bool(false))
    case ENumber(bits) => Ok(Number(bits))
    case EString(s) => Ok(Str(s))
    case ELocal(l) => Ok(frame[l])
    case EParen(e1) => Eval(env, e1, frame)
    case ENot(e1) => Negate(Eval(env, e1, frame))
    case EAnd(e1, e2) =>
      var r := Eval(env, e1, frame);
      if r.Raise? || IsFalse(r.v) then r else Eval(env, e2, frame)
    case EOr(e1, e2) =>
      var r := Eval(env, e1, frame);
      if r.Raise? || Truthy(r.v) then r else Eval(env, e2, frame)
    case ECompare(op, e1, e2) =>
      var r1 := Eval(env, e1, frame);
      if r1.Raise? then Raise else
      var r2 := Eval(env, e2, frame);
      if r2.Raise? then Raise else CompareValues(env, op, r1.v, r2.v)
  }

  ghost function CompareValues(env: Env, op: CompareOp, x: Value, y: Value): (r: Result) {
    match op
    case Eq => Compared(env, Equal, x, y)
    case Ne => Negate(Compared(env, Equal, x, y))
    case Lt => Compared(env, LessThan, x, y)
    case Gt => Compared(env, LessThan, y, x)
    case Le => Compared(env, LessOrEqual, x, y)
    case Ge => Compared(env, LessOrEqual, y, x)
  }
}
