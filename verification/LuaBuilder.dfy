/**
  The code generator as it runs: a function under construction whose instructions are
  appended and patched in place. A patch list is a pc, the head of a list threaded through
  the sBx fields of the jumps themselves; NO_JUMP ends it. Every method is proved to do what
  the corresponding function of LuaGenerator says, in which lists are sequences.
 */
module LuaBuilder {
  import opened LuaMachine
  import opened LuaGenerator
  import opened LuaShape

  const NO_JUMP: int := -1

  function Head(s: seq<nat>): int {
    if s == [] then NO_JUMP else s[0]
  }

  /** What follows element `k`. */
  ghost function After(s: seq<nat>, k: nat): int
    requires k < |s|
  {
    if k + 1 < |s| then s[k + 1] else NO_JUMP
  }

  /** The list `s` is threaded through the code: each of its jumps holds the offset of the
      next one, the last one holds NO_JUMP, and none occurs twice. */
  ghost predicate Threaded(code: seq<Instr>, s: seq<nat>) {
    Distinct(s) && forall k :: 0 <= k < |s| ==> LinkAt(code, s, k)
  }

  lemma LinkOf(code: seq<Instr>, s: seq<nat>, k: nat)
    requires Threaded(code, s) && k < |s|
    ensures LinkAt(code, s, k)
  {
  }

  lemma NothingTooFar(code: seq<Instr>, target: int, otherwise: int)
    ensures !PatchTooFar(code, [], target, otherwise)
  {
  }

  ghost predicate LinkAt(code: seq<Instr>, s: seq<nat>, k: nat)
    requires k < |s|
  {
    && s[k] < |code| && code[s[k]].Jump?
    && code[s[k]].sbx == (if k + 1 < |s| then s[k + 1] - (s[k] + 1) else NO_JUMP)
  }

  lemma ThreadedKept(code: seq<Instr>, code': seq<Instr>, s: seq<nat>)
    requires Threaded(code, s)
    requires forall j :: j in s && j < |code| ==> j < |code'| && code'[j] == code[j]
    ensures Threaded(code', s)
  {
    forall k | 0 <= k < |s|
      ensures LinkAt(code', s, k)
    {
      assert LinkAt(code, s, k) && s[k] in s;
    }
  }

  lemma ThreadedKeptSet(code: seq<Instr>, code': seq<Instr>, s: seq<nat>, pending: set<nat>)
    requires Threaded(code, s) && Kept(code, code', pending) && Elems(s) <= pending
    ensures Threaded(code', s)
  {
    forall j | j in s && j < |code|
      ensures j < |code'| && code'[j] == code[j]
    {
      assert j in Elems(s);
    }
    ThreadedKept(code, code', s);
  }

  /** Linking the last jump of one list to the head of another threads their concatenation. */
  lemma ThreadedConcat(code: seq<Instr>, s1: seq<nat>, s2: seq<nat>)
    requires Threaded(code, s1) && Threaded(code, s2) && Elems(s1) !! Elems(s2)
    ensures Threaded(Linked(code, s1, s2), s1 + s2)
  {
    var code' := Linked(code, s1, s2);
    DistinctConcat(s1, s2);
    if s1 == [] || s2 == [] {
      assert s1 + s2 == if s1 == [] then s2 else s1;
    } else {
      var last := s1[|s1| - 1];
      var s := s1 + s2;
      assert LinkAt(code, s1, |s1| - 1);
      forall k | 0 <= k < |s|
        ensures LinkAt(code', s, k)
      {
        if k < |s1| {
          assert LinkAt(code, s1, k) && s[k] == s1[k];
        } else {
          assert LinkAt(code, s2, k - |s1|) && s[k] == s2[k - |s1|];
          assert s[k] in Elems(s2) && last in Elems(s1);
        }
      }
    }
  }

  /** An expression under way, its lists given by their heads. */
  datatype ExprDesc = ExprDesc(kind: Kind, t: int, f: int)

  ghost predicate Represents(code: seq<Instr>, e: ExprDesc, d: Desc) {
    && e.kind == d.kind && e.t == Head(d.t) && e.f == Head(d.f)
    && Threaded(code, d.t) && Threaded(code, d.f)
    && (d.kind.KJump? ==> Threaded(code, [d.kind.pc]))
  }

  lemma RepresentsKept(code: seq<Instr>, code': seq<Instr>, e: ExprDesc, d: Desc, e': ExprDesc, d': Desc, pending: set<nat>)
    requires Represents(code, e, d) && Kept(code, code', pending) && Elems(d.t) + Elems(d.f) <= pending
    requires d'.t == d.t && d'.f == d.f && e'.t == e.t && e'.f == e.f && e'.kind == d'.kind && !d'.kind.KJump?
    ensures Represents(code', e', d')
  {
    ThreadedKeptSet(code, code', d.t, pending);
    ThreadedKeptSet(code, code', d.f, pending);
  }

  /** Patching one list leaves another one threaded. */
  lemma ThreadedPatched(code: seq<Instr>, s: seq<nat>, other: seq<nat>, target: int, r: nat, otherwise: int)
    requires Threaded(code, other) && Elems(s) !! Elems(other)
    ensures Threaded(Patched(code, s, target, r, otherwise), other)
  {
    var code' := Patched(code, s, target, r, otherwise);
    forall k | 0 <= k < |other|
      ensures LinkAt(code', other, k)
    {
      assert LinkAt(code, other, k);
      assert other[k] in Elems(other) && other[k] !in s;
      assert code'[other[k]] == PatchAt(code, other[k], s, target, r, otherwise);
    }
  }

  /** Linking one list leaves another one threaded. */
  lemma ThreadedLinked(code: seq<Instr>, s1: seq<nat>, s2: seq<nat>, other: seq<nat>)
    requires Threaded(code, other) && Elems(s1) !! Elems(other)
    ensures Threaded(Linked(code, s1, s2), other)
  {
    var code' := Linked(code, s1, s2);
    forall k | 0 <= k < |other|
      ensures LinkAt(code', other, k)
    {
      assert LinkAt(code, other, k);
      assert other[k] in Elems(other) && other[k] !in s1;
    }
  }

  /** Two lists without a common jump have the same head only if both are empty. */
  lemma SameHead(s: seq<nat>, t: seq<nat>)
    requires Elems(s) !! Elems(t)
    ensures Head(s) == Head(t) <==> s == [] && t == []
  {
    if s != [] && t != [] {
      assert s[0] in Elems(s) && t[0] in Elems(t);
    }
  }

  lemma DischargeReady(g: Gen, d: Desc, outer: set<nat>)
    requires WfBody(g, d, outer)
    ensures d.kind.KNil? ==> (g.here != [] ==> g.lastTarget == |g.code|)
    ensures d.kind.KRelocatable? ==> d.kind.pc < |g.code| && g.code[d.kind.pc].Not? && g.here == []
  {
    if d.kind.KNil? {
      assert Core(g, d) == g;
    }
  }

  lemma BodyApart(g: Gen, d: Desc, outer: set<nat>)
    requires WfBody(g, d, outer)
    ensures Apart(outer, g.here, d.t, d.f) && Apart(outer, g.here, d.f, d.t)
  {
  }

  lemma EncodeNotCases(g: Gen, d: Desc)
    ensures var d1 := DischargeVariables(d);
            var dropped := (g': Gen) => g'.(code := WithoutValues(WithoutValues(g'.code, d1.t), d1.f));
            && EncodeNot(g, d) == EncodeNot(g, d1)
            && (d1.kind.KNil? || d1.kind.KFalse? ==> EncodeNot(g, d) == (dropped(g), Desc(KTrue, d1.f, d1.t)))
            && (d1.kind.KConstant? || d1.kind.KNumber? || d1.kind.KTrue? ==>
                  EncodeNot(g, d) == (dropped(g), Desc(KFalse, d1.f, d1.t)))
            && (d1.kind.KRelocatable? || d1.kind.KNonRelocatable? ==>
                  var (g', d') := DischargeToAnyRegister(g, d1);
                  d'.kind.KNonRelocatable? ==>
                    var g1 := Emit(FreeExpression(g', d'), LuaMachine.Not(0, d'.kind.r));
                    EncodeNot(g, d) == (dropped(g1), Desc(KRelocatable(|g1.code| - 1), d1.f, d1.t)))
  {
    hide DischargeToAnyRegister, Emit, FreeExpression, WithoutValues;
  }

  class Builder {
    var code: seq<Instr>
    var jumpPC: int
    var lastTarget: nat
    var free: nat
    var active: nat
    var maxStack: nat
    var constants: seq<Value>
    var lookup: map<Value, nat>
    var failed: bool
    var misfreed: bool
    ghost var lossy: bool
    ghost var here: seq<nat>

    ghost function State(): (g: Gen)
      reads this
    {
      Gen(code, here, lastTarget, free, active, maxStack, constants, lookup, failed, misfreed, lossy)
    }

    ghost predicate Valid()
      reads this
    {
      jumpPC == Head(here) && Threaded(code, here)
    }

    constructor (parameters: nat)
      ensures Valid() && State() == Gen([], [], 0, parameters, parameters, Max(2, parameters), [], map[], false, false, false)
      ensures WfStart(State(), {})
    {
      code, jumpPC, lastTarget, free, active, maxStack := [], NO_JUMP, 0, parameters, parameters, Max(2, parameters);
      constants, lookup, failed, misfreed, lossy, here := [], map[], false, false, false, [];
    }

    // ---- Patch lists ----

    /** The jump behind `pc` in its list, which was threaded through `before`. */
    method NextJump(pc: nat, ghost before: seq<Instr>, ghost s: seq<nat>, ghost k: nat) returns (next: int)
      requires Threaded(before, s) && k < |s| && s[k] == pc
      requires pc < |before| ==> pc < |code| && code[pc] == before[pc]
      ensures next == After(s, k)
    {
      assert LinkAt(before, s, k);
      var offset := code[pc].sbx;
      if offset != NO_JUMP {
        next := pc + 1 + offset;
      } else {
        next := NO_JUMP;
      }
    }

    method FixJump(pc: nat, dest: int)
      requires pc < |code| && code[pc].Jump?
      modifies this`code, this`failed
      ensures code == old(code)[pc := Jump(old(code)[pc].a, dest - (pc + 1))]
      ensures failed == (old(failed) || TooFar(pc, dest))
    {
      if TooFar(pc, dest) {
        failed := true;
      }
      code := code[pc := Jump(code[pc].a, dest - (pc + 1))];
    }

    /** Concatenate appends one list to another: it walks to the end of the first, which ends,
        and links that to the second. */
    method Concatenate(l1: int, l2: int, ghost s1: seq<nat>, ghost s2: seq<nat>) returns (l: int)
      requires Threaded(code, s1) && Threaded(code, s2) && Elems(s1) !! Elems(s2)
      requires l1 == Head(s1) && l2 == Head(s2)
      modifies this`code, this`failed
      ensures l == Head(s1 + s2) && Threaded(code, s1 + s2)
      ensures State() == LuaGenerator.Concatenate(old(State()), s1, s2)
    {
      ThreadedConcat(code, s1, s2);
      if l2 == NO_JUMP {
        l := l1;
        assert s1 + s2 == s1;
      } else if l1 == NO_JUMP {
        l := l2;
        assert s1 + s2 == s2;
      } else {
        var list: nat := l1;
        ghost var k := 0;
        var next := NextJump(list, code, s1, k);
        while next != NO_JUMP
          invariant k < |s1| && list == s1[k] && next == After(s1, k)
          invariant code == old(code) && failed == old(failed)
          decreases |s1| - k
        {
          list := next;
          k := k + 1;
          next := NextJump(list, code, s1, k);
        }
        assert LinkAt(code, s1, |s1| - 1);
        FixJump(list, l2);
        l := l1;
      }
    }

    method NeedsValue(list: int, ghost s: seq<nat>) returns (b: bool)
      requires Threaded(code, s) && list == Head(s)
      ensures b == NeedValue(code, s)
    {
      var l := list;
      ghost var k := 0;
      while l != NO_JUMP
        invariant k <= |s| && l == (if k < |s| then s[k] else NO_JUMP)
        invariant forall i :: 0 <= i < k ==> ControlIsTestSet(code, s[i])
        decreases |s| - k
      {
        assert LinkAt(code, s, k);
        if !(l >= 1 && code[l - 1].TestSet?) {
          assert s[k] in s && !ControlIsTestSet(code, s[k]);
          return true;
        }
        l := NextJump(l, code, s, k);
        k := k + 1;
      }
      forall j | j in s
        ensures ControlIsTestSet(code, j)
      {
        var i :| 0 <= i < |s| && s[i] == j;
      }
      return false;
    }

    /** patchTestRegister: the TESTSET in front of a jump gets its register, or becomes a TEST. */
    method PatchTestRegister(node: nat, register: nat) returns (b: bool)
      requires node < |code|
      modifies this`code
      ensures b == ControlIsTestSet(old(code), node)
      ensures |code| == |old(code)|
      ensures forall i :: 0 <= i < |code| ==>
                code[i] == if old(code)[i].TestSet? && i + 1 == node then
                             if register == NO_REGISTER || register == old(code)[i].b
                             then Test(old(code)[i].b, old(code)[i].c)
                             else TestSet(register % 256, old(code)[i].b, old(code)[i].c)
                           else old(code)[i]
    {
      if node < 1 || !code[node - 1].TestSet? {
        b := false;
      } else {
        var i := code[node - 1];
        if register != NO_REGISTER && register != i.b {
          code := code[node - 1 := SetA(i, register)];
        } else {
          code := code[node - 1 := Test(i.b, i.c)];
        }
        b := true;
      }
    }

    /** patchListHelper retargets exactly the jumps of the list and their tests. The link of a
        jump is read before it is overwritten, so the walk is over the list as it was. */
    method PatchListHelper(list: int, target: int, register: nat, otherwise: int, ghost s: seq<nat>)
      requires Threaded(code, s) && list == Head(s)
      modifies this`code, this`failed
      ensures State() == PatchList(old(State()), s, target, register, otherwise)
    {
      hide PatchTooFar, TooFar, PatchAt, Threaded;
      ghost var before := code;
      var l := list;
      ghost var k := 0;
      PatchedNone(before, target, register, otherwise);
      assert s[..0] == [];
      NothingTooFar(before, target, otherwise);
      while l != NO_JUMP
        invariant k <= |s| && l == (if k < |s| then s[k] else NO_JUMP)
        invariant code == Patched(before, s[..k], target, register, otherwise)
        invariant failed == (old(failed) || PatchTooFar(before, s[..k], target, otherwise))
        decreases |s| - k
      {
        LinkOf(before, s, k);
        Untouched(before, s, k, target, register, otherwise);
        var next := NextJump(l, before, s, k);
        PatchedMore(before, s, k, target, register, otherwise);
        var isTestSet := PatchTestRegister(l, register);
        if isTestSet {
          FixJump(l, target);
        } else {
          FixJump(l, otherwise);
        }
        assert code == Patched(before, s[..k + 1], target, register, otherwise);
        k := k + 1;
        l := next;
      }
      assert s[..k] == s;
    }

    method RemoveValues(list: int, ghost s: seq<nat>)
      requires Threaded(code, s) && list == Head(s)
      modifies this`code
      ensures code == WithoutValues(old(code), s)
    {
      ghost var before := code;
      var l := list;
      ghost var k := 0;
      while l != NO_JUMP
        invariant k <= |s| && l == (if k < |s| then s[k] else NO_JUMP)
        invariant |code| == |before|
        invariant forall i :: 0 <= i < |before| ==>
                    code[i] == if before[i].TestSet? && i + 1 in s[..k] then Test(before[i].b, before[i].c) else before[i]
        decreases |s| - k
      {
        assert LinkAt(before, s, k);
        var _ := PatchTestRegister(l, NO_REGISTER);
        assert s[..k + 1] == s[..k] + [s[k]];
        l := NextJump(l, before, s, k);
        k := k + 1;
      }
      assert s[..k] == s;
    }

    // ---- Emitting ----

    /** encode: discharge the jumps to here, then append. */
    method EmitInstr(i: Instr) returns (pc: nat)
      requires Valid()
      modifies this
      ensures Valid() && State() == Emit(old(State()), i)
      ensures pc == |code| - 1
    {
      PatchListHelper(jumpPC, |code|, NO_REGISTER, |code|, here);
      jumpPC := NO_JUMP;
      here := [];
      if !Encodable(i) {
        failed := true;
      }
      code := code + [i];
      pc := |code| - 1;
    }

    /** A new jump takes the jumps to here along; the list is what it returns. */
    method EmitJumpInstr() returns (list: int)
      requires Valid()
      modifies this
      ensures Valid() && here == []
      ensures State() == EmitJump(old(State())).0
      ensures var s := EmitJump(old(State())).1; list == Head(s) && Threaded(code, s)
    {
      var pending := jumpPC;
      ghost var toHere := here;
      jumpPC := NO_JUMP;
      here := [];
      var pc := |code|;
      ghost var before := code;
      code := code + [Jump(0, NO_JUMP)];
      ThreadedKept(before, code, toHere);
      assert LinkAt(code, [pc], 0);
      assert forall j :: j in toHere ==> j != pc by {
        forall j | j in toHere
          ensures j != pc
        {
          var k :| 0 <= k < |toHere| && toHere[k] == j;
          assert LinkAt(before, toHere, k);
        }
      }
      list := Concatenate(pc, pending, [pc], toHere);
    }

    method EmitConditionalJump(test: Instr) returns (pc: nat)
      requires Valid()
      modifies this
      ensures Valid() && here == []
      ensures (State(), pc) == ConditionalJump(old(State()), test)
      ensures Threaded(code, [pc])
    {
      var _ := EmitInstr(test);
      pc := |code|;
      var list := EmitJumpInstr();
      assert [pc] + [] == [pc];
    }

    method MarkLabel()
      modifies this`lastTarget
      ensures State() == Label(old(State()))
    {
      lastTarget := |code|;
    }

    method PatchListToHere(list: int, ghost s: seq<nat>)
      requires Valid() && Threaded(code, s) && list == Head(s) && Elems(here) !! Elems(s)
      modifies this
      ensures Valid() && State() == PatchToHere(old(State()), s)
    {
      MarkLabel();
      jumpPC := Concatenate(jumpPC, list, here, s);
      here := here + s;
    }

    method EmitNil(from: nat, n: nat)
      requires Valid() && n > 0 && (here != [] ==> lastTarget == |code|)
      modifies this
      ensures Valid() && State() == EmitLoadNil(old(State()), from, n)
    {
      if |code| > lastTarget {
        var last := |code| - 1;
        var previous := code[last];
        if previous.LoadNil? {
          var pf, pl, l := previous.a, previous.a + previous.b, from + n - 1;
          if (pf <= from && from <= pl + 1) || (from <= pf && pf <= l + 1) {
            var b := Max(l, pl) - Min(from, pf);
            code := code[last := LoadNil(Min(from, pf), b % (MAX_ARG_B + 1))];
            lossy := lossy || b > MAX_ARG_B;
            return;
          }
        }
      }
      var _ := EmitInstr(LoadNil(from, n - 1));
    }

    method EmitLoadConstant(r: nat, k: nat)
      requires Valid()
      modifies this
      ensures Valid() && State() == EmitConstant(old(State()), r, k)
    {
      if k <= MAX_ARG_BX {
        var _ := EmitInstr(LoadConstant(r, k));
      } else {
        lossy := true;
        var _ := EmitInstr(LoadConstant(r, 0));
        var _ := EmitInstr(ExtraArg(k));
      }
    }

    method ConstantFor(v: Value) returns (k: nat)
      requires Valid()
      modifies this
      ensures Valid() && code == old(code) && here == old(here)
      ensures (State(), k) == AddConstant(old(State()), v)
    {
      if v in lookup && lookup[v] < |constants| && constants[lookup[v]] == v && !IsNaN(v) {
        k := lookup[v];
      } else {
        k := |constants|;
        lookup := lookup[v := k];
        constants := constants + [v];
      }
    }

    // ---- Registers ----

    method ReserveRegisters(n: nat)
      modifies this
      ensures State() == Reserve(old(State()), n) && jumpPC == old(jumpPC)
    {
      var top := free + n;
      if top >= MAX_STACK {
        failed := true;
      }
      if top > maxStack {
        maxStack := top;
      }
      free := top;
    }

    method Free(kind: Kind)
      modifies this
      ensures State() == FreeExpression(old(State()), Desc(kind, [], [])) && jumpPC == old(jumpPC)
      ensures code == old(code) && here == old(here)
    {
      if kind.KNonRelocatable? {
        lossy := lossy || kind.r >= BIT_RK;
        if (kind.r / BIT_RK) % 2 == 0 && kind.r >= active {
          if kind.r + 1 != free {
            misfreed := true;
          }
          free := if free == 0 then 0 else free - 1;
        }
      }
    }

    // ---- Expressions into registers ----

    method DischargeTo(e: ExprDesc, r: nat, ghost d: Desc, ghost outer: set<nat>) returns (e': ExprDesc)
      requires Valid() && Represents(code, e, d) && WfBody(State(), d, outer) && r < maxStack
      modifies this
      ensures Valid() && State() == DischargeToRegister(old(State()), d, r).0
      ensures Represents(code, e', DischargeToRegister(old(State()), d, r).1)
    {
      hide WfBody, Threaded, Kept, Emit, EmitConstant, EmitLoadNil, AddConstant;
      ghost var g := State();
      if e.kind.KJump? {
        e' := e;
        return;
      }
      DischargeShape(g, d, r, outer);
      DischargeReady(g, d, outer);
      if e.kind.KNil? {
        EmitNil(r, 1);
      } else if e.kind.KFalse? {
        var _ := EmitInstr(LoadBool(r, 0, 0));
      } else if e.kind.KTrue? {
        var _ := EmitInstr(LoadBool(r, 1, 0));
      } else if e.kind.KConstant? {
        EmitLoadConstant(r, e.kind.k);
      } else if e.kind.KNumber? {
        var k := ConstantFor(Number(e.kind.bits));
        EmitLoadConstant(r, k);
      } else if e.kind.KRelocatable? {
        code := code[e.kind.pc := SetA(code[e.kind.pc], r)];
        lossy := lossy || r > MAX_ARG_A;
        EmptyThreaded(code);
      } else if e.kind.KNonRelocatable? {
        if r != e.kind.r {
          var _ := EmitInstr(Move(r, e.kind.r));
        }
      } else {
        if r != e.kind.l {
          var _ := EmitInstr(Move(r, e.kind.l));
        }
      }
      e' := ExprDesc(KNonRelocatable(r), e.t, e.f);
      RepresentsKept(g.code, code, e, d, e', DischargeToRegister(g, d, r).1, Others(d, outer));
    }

    /** The start of expressionToRegister. */
    method SettleIn(e: ExprDesc, r: nat, ghost d: Desc, ghost outer: set<nat>) returns (t: int)
      requires Valid() && Represents(code, e, d) && WfBody(State(), d, outer) && r < maxStack
      modifies this
      ensures Valid()
      ensures var (g', d') := Settle(old(State()), d, r);
              && State() == g' && t == Head(d'.t) && e.f == Head(d'.f)
              && Threaded(code, d'.t) && Threaded(code, d'.f)
    {
      ghost var g := State();
      var e1 := DischargeTo(e, r, d, outer);
      t := e1.t;
      if e1.kind.KJump? {
        JumpShape(g, d, outer);
        SingleList(d.kind.pc);
        ThreadedLinked(code, d.t, [d.kind.pc], d.f);
        ThreadedLinked(code, d.t, [d.kind.pc], here);
        t := Concatenate(e1.t, e1.kind.pc, d.t, [d.kind.pc]);
      }
    }

    /** The end of expressionToRegister. */
    method PatchBothLists(t: int, f: int, r: nat, loadFalse: int, loadTrue: int, ghost d: Desc, ghost outer: set<nat>)
      requires Valid() && t == Head(d.t) && f == Head(d.f) && Threaded(code, d.t) && Threaded(code, d.f)
      requires Apart(outer, here, d.t, d.f)
      modifies this
      ensures Valid() && State() == PatchBoth(old(State()), d, r, loadFalse, loadTrue)
    {
      var end := |code|;
      ghost var loses := LosesExit(code, d, r);
      ThreadedPatched(code, d.f, d.t, end, r, loadFalse);
      ThreadedPatched(code, d.f, here, end, r, loadFalse);
      PatchListHelper(f, end, r, loadFalse, d.f);
      ThreadedPatched(code, d.t, here, end, r, loadTrue);
      PatchListHelper(t, end, r, loadTrue, d.t);
      lossy := lossy || loses;
    }

    /** The two LOADBOOLs, and the jump over them for a value that is in place. */
    method EmitBothLoads(r: nat, jump: int, ghost js: seq<nat>)
      requires Valid() && here == [] && jump == Head(js) && Threaded(code, js)
      modifies this
      ensures Valid() && State() == EmitLoads(old(State()), r, js)
    {
      ghost var g := State();
      MarkLabel();
      EmitNone(State(), LoadBool(r, 0, 1));
      var _ := EmitInstr(LoadBool(r, 0, 1));
      MarkLabel();
      EmitNone(State(), LoadBool(r, 1, 0));
      var _ := EmitInstr(LoadBool(r, 1, 0));
      ThreadedKept(g.code, code, js);
      PatchListToHere(jump, js);
      MarkLabel();
    }

    /** expressionToRegister. */
    method ToRegister(e: ExprDesc, r: nat, ghost d: Desc, ghost outer: set<nat>)
      requires Valid() && Represents(code, e, d) && WfBody(State(), d, outer) && r < maxStack
      modifies this
      ensures Valid() && State() == ExpressionToRegister(old(State()), d, r)
    {
      hide WfPending, Settle, EmitLoads, EmitJump, PatchBoth, NeedValue, Threaded, Controlled, Kept, WfKind, WfGen, Core;
      ghost var g := State();
      SettleShape(g, d, r, outer);
      var t := SettleIn(e, r, d, outer);
      ghost var (g2, d2) := Settle(g, d, r);
      assert Apart(outer, here, d2.t, d2.f);
      SameHead(d2.t, d2.f);
      hide WfBody, Apart, Elems;
      if t != e.f {
        var needT := NeedsValue(t, d2.t);
        var needF := NeedsValue(e.f, d2.f);
        if needT || needF {
          var loadFalse := LoadBoth(e.kind.KJump?, r, t, e.f, d2, outer);
          PatchBothLists(t, e.f, r, loadFalse, loadFalse + 1, d2, outer);
        } else {
          MarkLabel();
          PatchBothLists(t, e.f, r, -1, -1, d2, outer);
        }
      }
    }

    method LoadBoth(comparison: bool, r: nat, t: int, f: int, ghost d: Desc, ghost outer: set<nat>) returns (loadFalse: nat)
      requires Valid() && WfBody(State(), d, outer) && d.kind == KNonRelocatable(r) && r < maxStack
      requires Threaded(code, d.t) && Threaded(code, d.f) && (comparison ==> here == [])
      modifies this
      ensures Valid() && Threaded(code, d.t) && Threaded(code, d.f)
      ensures var (g3, jump) := if comparison then (old(State()), []) else EmitJump(old(State()));
              State() == EmitLoads(g3, r, jump) && loadFalse == |g3.code|
      ensures Apart(outer, here, d.t, d.f)
    {
      hide WfGen, WfKind, Controlled, Threaded, Kept, EmitLoads;
      ghost var g := State();
      LoadShape(g, d, r, outer, !comparison);
      var jump := NO_JUMP;
      ghost var js := [];
      if !comparison {
        js := EmitJump(g).1;
        jump := EmitJumpInstr();
      }
      loadFalse := |code|;
      EmitBothLoads(r, jump, js);
      ghost var live := Others(d, outer);
      assert Core(g, d) == g && Live(g, d, outer) == live + Elems(g.here);
      LoadEmitted(g, live, r, !comparison);
      ThreadedKeptSet(g.code, code, d.t, live);
      ThreadedKeptSet(g.code, code, d.f, live);
    }

    /** dischargeToAnyRegister. */
    method DischargeToAny(e: ExprDesc, ghost d: Desc, ghost outer: set<nat>, ghost base: nat) returns (e': ExprDesc)
      requires Valid() && Represents(code, e, d) && WfDesc(State(), d, outer, base) && !e.kind.KLocal?
      modifies this
      ensures Valid() && State() == DischargeToAnyRegister(old(State()), d).0
      ensures Represents(code, e', DischargeToAnyRegister(old(State()), d).1)
    {
      hide DischargeToRegister, Emit, Controlled, WfGen, WfPending, Settled, EndsInTest;
      if e.kind.KNonRelocatable? {
        e' := e;
      } else {
        ghost var g := State();
        ReserveRegisters(1);
        ReserveShape(g, State(), d, outer);
        hide WfBody, Threaded;
        e' := DischargeTo(e, free - 1, d, outer);
      }
    }

    method ToNextRegister(e: ExprDesc, ghost d: Desc, ghost outer: set<nat>, ghost base: nat) returns (e': ExprDesc)
      requires Valid() && Represents(code, e, d) && WfDesc(State(), d, outer, base)
      requires !ExpressionToNextRegister(State(), d).0.lossy
      modifies this
      ensures Valid() && State() == ExpressionToNextRegister(old(State()), d).0
      ensures Represents(code, e', ExpressionToNextRegister(old(State()), d).1)
    {
      hide WfPending, Threaded, ExpressionToRegister, Controlled, Apart, Core, WfGen, WfKind, OperandFits;
      ghost var g := State();
      ghost var d1 := DischargeVariables(d);
      DischargeVariablesShape(g, d, outer, base);
      var e1 := DischargeLocal(e);
      FreeShape(g, d1, outer, base);
      Free(e1.kind);
      ReserveRegisters(1);
      ReserveShape(g, State(), d1, outer);
      var r := free - 1;
      hide WfBody;
      ToRegister(e1, r, d1, outer);
      e' := ExprDesc(KNonRelocatable(r), NO_JUMP, NO_JUMP);
      NoLists(code, e', InRegister(r));
    }

    method ToAnyRegister(e: ExprDesc, ghost d: Desc, ghost outer: set<nat>, ghost base: nat) returns (e': ExprDesc)
      requires Valid() && Represents(code, e, d) && WfDesc(State(), d, outer, base)
      requires !ExpressionToAnyRegister(State(), d).0.lossy
      modifies this
      ensures Valid() && State() == ExpressionToAnyRegister(old(State()), d).0
      ensures Represents(code, e', ExpressionToAnyRegister(old(State()), d).1)
    {
      hide WfPending, Threaded, ExpressionToRegister, Controlled, Core, ExpressionToNextRegister;
      ghost var g := State();
      ghost var d1 := DischargeVariables(d);
      DischargeVariablesShape(g, d, outer, base);
      var e1 := DischargeLocal(e);
      SameHead(d1.t, d1.f);
      if e1.kind.KNonRelocatable? && e1.t == e1.f {
        e' := e1;
      } else if e1.kind.KNonRelocatable? && e1.kind.r >= active {
        ToRegister(e1, e1.kind.r, d1, outer);
        e' := ExprDesc(e1.kind, NO_JUMP, NO_JUMP);
        NoLists(code, e', InRegister(e1.kind.r));
      } else {
        NextIgnoresLocal(g, d);
        e' := ToNextRegister(e1, d1, outer, base);
      }
    }

    /** expressionToRegisterOrConstant. */
    method ToOperand(e: ExprDesc, ghost d: Desc, ghost outer: set<nat>, ghost base: nat) returns (e': ExprDesc, field: nat)
      requires Valid() && Represents(code, e, d) && WfDesc(State(), d, outer, base)
      requires !ExpressionToOperand(State(), d).0.lossy
      modifies this
      ensures Valid()
      ensures var (g', d', f) := ExpressionToOperand(old(State()), d);
              State() == g' && Represents(code, e', d') && field == f
    {
      hide WfBody, Threaded, ExpressionToAnyRegister, AddConstant, WfRegister;
      ghost var g := State();
      ListsApart(g, d, outer);
      SameHead(d.t, d.f);
      if e.t != e.f {
        e' := ToAnyRegister(e, d, outer, base);
        ghost var (g1, d1) := ExpressionToAnyRegister(g, d);
        RegisterStable(g1, d1);
        field := e'.kind.r;
        lossy := lossy || field >= BIT_RK;
      } else {
        DischargeVariablesShape(g, d, outer, base);
        var e1 := DischargeLocal(e);
        e', field := PlainToOperand(e1, DischargeVariables(d), outer, base);
      }
    }

    method PlainToOperand(e: ExprDesc, ghost d: Desc, ghost outer: set<nat>, ghost base: nat) returns (e': ExprDesc, field: nat)
      requires Valid() && Represents(code, e, d) && WfDesc(State(), d, outer, base) && !HasJumps(d) && !e.kind.KLocal?
      requires !ExpressionToOperand(State(), d).0.lossy
      modifies this
      ensures Valid()
      ensures var (g', d', f) := ExpressionToOperand(old(State()), d);
              State() == g' && Represents(code, e', d') && field == f
    {
      hide WfBody, Threaded, ExpressionToAnyRegister, AddConstant, WfRegister;
      ghost var g := State();
      var e1 := e;
      ghost var d1 := d;
      if (e.kind.KTrue? || e.kind.KFalse? || e.kind.KNil?) && |constants| <= MAX_INDEX_RK {
        var k := ConstantFor(if e.kind.KTrue? then Bool(true) else if e.kind.KFalse? then Bool(false) else Nil);
        e', field := e.(kind := KConstant(k)), k + BIT_RK;
        return;
      }
      if e.kind.KNumber? {
        var k := ConstantFor(Number(e.kind.bits));
        e1 := e.(kind := KConstant(k));
        NumberShape(g, d, e.kind.bits, outer, base);
        d1 := d.(kind := KConstant(k));
      }
      if e1.kind.KConstant? && e1.kind.k <= MAX_INDEX_RK {
        e', field := e1, e1.kind.k + BIT_RK;
        return;
      }
      e' := ToAnyRegister(e1, d1, outer, base);
      field := e'.kind.r;
      lossy := lossy || field >= BIT_RK;
    }

    // ---- Conditions ----

    method InvertJumpAt(pc: nat)
      requires Valid() && 1 <= pc <= |code| && code[pc - 1].Compare?
      modifies this
      ensures Valid() && State() == InvertJump(old(State()), pc)
    {
      ghost var before := code;
      code := code[pc - 1 := SetA(code[pc - 1], Opposite(code[pc - 1].a))];
      ThreadedOthers(before, code, here);
    }

    /** jumpOnCondition: a NOT just emitted is dropped and its operand tested instead. */
    method JumpOn(e: ExprDesc, cond: nat, ghost d: Desc, ghost outer: set<nat>, ghost base: nat) returns (pc: nat)
      requires Valid() && Represents(code, e, d) && WfDesc(State(), d, outer, base) && !e.kind.KLocal? && !e.kind.KJump?
      requires !JumpOnCondition(State(), d, cond).0.lossy
      modifies this
      ensures Valid() && (State(), pc) == JumpOnCondition(old(State()), d, cond)
      ensures Threaded(code, d.t) && Threaded(code, d.f) && Threaded(code, [pc])
    {
      hide WfBody, WfGen, Threaded, DischargeToRegister, Kept, WfRegister, ConditionalJump, FreeExpression;
      ghost var g := State();
      JumpOnConditionShape(g, d, cond, outer, base);
      DischargeReady(g, d, outer);
      if e.kind.KRelocatable? {
        var b := code[e.kind.pc].b;
        code := code[..|code| - 1];
        EmptyThreaded(code);
        pc := EmitConditionalJump(Test(b, Opposite(cond)));
      } else {
        AnyRegisterShape(g, d, outer, base);
        var e1 := DischargeToAny(e, d, outer, base);
        ghost var d1 := DischargeToAnyRegister(g, d).1;
        FreeIgnoresLists(State(), d1);
        Free(e1.kind);
        pc := EmitConditionalJump(TestSet(NO_REGISTER, e1.kind.r, cond));
      }
      ThreadedKeptSet(g.code, code, d.t, Others(d, outer));
      ThreadedKeptSet(g.code, code, d.f, Others(d, outer));
    }

    /** What goIfTrue and goIfFalse do once the jump away is there. */
    method SplitLists(stay: int, away: int, gone: int, ghost ss: seq<nat>, ghost sa: seq<nat>, ghost sg: seq<nat>, ghost outer: set<nat>)
        returns (list: int)
      requires Valid() && stay == Head(ss) && away == Head(sa) && gone == Head(sg)
      requires Threaded(code, ss) && Threaded(code, sa) && Threaded(code, sg)
      requires Apart(outer, here, sg, ss) && Elems(sa) !! Elems(here) + Elems(ss) + Elems(sg)
      modifies this
      ensures Valid() && State() == PatchToHere(LuaGenerator.Concatenate(old(State()), ss, sa), sg)
      ensures list == Head(ss + sa) && Threaded(code, ss + sa)
    {
      ThreadedLinked(code, ss, sa, sg);
      ThreadedLinked(code, ss, sa, here);
      list := Concatenate(stay, away, ss, sa);
      DistinctElems(ss, sa);
      ThreadedLinked(code, here, sg, ss + sa);
      PatchListToHere(gone, sg);
    }

    method GoIf(e: ExprDesc, sense: bool, ghost d: Desc, ghost outer: set<nat>, ghost base: nat) returns (list: int)
      requires Valid() && Represents(code, e, d) && WfDesc(State(), d, outer, base)
      requires !(if sense then GoIfFalse(State(), d) else GoIfTrue(State(), d)).0.lossy
      modifies this
      ensures Valid()
      ensures var (g', d') := if sense then GoIfFalse(old(State()), d) else GoIfTrue(old(State()), d);
              var s := if sense then d'.t else d'.f;
              State() == g' && list == Head(s) && Threaded(code, s)
    {
      hide WfBody, Threaded, JumpOnCondition, LuaGenerator.Concatenate, PatchToHere, WfRegister, WfGen, Controlled;
      ghost var g := State();
      ghost var d1 := DischargeVariables(d);
      DischargeVariablesShape(g, d, outer, base);
      var e1 := DischargeLocal(e);
      var stay, gone := if sense then e1.t else e1.f, if sense then e1.f else e1.t;
      ghost var ss, sg := if sense then d1.t else d1.f, if sense then d1.f else d1.t;
      var away := NO_JUMP;
      ghost var sa: seq<nat> := [];
      BodyApart(g, d1, outer);
      if e1.kind.KJump? {
        away := e1.kind.pc;
        sa := [e1.kind.pc];
        SplitComparison(g, d1, ss, sg, outer, base);
        if !sense {
          ghost var before := code;
          InvertJumpAt(e1.kind.pc);
          ThreadedOthers(before, code, ss);
          ThreadedOthers(before, code, sg);
          ThreadedOthers(before, code, sa);
        }
      } else if (if sense then e1.kind.KNil? || e1.kind.KFalse? else e1.kind.KConstant? || e1.kind.KNumber? || e1.kind.KTrue?) {
        EmptyThreaded(code);
      } else {
        JumpOnConditionShape(g, d1, if sense then 1 else 0, outer, base);
        var pc := JumpOn(e1, if sense then 1 else 0, d1, outer, base);
        SplitJumpApart(g, d1, State(), pc, ss, sg, outer);
        away := pc;
        sa := [pc];
      }
      list := SplitLists(stay, away, gone, ss, sa, sg, outer);
    }

    method Not(e: ExprDesc, ghost d: Desc, ghost outer: set<nat>, ghost base: nat) returns (e': ExprDesc)
      requires Valid() && Represents(code, e, d) && WfDesc(State(), d, outer, base)
      requires !EncodeNot(State(), d).0.lossy
      modifies this
      ensures Valid() && State() == EncodeNot(old(State()), d).0
      ensures Represents(code, e', EncodeNot(old(State()), d).1)
    {
      hide WfBody, Threaded, DischargeToAnyRegister, WithoutValues, Emit, FreeExpression, EncodeNot;
      ghost var g := State();
      ghost var d1 := DischargeVariables(d);
      DischargeVariablesShape(g, d, outer, base);
      EncodeNotCases(g, d);
      var e1 := DischargeLocal(e);
      var kind := e1.kind;
      if kind.KJump? {
        e' := NotComparison(e1, d1, outer);
        return;
      }
      if kind.KNil? || kind.KFalse? {
        kind := KTrue;
      } else if kind.KConstant? || kind.KNumber? || kind.KTrue? {
        kind := KFalse;
      } else {
        var pc := NotRegister(e1, d1, outer, base);
        kind := KRelocatable(pc);
      }
      DropValues(e1.t, e1.f, d1);
      e' := ExprDesc(kind, e1.f, e1.t);
    }

    method NotComparison(e: ExprDesc, ghost d: Desc, ghost outer: set<nat>) returns (e': ExprDesc)
      requires Valid() && Represents(code, e, d) && WfBody(State(), d, outer) && e.kind.KJump?
      modifies this
      ensures Valid() && State() == EncodeNot(old(State()), d).0
      ensures Represents(code, e', EncodeNot(old(State()), d).1)
    {
      hide WfPending, Threaded, DischargeToAnyRegister;
      ghost var before := code;
      InvertJumpAt(e.kind.pc);
      ThreadedOthers(before, code, d.t);
      ThreadedOthers(before, code, d.f);
      ThreadedOthers(before, code, [e.kind.pc]);
      ThreadedValues(code, d.t, d.f, [e.kind.pc]);
      DropValues(e.t, e.f, d);
      e' := ExprDesc(e.kind, e.f, e.t);
    }

    method NotRegister(e: ExprDesc, ghost d: Desc, ghost outer: set<nat>, ghost base: nat) returns (pc: nat)
      requires Valid() && Represents(code, e, d) && WfDesc(State(), d, outer, base)
      requires (e.kind.KRelocatable? || e.kind.KNonRelocatable?) && !EncodeNot(State(), d).0.lossy
      modifies this
      ensures Valid()
      ensures var (g', d') := DischargeToAnyRegister(old(State()), d);
              && d'.kind.KNonRelocatable?
              && State() == Emit(FreeExpression(g', d'), LuaMachine.Not(0, d'.kind.r)) && pc == |code| - 1
      ensures Threaded(code, d.t) && Threaded(code, d.f)
    {
      hide WfBody, Threaded, DischargeToRegister, Emit, FreeExpression, Kept, WfRegister;
      ghost var g := State();
      AnyRegisterShape(g, d, outer, base);
      var e1 := DischargeToAny(e, d, outer, base);
      ghost var (g1, d1) := DischargeToAnyRegister(g, d);
      EmitNotShape(g1, d1, outer, base);
      FreeIgnoresLists(g1, d1);
      Free(e1.kind);
      pc := EmitInstr(LuaMachine.Not(0, e1.kind.r));
      ThreadedKeptSet(g1.code, code, d.t, Others(d, outer));
      ThreadedKeptSet(g1.code, code, d.f, Others(d, outer));
    }

    method DropValues(t: int, f: int, ghost d: Desc)
      requires Valid() && t == Head(d.t) && f == Head(d.f) && Threaded(code, d.t) && Threaded(code, d.f)
      modifies this
      ensures Valid() && State() == old(State()).(code := WithoutValues(WithoutValues(old(code), d.t), d.f))
      ensures Threaded(code, d.t) && Threaded(code, d.f)
    {
      ghost var before := code;
      ThreadedValues(before, d.t, d.f, d.t);
      ThreadedValues(before, d.t, d.f, d.f);
      ThreadedValues(before, d.t, d.f, here);
      ThreadedWithout(before, d.t, d.f);
      RemoveValues(t, d.t);
      RemoveValues(f, d.f);
    }

    // ---- Whole expressions ----

    /** encodeComparison, the first operand being one already. */
    method EmitComparison(op: CompareOp, e1: ExprDesc, o1: nat, e2: ExprDesc, ghost g1: Gen, ghost d1: Desc, ghost d2: Desc,
                          ghost outer: set<nat>, ghost base: nat) returns (e': ExprDesc)
      requires Valid() && WfOperand(g1, d1, o1, outer, base) && e1.kind == d1.kind
      requires Represents(code, e2, d2) && WfDesc(State(), d2, outer, g1.free)
      requires !EncodeComparison(State(), RelationOf(op), ConditionOf(op), d1, d2).0.lossy
      modifies this
      ensures Valid()
      ensures var (g', d') := EncodeComparison(old(State()), RelationOf(op), ConditionOf(op), d1, d2);
              State() == g' && Represents(code, e', d')
    {
      ghost var g := State();
      OperandStable(g1, g, d1, o1, outer, base);
      hide WfBody, Threaded, ExpressionToOperand, ConditionalJump, WfRegister, FreeExpression, WfOperand;
      var e2', o2 := ToOperand(e2, d2, outer, g1.free);
      ghost var d2' := ExpressionToOperand(g, d2).1;
      FreeIgnoresLists(State(), d2');
      Free(e2'.kind);
      FreeIgnoresLists(State(), d1);
      Free(e1.kind);
      var cond, rel := ConditionOf(op), RelationOf(op);
      var pc;
      if cond == 0 && !rel.Equal? {
        pc := EmitConditionalJump(Compare(rel, 1, o2, o1));
      } else {
        pc := EmitConditionalJump(Compare(rel, cond, o1, o2));
      }
      EmptyThreaded(code);
      e' := ExprDesc(KJump(pc), NO_JUMP, NO_JUMP);
    }

    /** The second operand of `and` or `or`, and its lists joined to the first one's. */
    method JoinSecond(e: ExprDesc, list: int, sense: bool, ghost d: Desc, ghost s: seq<nat>, ghost outer: set<nat>, ghost base: nat)
        returns (e': ExprDesc)
      requires Valid() && Represents(code, e, d) && WfDesc(State(), d, outer + Elems(s), base)
      requires list == Head(s) && Threaded(code, s) && outer !! Elems(s)
      modifies this
      ensures Valid()
      ensures var d1 := DischargeVariables(d);
              && State() == LuaGenerator.Concatenate(old(State()), if sense then d1.t else d1.f, s)
              && Represents(code, e', if sense then d1.(t := d1.t + s) else d1.(f := d1.f + s))
    {
      ghost var g := State();
      ghost var d1 := DischargeVariables(d);
      DischargeVariablesShape(g, d, outer + Elems(s), base);
      var e1 := DischargeLocal(e);
      ghost var s1, s2 := if sense then d1.t else d1.f, if sense then d1.f else d1.t;
      ThreadedLinked(code, s1, s, s2);
      ThreadedLinked(code, s1, s, here);
      if e1.kind.KJump? {
        JumpShape(g, d1, outer + Elems(s));
        SingleList(e1.kind.pc);
        ThreadedLinked(code, s1, s, [e1.kind.pc]);
      }
      if sense {
        var l := Concatenate(e1.t, list, s1, s);
        e' := e1.(t := l);
      } else {
        var l := Concatenate(e1.f, list, s1, s);
        e' := e1.(f := l);
      }
    }

    /** What subExpression does for an expression: operands left to right, with the calls of
        Infix between them and of Prefix or Postfix behind. */
    method CompileExpr(e: Expr, ghost outer: set<nat>) returns (r: ExprDesc)
      requires Valid() && WfStart(State(), outer) && Scoped(e, active) && !Compile(State(), e).0.lossy
      modifies this
      ensures Valid() && State() == Compile(old(State()), e).0
      ensures Represents(code, r, Compile(old(State()), e).1)
      decreases e, 1
    {
      hide WfBody, Threaded, WfPending, EncodeNot, ExpressionToOperand, EncodeComparison, WfRegister, Kept;
      ghost var g := State();
      match e
      case ENil => r := Known(KNil);
      case ETrue => r := Known(KTrue);
      case EFalse => r := Known(KFalse);
      case ENumber(bits) => r := Known(KNumber(bits));
      case EString(str) =>
        var k := ConstantFor(Str(str));
        r := Known(KConstant(k));
      case ELocal(l) => r := Known(KLocal(l));
      case EParen(e1) =>
        r := CompileExpr(e1, outer);
        r := DischargeLocal(r);
      case ENot(e1) =>
        CompileShape(g, e1, outer);
        r := CompileExpr(e1, outer);
        r := Not(r, Compile(g, e1).1, outer, g.free);
      case EAnd(e1, e2) => r := CompileBoth(e1, e2, false, outer);
      case EOr(e1, e2) => r := CompileBoth(e1, e2, true, outer);
      case ECompare(op, e1, e2) =>
        CompileShape(g, e1, outer);
        var r1 := CompileExpr(e1, outer);
        ghost var (g1, d1) := Compile(g, e1);
        OperandShape(g1, d1, outer, g.free);
        var r1', o1 := ToOperand(r1, d1, outer, g.free);
        ghost var (g2, d1', _) := ExpressionToOperand(g1, d1);
        CompileShape(g2, e2, outer);
        var r2 := CompileExpr(e2, outer);
        r := EmitComparison(op, r1', o1, r2, g2, d1', Compile(g2, e2).1, outer, g.free);
    }

    method Known(kind: Kind) returns (r: ExprDesc)
      requires !kind.KJump?
      ensures r.kind == kind && Represents(code, r, Plain(kind))
    {
      EmptyThreaded(code);
      r := ExprDesc(kind, NO_JUMP, NO_JUMP);
    }

    method CompileBoth(e1: Expr, e2: Expr, sense: bool, ghost outer: set<nat>) returns (r: ExprDesc)
      requires var e := if sense then EOr(e1, e2) else EAnd(e1, e2);
               Valid() && WfStart(State(), outer) && Scoped(e, active) && !Compile(State(), e).0.lossy
      modifies this
      ensures var e := if sense then EOr(e1, e2) else EAnd(e1, e2);
              Valid() && State() == Compile(old(State()), e).0 && Represents(code, r, Compile(old(State()), e).1)
      decreases if sense then EOr(e1, e2) else EAnd(e1, e2), 0
    {
      hide WfBody, Threaded, WfPending, GoIfTrue, GoIfFalse, LuaGenerator.Concatenate, WfRegister, Kept;
      ghost var g := State();
      CompileShape(g, e1, outer);
      var r1 := CompileExpr(e1, outer);
      ghost var (g1, d1) := Compile(g, e1);
      if sense {
        GoIfFalseShape(g1, d1, outer, g.free);
      } else {
        GoIfTrueShape(g1, d1, outer, g.free);
      }
      var list := GoIf(r1, sense, d1, outer, g.free);
      ghost var (g2, d1') := if sense then GoIfFalse(g1, d1) else GoIfTrue(g1, d1);
      ghost var s := if sense then d1'.t else d1'.f;
      SplitStart(g2, s, outer, g.free);
      CompileShape(g2, e2, outer + Elems(s));
      var r2 := CompileExpr(e2, outer + Elems(s));
      ThreadedKeptSet(g2.code, code, s, outer + Elems(s));
      r := JoinSecond(r2, list, sense, Compile(g2, e2).1, s, outer, g.free);
    }

    /** `local r = e`: compile the expression into the first free register. */
    method CompileToNextRegister(e: Expr) returns (r: ExprDesc)
      requires Valid() && WfStart(State(), {}) && Scoped(e, active)
      requires var (g, d) := Compile(State(), e); !ExpressionToNextRegister(g, d).0.lossy
      modifies this
      ensures Valid()
      ensures var (g, d) := Compile(old(State()), e);
              State() == ExpressionToNextRegister(g, d).0 && r.kind == KNonRelocatable(old(free))
    {
      ghost var g := State();
      CompileShape(g, e, {});
      r := CompileExpr(e, {});
      ghost var (g1, d1) := Compile(g, e);
      NextIsBase(g1, d1, {}, g.free);
      r := ToNextRegister(r, d1, {}, g.free);
    }
  }

  lemma NextIsBase(g: Gen, d: Desc, outer: set<nat>, base: nat)
    requires WfDesc(g, d, outer, base) && !ExpressionToNextRegister(g, d).0.lossy
    ensures ExpressionToNextRegister(g, d).1.kind == KNonRelocatable(base)
  {
    DischargeVariablesShape(g, d, outer, base);
    FreeShape(g, DischargeVariables(d), outer, base);
  }

  /** Only jumps matter to a threaded list. */
  lemma ThreadedOthers(code: seq<Instr>, code': seq<Instr>, s: seq<nat>)
    requires Threaded(code, s) && |code'| == |code|
    requires forall i :: 0 <= i < |code| && code[i].Jump? ==> code'[i] == code[i]
    ensures Threaded(code', s)
  {
    forall k | 0 <= k < |s|
      ensures LinkAt(code', s, k)
    {
      assert LinkAt(code, s, k);
    }
  }

  lemma ThreadedWithout(code: seq<Instr>, t: seq<nat>, s: seq<nat>)
    requires Threaded(code, s)
    ensures Threaded(WithoutValues(code, t), s)
  {
    ThreadedOthers(code, WithoutValues(code, t), s);
  }

  lemma ThreadedValues(code: seq<Instr>, t: seq<nat>, f: seq<nat>, s: seq<nat>)
    requires Threaded(code, s)
    ensures Threaded(WithoutValues(WithoutValues(code, t), f), s)
  {
    ThreadedOthers(code, WithoutValues(code, t), s);
    ThreadedOthers(WithoutValues(code, t), WithoutValues(WithoutValues(code, t), f), s);
  }

  lemma EmptyThreaded(code: seq<Instr>)
    ensures Threaded(code, []) && Elems([]) == {}
  {
  }

  lemma DistinctElems(s: seq<nat>, t: seq<nat>)
    ensures Elems(s + t) == Elems(s) + Elems(t)
  {
  }

  lemma FreeIgnoresLists(g: Gen, d: Desc)
    ensures FreeExpression(g, Desc(d.kind, [], [])) == FreeExpression(g, d)
  {
  }

  lemma SplitComparison(g: Gen, d: Desc, ss: seq<nat>, sg: seq<nat>, outer: set<nat>, base: nat)
    requires WfDesc(g, d, outer, base) && d.kind.KJump? && ((ss == d.t && sg == d.f) || (ss == d.f && sg == d.t))
    ensures Elems([d.kind.pc]) !! Elems(g.here) + Elems(ss) + Elems(sg)
    ensures 1 <= d.kind.pc <= |g.code| && g.code[d.kind.pc - 1].Compare?
  {
    JumpShape(g, d, outer);
    SingleList(d.kind.pc);
  }

  function DischargeLocal(e: ExprDesc): ExprDesc {
    if e.kind.KLocal? then e.(kind := KNonRelocatable(e.kind.l)) else e
  }

  lemma NoLists(code: seq<Instr>, e: ExprDesc, d: Desc)
    requires e.kind == d.kind && !HasJumps(d) && e.t == NO_JUMP && e.f == NO_JUMP && !d.kind.KJump?
    ensures Represents(code, e, d)
  {
  }

  lemma NextIgnoresLocal(g: Gen, d: Desc)
    ensures ExpressionToNextRegister(g, DischargeVariables(d)) == ExpressionToNextRegister(g, d)
  {
  }

  lemma ListsApart(g: Gen, d: Desc, outer: set<nat>)
    requires WfBody(g, d, outer)
    ensures Elems(d.t) !! Elems(d.f)
  {
  }

  /** A jump not yet patched still holds its link. */
  lemma Untouched(before: seq<Instr>, s: seq<nat>, k: nat, target: int, register: nat, otherwise: int)
    requires Threaded(before, s) && k < |s| && s[k] < |before|
    ensures Patched(before, s[..k], target, register, otherwise)[s[k]] == before[s[k]]
    ensures ControlIsTestSet(Patched(before, s[..k], target, register, otherwise), s[k]) == ControlIsTestSet(before, s[k])
  {
    var code := Patched(before, s[..k], target, register, otherwise);
    assert s[k] !in s[..k];
    assert code[s[k]] == PatchAt(before, s[k], s[..k], target, register, otherwise);
    assert LinkAt(before, s, k);
    if s[k] >= 1 {
      assert code[s[k] - 1] == PatchAt(before, s[k] - 1, s[..k], target, register, otherwise);
      assert (s[k] - 1) + 1 !in s[..k];
    }
  }

  /** One more jump patched. */
  lemma PatchedMore(before: seq<Instr>, s: seq<nat>, k: nat, target: int, register: nat, otherwise: int)
    requires Threaded(before, s) && k < |s| && s[k] < |before| && before[s[k]].Jump?
    ensures var code := Patched(before, s[..k], target, register, otherwise);
            var code' := Patched(before, s[..k + 1], target, register, otherwise);
            var j := s[k];
            var dest := if ControlIsTestSet(before, j) then target else otherwise;
            && |code'| == |code|
            && forall i :: 0 <= i < |code| ==>
                 code'[i] == if i == j then Jump(before[j].a, dest - (j + 1))
                             else if code[i].TestSet? && i + 1 == j then
                               if register == NO_REGISTER || register == code[i].b then Test(code[i].b, code[i].c)
                               else TestSet(register % 256, code[i].b, code[i].c)
                             else code[i]
    ensures PatchTooFar(before, s[..k + 1], target, otherwise)
            == (PatchTooFar(before, s[..k], target, otherwise)
                || TooFar(s[k], if ControlIsTestSet(before, s[k]) then target else otherwise))
  {
    var j := s[k];
    var done := s[..k];
    assert s[..k + 1] == done + [j];
    assert j !in done;
    assert LinkAt(before, s, k);
  }
}
