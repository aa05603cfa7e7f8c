/**
  Upvalues. A captured local variable is at first found through its stack slot ("open") and
  gets a home of its own when the slot goes out of scope ("closed"). The program must not see
  the difference: at every moment a variable is one cell, shared by the frame and by all the
  closures that captured it. `Cells` is that machine; `State` is the implementation, with the
  list of open upvalues threaded through heap nodes.
 */
module LuaUpvalues {

  type Value(==, 0, !new)

  // ---- Variables as shared cells ----

  /** Every stack slot stands for a cell; a closure is a sequence of cells. */
  datatype Cells = Cells(slots: seq<nat>, values: seq<Value>, closures: seq<seq<nat>>)

  /** What a prototype says about one upvalue. */
  datatype Desc = Local(index: nat) | Outer(index: nat)

  datatype Op =
    | ReadLocal(slot: nat)
    | WriteLocal(slot: nat, v: Value)
    | MakeClosure(descs: seq<Desc>, parent: nat, base: nat)
    | ReadUpValue(closure: nat, i: nat)
    | WriteUpValue(closure: nat, i: nat, v: Value)
    | Close(level: nat)

  predicate DescOk(m: Cells, d: Desc, parent: nat, base: nat) {
    match d
    case Local(i) => base + i < |m.slots|
    case Outer(i) => parent < |m.closures| && i < |m.closures[parent]|
  }

  predicate Enabled(m: Cells, op: Op) {
    match op
    case ReadLocal(i) => i < |m.slots|
    case WriteLocal(i, _) => i < |m.slots|
    case MakeClosure(ds, parent, base) => forall k :: 0 <= k < |ds| ==> DescOk(m, ds[k], parent, base)
    case ReadUpValue(c, i) => c < |m.closures| && i < |m.closures[c]|
    case WriteUpValue(c, i, _) => c < |m.closures| && i < |m.closures[c]|
    case Close(_) => true
  }

  predicate SlotsOk(m: Cells) {
    && (forall i :: 0 <= i < |m.slots| ==> m.slots[i] < |m.values|)
    && (forall i, j :: 0 <= i < j < |m.slots| ==> m.slots[i] != m.slots[j])
  }

  predicate ClosureOk(m: Cells, c: seq<nat>) {
    forall k :: 0 <= k < |c| ==> c[k] < |m.values|
  }

  predicate CellsOk(m: Cells) {
    && SlotsOk(m)
    && (forall c :: 0 <= c < |m.closures| ==> ClosureOk(m, m.closures[c]))
  }

  function Captured(m: Cells, d: Desc, parent: nat, base: nat): (c: nat)
    requires CellsOk(m) && DescOk(m, d, parent, base)
    ensures c < |m.values|
  {
    match d
    case Local(i) => m.slots[base + i]
    case Outer(i) =>
      assert ClosureOk(m, m.closures[parent]);
      m.closures[parent][i]
  }

  function CapturedAll(m: Cells, ds: seq<Desc>, parent: nat, base: nat): (c: seq<nat>)
    requires CellsOk(m) && forall k :: 0 <= k < |ds| ==> DescOk(m, ds[k], parent, base)
    ensures |c| == |ds| && forall k :: 0 <= k < |ds| ==> c[k] == Captured(m, ds[k], parent, base)
    ensures ClosureOk(m, c)
  {
    seq(|ds|, k requires 0 <= k < |ds| => Captured(m, ds[k], parent, base))
  }

  /** The slots from the level on stand for new variables, which start with what is there. */
  function Fork(m: Cells, level: nat): (r: Cells)
    requires CellsOk(m)
    ensures CellsOk(r) && |r.slots| == |m.slots| && r.closures == m.closures
    ensures |m.values| <= |r.values| && r.values[..|m.values|] == m.values
    ensures forall i :: 0 <= i < |m.slots| ==> r.values[r.slots[i]] == m.values[m.slots[i]]
    ensures forall i :: 0 <= i < |m.slots| ==> if i < level then r.slots[i] == m.slots[i] else r.slots[i] >= |m.values|
  {
    if level >= |m.slots| then m
    else
      ForkFacts(m, level, Forked(m, level));
      Forked(m, level)
  }

  function Forked(m: Cells, level: nat): (r: Cells)
    requires CellsOk(m) && level < |m.slots|
  {
    Cells(ForkedSlots(m.slots, level, |m.values|), m.values + ForkedValues(m.slots, m.values, level), m.closures)
  }

  function ForkedSlots(slots: seq<nat>, level: nat, n: nat): (r: seq<nat>)
    requires level <= |slots|
    ensures |r| == |slots|
    ensures forall i :: 0 <= i < |slots| ==> r[i] == if i < level then slots[i] else n + i - level
  {
    seq(|slots|, i requires 0 <= i < |slots| => if i < level then slots[i] else n + i - level)
  }

  function ForkedValues(slots: seq<nat>, values: seq<Value>, level: nat): (r: seq<Value>)
    requires level <= |slots| && forall i :: 0 <= i < |slots| ==> slots[i] < |values|
    ensures |r| == |slots| - level
    ensures forall i :: 0 <= i < |slots| - level ==> r[i] == values[slots[level + i]]
  {
    seq(|slots| - level, i requires 0 <= i < |slots| - level => values[slots[level + i]])
  }

  lemma ForkFacts(m: Cells, level: nat, r: Cells)
    requires CellsOk(m) && level < |m.slots|
    requires |r.slots| == |m.slots| && r.closures == m.closures
    requires |r.values| == |m.values| + |m.slots| - level && r.values[..|m.values|] == m.values
    requires forall i :: 0 <= i < |m.slots| ==> r.slots[i] == if i < level then m.slots[i] else |m.values| + i - level
    requires forall i :: |m.values| <= i < |r.values| ==> r.values[i] == m.values[m.slots[level + i - |m.values|]]
    ensures CellsOk(r)
    ensures forall i :: 0 <= i < |m.slots| ==> r.values[r.slots[i]] == m.values[m.slots[i]]
  {
    assert forall c :: 0 <= c < |m.closures| && ClosureOk(m, m.closures[c]) ==> ClosureOk(r, r.closures[c]);
    forall i | 0 <= i < |m.slots|
      ensures r.slots[i] < |r.values| && r.values[r.slots[i]] == m.values[m.slots[i]]
    {
      if i < level {
        assert r.values[r.slots[i]] == r.values[..|m.values|][m.slots[i]];
      }
    }
  }

  function Step(m: Cells, op: Op): (r: Cells)
    requires CellsOk(m) && Enabled(m, op)
    ensures CellsOk(r) && |r.slots| == |m.slots|
  {
    match op
    case ReadLocal(_) => m
    case ReadUpValue(_, _) => m
    case WriteLocal(i, v) => Write(m, m.slots[i], v)
    case WriteUpValue(c, i, v) =>
      assert ClosureOk(m, m.closures[c]);
      Write(m, m.closures[c][i], v)
    case MakeClosure(ds, parent, base) =>
      AddClosure(m, CapturedAll(m, ds, parent, base))
    case Close(level) => Fork(m, level)
  }

  function Write(m: Cells, c: nat, v: Value): (r: Cells)
    requires CellsOk(m) && c < |m.values|
    ensures CellsOk(r)
  {
    var r := m.(values := m.values[c := v]);
    assert forall c :: 0 <= c < |m.closures| && ClosureOk(m, m.closures[c]) ==> ClosureOk(r, r.closures[c]);
    r
  }

  function AddClosure(m: Cells, cl: seq<nat>): (r: Cells)
    requires CellsOk(m) && ClosureOk(m, cl)
    ensures CellsOk(r)
  {
    var r := m.(closures := m.closures + [cl]);
    assert forall c :: 0 <= c < |m.closures| && ClosureOk(m, m.closures[c]) ==> ClosureOk(r, r.closures[c]);
    r
  }

  /** What the program sees of an operation. */
  function Output(m: Cells, op: Op): seq<Value>
    requires CellsOk(m) && Enabled(m, op)
  {
    match op
    case ReadLocal(i) => [m.values[m.slots[i]]]
    case ReadUpValue(c, i) =>
      assert ClosureOk(m, m.closures[c]);
      [m.values[m.closures[c][i]]]
    case _ => []
  }

  /** Each operation names slots and closures that exist. */
  predicate Runnable(m: Cells, ops: seq<Op>)
    requires CellsOk(m)
    decreases |ops|
  {
    ops == [] || (Enabled(m, ops[0]) && Runnable(Step(m, ops[0]), ops[1..]))
  }

  function Outputs(m: Cells, ops: seq<Op>): seq<Value>
    requires CellsOk(m) && Runnable(m, ops)
    decreases |ops|
  {
    if ops == [] then [] else Output(m, ops[0]) + Outputs(Step(m, ops[0]), ops[1..])
  }

  /** A write to a captured variable, by the frame or by any closure, is seen by every closure
      that captured it, until the slot is closed; after that the slot and the closures are
      apart, and closing by itself changes nothing that a closure reads. */
  lemma CloseSeparates(m: Cells, level: nat, i: nat, v: Value, c: nat, k: nat)
    requires CellsOk(m) && Enabled(m, ReadUpValue(c, k)) && i < |m.slots|
    ensures var read := ReadUpValue(c, k);
            var closed := Step(m, Close(level));
            && Enabled(closed, read) && Output(closed, read) == Output(m, read)
            && (m.closures[c][k] == m.slots[i] ==> Output(Step(m, WriteLocal(i, v)), read) == [v])
            && (m.closures[c][k] != m.slots[i] || level <= i ==>
                  Output(Step(closed, WriteLocal(i, v)), read) == Output(m, read))
  {
    assert ClosureOk(m, m.closures[c]);
    var cell, closed := m.closures[c][k], Step(m, Close(level));
    assert closed.values[cell] == closed.values[..|m.values|][cell];
  }

  // ---- The implementation ----

  datatype Home = InStack(index: nat) | Own(value: Value)

  class UpValue {
    var home: Home

    constructor (home: Home)
      ensures this.home == home
    {
      this.home := home;
    }

    predicate IsInStackAt(level: nat)
      reads this
    {
      home.InStack? && home.index == level
    }

    predicate IsInStackAbove(level: nat)
      reads this
    {
      home.InStack? && home.index >= level
    }
  }

  /** A node of the list of open upvalues. */
  class OpenUpValue {
    const upValue: UpValue
    var next: OpenUpValue?

    constructor (upValue: UpValue, next: OpenUpValue?)
      ensures this.upValue == upValue && this.next == next
    {
      this.upValue := upValue;
      this.next := next;
    }
  }

  class Closure {
    var upValues: seq<UpValue>

    constructor ()
      ensures upValues == []
    {
      upValues := [];
    }
  }

  predicate NextIn(l: seq<OpenUpValue>, k: nat)
    requires k < |l|
    reads l[k]
  {
    l[k].next == if k + 1 < |l| then l[k + 1] else null
  }

  ghost predicate Threaded(head: OpenUpValue?, l: seq<OpenUpValue>)
    reads l
  {
    && head == (if l == [] then null else l[0])
    && (forall k :: 0 <= k < |l| ==> NextIn(l, k))
    && (forall j, k :: 0 <= j < k < |l| ==> l[j] != l[k])
  }

  ghost function UpValuesOf(l: seq<OpenUpValue>): set<UpValue> {
    set n | n in l :: n.upValue
  }

  lemma Without(kept: seq<OpenUpValue>, e: OpenUpValue, tail: seq<OpenUpValue>)
    ensures UpValuesOf(kept + [e] + tail) == UpValuesOf(kept + tail) + {e.upValue}
  {
    assert e in kept + [e] + tail;
    assert forall n :: n in kept + tail ==> n in kept + [e] + tail;
  }

  lemma PassedOn(kept: seq<OpenUpValue>, all: seq<OpenUpValue>, k: nat)
    requires k < |all| && forall n :: n in kept ==> n in all[..k]
    ensures forall n :: n in kept ==> n in all[..k + 1]
    ensures forall n :: n in kept + [all[k]] ==> n in all[..k + 1]
  {
    assert all[..k + 1] == all[..k] + [all[k]];
  }

  ghost predicate Among(l: seq<OpenUpValue>, all: seq<OpenUpValue>) {
    forall n :: n in l ==> n in all
  }

  /** Where an upvalue finds its variable, against the cell that the variable is. */
  ghost predicate AgreesWith(home: Home, cell: nat, m: Cells)
    requires cell < |m.values|
  {
    match home
    case InStack(i) => i < |m.slots| && cell == m.slots[i]
    case Own(v) => m.values[cell] == v && cell !in m.slots
  }

  class State {
    var stack: seq<Value>
    var upValues: OpenUpValue?
    /** The nodes reachable from `upValues`. */
    ghost var list: seq<OpenUpValue>
    /** The variables, and which of them each upvalue ever made stands for. */
    ghost var cells: Cells
    ghost var cellOf: map<UpValue, nat>

    /** One upvalue against its cell. */
    ghost predicate Agrees(uv: UpValue)
      reads this`cells, this`cellOf, uv
      requires uv in cellOf
    {
      cellOf[uv] < |cells.values| && AgreesWith(uv.home, cellOf[uv], cells)
    }

    ghost predicate Cellular()
      reads this`stack, this`cells, this`cellOf
    {
      && CellsOk(cells)
      && |stack| == |cells.slots|
      && (forall i :: 0 <= i < |stack| ==> stack[i] == cells.values[cells.slots[i]])
      && (forall u, v :: u in cellOf && v in cellOf && cellOf[u] == cellOf[v] ==> u == v)
    }

    ghost predicate Found()
      reads this`list, this`cellOf, cellOf.Keys
    {
      forall u :: u in cellOf && u.home.InStack? ==> u in UpValuesOf(list)
    }

    ghost predicate AllBelow(level: nat)
      reads this`cellOf, cellOf.Keys
    {
      forall u :: u in cellOf && u.home.InStack? ==> u.home.index < level
    }

    /** All open upvalues are in the list; a node in it may be closed. */
    ghost predicate Valid()
      reads this, list, cellOf.Keys
    {
      && Cellular()
      && Threaded(upValues, list)
      && (forall n :: n in list ==> n.upValue in cellOf)
      && (forall u :: u in cellOf ==> Agrees(u))
      && Found()
    }

    /** All that a state may change. */
    ghost function Owned(): set<object>
      reads this
    {
      {this as object} + (set n: OpenUpValue | n in list :: n as object) + (set u: UpValue | u in cellOf :: u as object)
    }

    /** A closure's upvalues are the cells it captured. */
    ghost predicate Bound(c: Closure, cl: seq<nat>)
      reads this, c
    {
      |c.upValues| == |cl| && forall k :: 0 <= k < |cl| ==> c.upValues[k] in cellOf && cellOf[c.upValues[k]] == cl[k]
    }

    constructor (initial: seq<Value>)
      ensures Valid() && stack == initial && list == [] && cellOf == map[]
      ensures cells == Cells(seq(|initial|, i => i), initial, [])
    {
      stack := initial;
      upValues := null;
      list := [];
      cells := Cells(seq(|initial|, i => i), initial, []);
      cellOf := map[];
    }

    /** At most one upvalue is open for a slot. */
    lemma OneOpenPerSlot(u: UpValue, v: UpValue)
      requires Valid() && u in cellOf && v in cellOf && u.home.InStack? && u.home == v.home
      ensures u == v
    {
      assert Agrees(u) && Agrees(v);
    }

    /** upValue.value and luaClosure.upValue. */
    method Read(c: Closure, i: nat) returns (v: Value)
      requires Valid() && i < |c.upValues| && c.upValues[i] in cellOf
      ensures cellOf[c.upValues[i]] < |cells.values| && v == cells.values[cellOf[c.upValues[i]]]
    {
      var uv := c.upValues[i];
      assert Agrees(uv);
      match uv.home
      case InStack(index) => v := stack[index];
      case Own(value) => v := value;
    }

    /** luaClosure.setUpValue: everyone who shares the variable sees the new value, and no other
        variable changes. */
    method SetUpValue(c: Closure, i: nat, v: Value)
      requires Valid() && i < |c.upValues| && c.upValues[i] in cellOf
      modifies this`stack, this`cells, c.upValues[i]
      ensures Valid()
      ensures old(cellOf[c.upValues[i]]) < |old(cells).values| && cells == Write(old(cells), old(cellOf[c.upValues[i]]), v)
    {
      var uv := c.upValues[i];
      ghost var cell := cellOf[uv];
      assert Agrees(uv);
      if uv.home.InStack? {
        stack := stack[uv.home.index := v];
      } else {
        uv.home := Own(v);
      }
      cells := Write(cells, cell, v);
      forall u | u in cellOf ensures Agrees(u) {
        assert old(Agrees(u));
      }
    }

    method Local(i: nat) returns (v: Value)
      requires Valid() && i < |cells.slots|
      ensures cells.slots[i] < |cells.values| && v == cells.values[cells.slots[i]]
    {
      v := stack[i];
    }

    /** Assigning a local variable. */
    method SetLocal(i: nat, v: Value)
      requires Valid() && i < |cells.slots|
      modifies this`stack, this`cells
      ensures Valid()
      ensures i < |old(cells).slots| && cells == Write(old(cells), old(cells).slots[i], v)
    {
      stack := stack[i := v];
      cells := Write(cells, cells.slots[i], v);
      forall u | u in cellOf ensures Agrees(u) {
        assert old(Agrees(u));
      }
    }

    /** newUpValueAt, for a slot that has no open upvalue. */
    method NewUpValueAt(level: nat) returns (uv: UpValue)
      requires Valid() && level < |cells.slots|
      requires cells.slots[level] !in cellOf.Values
      modifies this`upValues, this`list, this`cellOf
      ensures Valid() && fresh(uv) && uv.home == InStack(level)
      ensures cellOf == old(cellOf)[uv := cells.slots[level]]
      ensures forall n :: n in list ==> n in old(list) || fresh(n)
    {
      uv := new UpValue(InStack(level));
      var node := new OpenUpValue(uv, upValues);
      ghost var before := list;
      upValues := node;
      list := [node] + list;
      cellOf := cellOf[uv := cells.slots[level]];
      forall i | 0 <= i < |list| ensures NextIn(list, i) {
        if i > 0 {
          assert old(NextIn(list, i - 1));
        }
      }
      forall u | u in cellOf ensures Agrees(u) {
        if u != uv {
          assert old(Agrees(u));
        }
      }
      assert UpValuesOf(list) == {uv} + UpValuesOf(before) by {
        assert node in list && forall n :: n in before ==> n in list;
      }
    }

    /** findUpValue: found or new, the upvalue stands for the variable in the slot. */
    method FindUpValue(level: nat) returns (uv: UpValue)
      requires Valid() && level < |cells.slots|
      modifies this`upValues, this`list, this`cellOf
      ensures Valid()
      ensures uv.home == InStack(level) && cellOf == old(cellOf)[uv := cells.slots[level]]
      ensures uv in old(cellOf) ==> cellOf == old(cellOf)
      ensures uv !in old(cellOf) ==> fresh(uv)
      ensures forall n :: n in list ==> n in old(list) || fresh(n)
    {
      var e := upValues;
      ghost var k := 0;
      while e != null
        invariant 0 <= k <= |list| && e == (if k < |list| then list[k] else null)
        invariant forall j :: 0 <= j < k ==> !list[j].upValue.IsInStackAt(level)
        decreases |list| - k
      {
        assert NextIn(list, k);
        assert e.upValue in cellOf && Agrees(e.upValue);
        if e.upValue.IsInStackAt(level) {
          return e.upValue;
        }
        e, k := e.next, k + 1;
      }
      forall u | u in cellOf ensures cellOf[u] != cells.slots[level] {
        assert Agrees(u);
      }
      uv := NewUpValueAt(level);
    }

    ghost predicate Known(d: Desc, outer: seq<UpValue>, base: nat)
      reads this`cells, this`cellOf
    {
      match d
      case Local(i) => base + i < |cells.slots|
      case Outer(i) => i < |outer| && outer[i] in cellOf
    }

    /** The variable that an upvalue description names. */
    ghost function Target(d: Desc, outer: seq<UpValue>, base: nat): nat
      reads this`cells, this`cellOf
      requires Known(d, outer, base)
    {
      match d
      case Local(i) => cells.slots[base + i]
      case Outer(i) => cellOf[outer[i]]
    }

    /** newClosure: the upvalues of the new closure stand for the variables that its prototype
        names, in the frame at `base` or in the enclosing closure. */
    method NewClosure(descs: seq<Desc>, outer: seq<UpValue>, base: nat) returns (c: Closure)
      requires Valid()
      requires forall k :: 0 <= k < |descs| ==> Known(descs[k], outer, base)
      modifies this`upValues, this`list, this`cellOf
      ensures Valid() && fresh(c) && |c.upValues| == |descs|
      ensures old(cellOf.Keys) <= cellOf.Keys && forall u :: u in old(cellOf) ==> cellOf[u] == old(cellOf)[u]
      ensures forall u :: u in cellOf && u !in old(cellOf) ==> fresh(u)
      ensures forall n :: n in list ==> n in old(list) || fresh(n)
      ensures forall k :: 0 <= k < |descs| ==>
        && Known(descs[k], outer, base)
        && c.upValues[k] in cellOf
        && cellOf[c.upValues[k]] == Target(descs[k], outer, base)
    {
      hide Valid;
      c := new Closure();
      var i := 0;
      while i < |descs|
        invariant 0 <= i <= |descs| && |c.upValues| == i && Valid()
        invariant old(cellOf.Keys) <= cellOf.Keys && forall u :: u in old(cellOf) ==> cellOf[u] == old(cellOf)[u]
        invariant forall u :: u in cellOf && u !in old(cellOf) ==> fresh(u)
        invariant forall n :: n in list ==> n in old(list) || fresh(n)
        invariant forall k :: 0 <= k < |descs| ==> Known(descs[k], outer, base)
        invariant forall k :: 0 <= k < i ==>
          && c.upValues[k] in cellOf
          && cellOf[c.upValues[k]] == Target(descs[k], outer, base)
      {
        var uv := Capture(descs[i], outer, base);
        c.upValues := c.upValues + [uv];
        i := i + 1;
      }
    }

    /** One upvalue of a new closure. */
    method Capture(d: Desc, outer: seq<UpValue>, base: nat) returns (uv: UpValue)
      requires Valid() && Known(d, outer, base)
      modifies this`upValues, this`list, this`cellOf
      ensures Valid() && uv in cellOf && Known(d, outer, base) && cellOf[uv] == old(Target(d, outer, base))
      ensures old(cellOf.Keys) <= cellOf.Keys && forall u :: u in old(cellOf) ==> cellOf[u] == old(cellOf)[u]
      ensures forall u :: u in cellOf && u !in old(cellOf) ==> fresh(u)
      ensures forall n :: n in list ==> n in old(list) || fresh(n)
    {
      hide Valid;
      match d {
        case Local(index) =>
          uv := FindUpValue(base + index);
        case Outer(index) =>
          uv := outer[index];
      }
    }

    /** Takes `e` out of the list, if `p` is still in it. */
    method Unlink(p: OpenUpValue?, e: OpenUpValue, ghost kept: seq<OpenUpValue>, ghost tail: seq<OpenUpValue>)
      requires list == kept + [e] + tail && Threaded(upValues, list)
      requires p == null ==> kept == []
      requires p != null && p in kept ==> kept[|kept| - 1] == p
      requires p != null ==> p != e && p !in tail
      modifies this`upValues, this`list, p
      ensures list == if p == null || p in kept then kept + tail else old(list)
      ensures Threaded(upValues, list)
    {
      assert NextIn(list, |kept|) by {
        assert list[|kept|] == e;
      }
      ghost var before := list;
      if p != null {
        p.next := e.next;
      } else {
        upValues := e.next;
      }
      if p == null || p in kept {
        list := kept + tail;
        assert forall i :: 0 <= i < |list| ==> list[i] == before[if i < |kept| then i else i + 1];
        assert p != null ==> p == before[|kept| - 1];
        forall i | 0 <= i < |list| ensures NextIn(list, i) {
          assert old(NextIn(list, if i < |kept| then i else i + 1));
        }
      } else {
        forall i | 0 <= i < |list| ensures NextIn(list, i) {
          assert old(NextIn(list, i));
        }
      }
    }

    /** In the middle of close: this upvalue was closed before, or is to stay open, or is still
        ahead in the list, or has just been given the value of its slot. */
    ghost predicate HalfClosed(uv: UpValue, level: nat, ahead: seq<OpenUpValue>)
      reads this`cells, this`cellOf, uv
      requires uv in cellOf && CellsOk(cells)
    {
      && cellOf[uv] < |cells.values|
      && match uv.home
         case InStack(i) =>
           && i < |cells.slots| && cellOf[uv] == cells.slots[i]
           && (i >= level ==> uv in UpValuesOf(ahead))
         case Own(v) =>
           && cells.values[cellOf[uv]] == v
           && forall i :: 0 <= i < |cells.slots| && i < level ==> cells.slots[i] != cellOf[uv]
    }

    ghost predicate Halfway(level: nat, all: seq<OpenUpValue>, k: nat)
      reads this`stack, this`cells, this`cellOf, cellOf.Keys
      requires k <= |all|
    {
      && Cellular()
      && (forall n :: n in all ==> n.upValue in cellOf)
      && (forall u :: u in cellOf ==> HalfClosed(u, level, all[k..]))
    }

    /** The list is what was kept of the nodes passed, and the nodes ahead. */
    ghost predicate Listing(all: seq<OpenUpValue>, k: nat, kept: seq<OpenUpValue>, p: OpenUpValue?)
      reads this`upValues, this`list, list, all
      requires k <= |all|
    {
      && p == (if k == 0 then null else all[k - 1])
      && list == kept + all[k..] && Threaded(upValues, list)
      && (forall j :: k <= j < |all| ==> NextIn(all, j))
      && (forall j, j' :: 0 <= j < j' < |all| ==> all[j] != all[j'])
      && (forall n :: n in kept ==> n in all[..k])
      && (p == null ==> kept == [])
      && (p != null && p in kept ==> kept[|kept| - 1] == p)
    }

    ghost function Homes(): map<UpValue, Home>
      reads this`cellOf, cellOf.Keys
    {
      map u | u in cellOf :: u.home
    }

    /** Only upvalues that were open at or above the level have a new home. */
    ghost predicate Spared(homes: map<UpValue, Home>, level: nat)
      reads homes.Keys
    {
      forall u :: u in homes && u.home != homes[u] ==> homes[u].InStack? && homes[u].index >= level
    }

    ghost predicate Closing(level: nat, all: seq<OpenUpValue>, k: nat, kept: seq<OpenUpValue>, p: OpenUpValue?, homes: map<UpValue, Home>)
      reads this, list, all, cellOf.Keys, homes.Keys
      requires k <= |all|
    {
      Halfway(level, all, k) && Listing(all, k, kept, p) && Found() && Spared(homes, level)
    }

    method CloseOne(uv: UpValue, level: nat, ghost all: seq<OpenUpValue>, ghost k: nat, ghost homes: map<UpValue, Home>)
      requires k < |all| && all[k].upValue == uv && Halfway(level, all, k) && Spared(homes, level)
      modifies uv
      ensures Halfway(level, all, k + 1) && Spared(homes, level)
      ensures if old(uv.IsInStackAbove(level)) then uv.home.Own? else uv.home == old(uv.home)
    {
      assert uv in cellOf && HalfClosed(uv, level, all[k..]);
      if uv.IsInStackAbove(level) {
        uv.home := Own(stack[uv.home.index]);
      }
      forall u | u in cellOf ensures HalfClosed(u, level, all[k + 1..]) {
        assert old(HalfClosed(u, level, all[k..]));
        assert all[k..] == [all[k]] + all[k + 1..];
      }
    }

    /** The list part of one round of the loop of close. */
    method UnlinkStep(above: bool, p: OpenUpValue?, e: OpenUpValue, ghost all: seq<OpenUpValue>, ghost k: nat, ghost kept: seq<OpenUpValue>)
      returns (ghost kept': seq<OpenUpValue>)
      requires k < |all| && e == all[k] && Listing(all, k, kept, p)
      modifies this`upValues, this`list, p
      ensures Listing(all, k + 1, kept', e)
      ensures e.next == old(e.next)
      ensures UpValuesOf(old(list)) <= UpValuesOf(list) + if above then {e.upValue} else {}
    {
      hide Threaded, UpValuesOf;
      ghost var tail := all[k + 1..];
      assert all[k..] == [e] + tail;
      assert kept + ([e] + tail) == kept + [e] + tail;
      Without(kept, e, tail);
      PassedOn(kept, all, k);
      kept' := kept + [e];
      if above {
        Unlink(p, e, kept, tail);
        if p == null || p in kept {
          kept' := kept;
        }
      }
    }

    /** One round of the loop of close. */
    method CloseStep(level: nat, p: OpenUpValue?, e: OpenUpValue, ghost all: seq<OpenUpValue>, ghost k: nat, ghost kept: seq<OpenUpValue>,
                     ghost homes: map<UpValue, Home>)
      returns (ghost kept': seq<OpenUpValue>)
      requires k < |all| && e == all[k] && Closing(level, all, k, kept, p, homes)
      modifies this`upValues, this`list, p, e.upValue
      ensures Closing(level, all, k + 1, kept', e, homes)
      ensures e.next == old(e.next) && cells == old(cells) && cellOf == old(cellOf)
    {
      hide Halfway, Listing, Spared, UpValuesOf;
      var above := e.upValue.IsInStackAbove(level);
      CloseOne(e.upValue, level, all, k, homes);
      kept' := UnlinkStep(above, p, e, all, k, kept);
    }

    lemma Start(level: nat)
      requires Valid()
      ensures Closing(level, list, 0, [], null, Homes())
      ensures upValues == if list == [] then null else list[0]
    {
      assert list[0..] == list && [] + list == list;
      forall u | u in cellOf ensures HalfClosed(u, level, list) {
        assert Agrees(u);
      }
    }

    lemma Ahead(level: nat, all: seq<OpenUpValue>, k: nat, kept: seq<OpenUpValue>, p: OpenUpValue?, homes: map<UpValue, Home>)
      requires k < |all| && Closing(level, all, k, kept, p, homes)
      ensures p != null ==> p in all
      ensures all[k].upValue in cellOf
      ensures all[k].next == if k + 1 < |all| then all[k + 1] else null
    {
      assert NextIn(all, k);
    }

    /** With no node ahead, all that is open is below the level. */
    lemma Done(level: nat, all: seq<OpenUpValue>)
      requires Halfway(level, all, |all|)
      ensures AllBelow(level)
      ensures forall u :: u in cellOf ==> cellOf[u] < |cells.values| && AgreesWith(u.home, cellOf[u], Fork(cells, level))
    {
      assert all[|all|..] == [];
      var r := Fork(cells, level);
      forall u | u in cellOf
        ensures (u.home.InStack? ==> u.home.index < level) && cellOf[u] < |cells.values| && AgreesWith(u.home, cellOf[u], r)
      {
        assert HalfClosed(u, level, []);
        assert r.values[cellOf[u]] == r.values[..|cells.values|][cellOf[u]];
      }
    }

    /**
      close: no upvalue stays open at or above the level, every upvalue keeps its variable, and
      the variables keep their values. The loop advances `p` even when it has just taken `p` out
      of the list, so that of two neighbours that are closed the second stays in the list.
     */
    method CloseUpValues(level: nat)
      requires Valid()
      modifies this`upValues, this`list, this`cells, Owned() - {this}
      ensures Valid()
      ensures cells == Fork(old(cells), level)
      ensures AllBelow(level)
      ensures Spared(old(Homes()), level)
      ensures Among(list, old(list))
    {
      hide Closing, Valid, Fork, AllBelow, Spared, Homes, Among;
      var p: OpenUpValue? := null;
      var e := upValues;
      ghost var all := list;
      ghost var k, kept := 0, [];
      ghost var homes := Homes();
      Start(level);
      while e != null
        invariant 0 <= k <= |all| && e == (if k < |all| then all[k] else null)
        invariant cells == old(cells) && cellOf == old(cellOf)
        invariant Closing(level, all, k, kept, p, homes)
        decreases |all| - k
      {
        Ahead(level, all, k, kept, p, homes);
        kept := CloseStep(level, p, e, all, k, kept, homes);
        e, p, k := e.next, e, k + 1;
      }
      Renew(level, all, kept, p, homes);
    }

    ghost method Renew(level: nat, all: seq<OpenUpValue>, kept: seq<OpenUpValue>, p: OpenUpValue?, homes: map<UpValue, Home>)
      requires Closing(level, all, |all|, kept, p, homes)
      modifies this`cells
      ensures Valid() && Spared(homes, level) && cells == Fork(old(cells), level)
      ensures AllBelow(level)
      ensures Among(list, all)
    {
      Done(level, all);
      cells := Fork(cells, level);
    }

    ghost method Adopt(cl: seq<nat>)
      requires Valid() && ClosureOk(cells, cl)
      modifies this`cells
      ensures Valid() && cells == AddClosure(old(cells), cl)
    {
      cells := AddClosure(cells, cl);
      forall u | u in cellOf ensures Agrees(u) {
        assert old(Agrees(u));
      }
    }
  }

  // ---- Whole runs ----

  function Initial(stack: seq<Value>): (m: Cells)
    ensures CellsOk(m)
  {
    Cells(seq(|stack|, i => i), stack, [])
  }

  /** The closures of a run against the cells they captured. */
  ghost predicate Running(l: State, closures: seq<Closure>)
    reads l, l.list, l.cellOf.Keys, closures
  {
    && l.Valid() && CellsOk(l.cells)
    && |closures| == |l.cells.closures|
    && forall c :: 0 <= c < |closures| ==> l.Bound(closures[c], l.cells.closures[c])
  }

  method Perform(l: State, closures: seq<Closure>, op: Op) returns (out: seq<Value>, closures': seq<Closure>)
    requires Running(l, closures) && Enabled(l.cells, op)
    modifies l.Owned()
    ensures Running(l, closures')
    ensures l.cells == Step(old(l.cells), op) && out == Output(old(l.cells), op)
    ensures fresh(l.Owned() - old(l.Owned()))
  {
    hide State.Valid, Fork;
    out, closures' := [], closures;
    match op
    case ReadLocal(i) =>
      var v := l.Local(i);
      out := [v];
    case WriteLocal(i, v) =>
      l.SetLocal(i, v);
    case ReadUpValue(c, i) =>
      assert l.Bound(closures[c], l.cells.closures[c]);
      var v := l.Read(closures[c], i);
      out := [v];
    case WriteUpValue(c, i, v) =>
      assert l.Bound(closures[c], l.cells.closures[c]);
      l.SetUpValue(closures[c], i, v);
    case MakeClosure(ds, parent, base) =>
      var c := PerformMake(l, closures, ds, parent, base);
      closures' := closures + [c];
    case Close(level) =>
      l.CloseUpValues(level);
  }

  method PerformMake(l: State, closures: seq<Closure>, ds: seq<Desc>, parent: nat, base: nat) returns (c: Closure)
    requires Running(l, closures) && Enabled(l.cells, MakeClosure(ds, parent, base))
    modifies l
    ensures Running(l, closures + [c]) && fresh(c)
    ensures l.cells == Step(old(l.cells), MakeClosure(ds, parent, base))
    ensures forall n :: n in l.list ==> n in old(l.list) || fresh(n)
    ensures forall u :: u in l.cellOf ==> u in old(l.cellOf) || fresh(u)
  {
    hide State.Valid;
    var outer := [];
    if parent < |closures| {
      outer := closures[parent].upValues;
      assert l.Bound(closures[parent], l.cells.closures[parent]);
    }
    forall k | 0 <= k < |ds| ensures l.Known(ds[k], outer, base) {
      assert DescOk(l.cells, ds[k], parent, base);
    }
    ghost var cl := CapturedAll(l.cells, ds, parent, base);
    c := l.NewClosure(ds, outer, base);
    l.Adopt(cl);
    assert l.Bound(c, cl);
    forall d | 0 <= d < |closures| ensures l.Bound(closures[d], l.cells.closures[d]) {
      assert old(l.Bound(closures[d], l.cells.closures[d]));
    }
  }

  lemma OutputsStep(m: Cells, ops: seq<Op>)
    requires CellsOk(m) && Runnable(m, ops)
    ensures CellsOk(m) && (ops == [] ==> Outputs(m, ops) == [])
    ensures ops != [] ==>
      && Enabled(m, ops[0]) && Runnable(Step(m, ops[0]), ops[1..])
      && Outputs(m, ops) == Output(m, ops[0]) + Outputs(Step(m, ops[0]), ops[1..])
  {
  }

  method Continue(l: State, closures: seq<Closure>, ops: seq<Op>) returns (out: seq<Value>)
    requires Running(l, closures) && CellsOk(l.cells) && Runnable(l.cells, ops)
    modifies l.Owned()
    ensures out == Outputs(old(l.cells), ops)
    decreases |ops|
  {
    hide *;
    OutputsStep(l.cells, ops);
    if ops == [] {
      return [];
    }
    var closures';
    out, closures' := Perform(l, closures, ops[0]);
    var more := Continue(l, closures', ops[1..]);
    out := out + more;
  }

  /**
    For every stack and every run of reads, writes, captures and closes, the program sees
    exactly what it would see if each variable were one shared cell.
   */
  method Execute(stack: seq<Value>, ops: seq<Op>) returns (out: seq<Value>)
    requires Runnable(Initial(stack), ops)
    ensures out == Outputs(Initial(stack), ops)
  {
    var l := new State(stack);
    out := Continue(l, [], ops);
  }
}
