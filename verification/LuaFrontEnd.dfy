/**
  From tokens to values: the expression parser as it drives the code generator, with Prefix,
  Infix and Postfix called while the tokens are read, for the operators that the generator's
  model covers.
 */
module LuaFrontEnd {
  import opened Basics
  import opened LuaMachine
  import opened LuaGenerator
  import opened LuaShape
  import opened LuaRuns
  import opened LuaTheorem
  import P = LuaParser

  /** What the names and literals stand for, such as locals and constants. */
  type Leaves = nat -> Expr

  function Comparison(op: P.BinaryOp): Option<CompareOp> {
    match op
    case Eq => Some(Eq)
    case Lt => Some(Lt)
    case Le => Some(Le)
    case Ne => Some(Ne)
    case Gt => Some(Gt)
    case Ge => Some(Ge)
    case _ => None
  }

  predicate Covered(op: P.BinaryOp) {
    op == P.And || op == P.Or || Comparison(op).Some?
  }

  predicate InFragment(t: P.Tree) {
    match t
    case Atom(_) => true
    case Paren(t1) => InFragment(t1)
    case Unary(u, t1) => u == P.NotOp && InFragment(t1)
    case Binary(op, l, r) => Covered(op) && InFragment(l) && InFragment(r)
  }

  function ToExpr(t: P.Tree, leaves: Leaves): Expr
    requires InFragment(t)
  {
    match t
    case Atom(n) => leaves(n)
    case Paren(t1) => EParen(ToExpr(t1, leaves))
    case Unary(_, t1) => ENot(ToExpr(t1, leaves))
    case Binary(op, l, r) =>
      if op == P.And then EAnd(ToExpr(l, leaves), ToExpr(r, leaves))
      else if op == P.Or then EOr(ToExpr(l, leaves), ToExpr(r, leaves))
      else ECompare(Comparison(op).value, ToExpr(l, leaves), ToExpr(r, leaves))
  }

  // ---- What the parser calls ----

  function Infix(g: Gen, op: P.BinaryOp, d: Desc): (Gen, Desc)
    requires Covered(op)
  {
    if op == P.And then GoIfTrue(g, d)
    else if op == P.Or then GoIfFalse(g, d)
    else
      var (g1, d1, _) := ExpressionToOperand(g, d);
      (g1, d1)
  }

  function Postfix(g: Gen, op: P.BinaryOp, d1: Desc, d2: Desc): (Gen, Desc)
    requires Covered(op)
  {
    var d := DischargeVariables(d2);
    if op == P.And then (Concatenate(g, d.f, d1.f), d.(f := d.f + d1.f))
    else if op == P.Or then (Concatenate(g, d.t, d1.t), d.(t := d.t + d1.t))
    else EncodeComparison(g, RelationOf(Comparison(op).value), ConditionOf(Comparison(op).value), d1, d2)
  }

  /** The generator and the expression so far, and the tokens ahead; or an error, or an operator
      that is not covered. */
  datatype Compiled = Compiled(g: Gen, d: Desc, rest: seq<P.Token>) | Stopped

  /** subExpression(limit). */
  function SubExpression(s: seq<P.Token>, g: Gen, leaves: Leaves, limit: nat, levels: nat): (r: Compiled)
    ensures r.Compiled? ==> |r.rest| < |s|
    decreases |s|, 2
  {
    if levels == 0 then Stopped
    else
      var r := First(s, g, leaves, levels - 1);
      if r.Stopped? then Stopped else Operators(r.g, r.d, r.rest, leaves, limit, levels)
  }

  function First(s: seq<P.Token>, g: Gen, leaves: Leaves, levels: nat): (r: Compiled)
    ensures r.Compiled? ==> |r.rest| < |s|
    decreases |s|, 1
  {
    if s == [] then Stopped
    else
      match P.UnaryOf(s[0])
      case Some(u) =>
        var r := SubExpression(s[1..], g, leaves, P.UNARY_PRIORITY, levels);
        if r.Stopped? || u != P.NotOp then Stopped
        else
          var (g1, d1) := EncodeNot(r.g, r.d);
          Compiled(g1, d1, r.rest)
      case None => Simple(s, g, leaves, levels)
  }

  function Simple(s: seq<P.Token>, g: Gen, leaves: Leaves, levels: nat): (r: Compiled)
    requires s != []
    ensures r.Compiled? ==> |r.rest| < |s|
    decreases |s|, 0
  {
    match s[0]
    case TkAtom(n) =>
      var (g1, d1) := Compile(g, leaves(n));
      Compiled(g1, d1, s[1..])
    case TkOpen =>
      var r := SubExpression(s[1..], g, leaves, 0, levels);
      if r.Stopped? || r.rest == [] || r.rest[0] != P.TkClose then Stopped
      else Compiled(r.g, DischargeVariables(r.d), r.rest[1..])
    case _ => Stopped
  }

  function Operators(g: Gen, d: Desc, s: seq<P.Token>, leaves: Leaves, limit: nat, levels: nat): (r: Compiled)
    requires levels > 0
    ensures r.Compiled? ==> |r.rest| <= |s|
    decreases |s|, 1
  {
    match P.Ahead(s)
    case None => Compiled(g, d, s)
    case Some(op) =>
      if P.Left(op) <= limit then Compiled(g, d, s)
      else if !Covered(op) then Stopped
      else
        var (g1, d1) := Infix(g, op, d);
        var r := SubExpression(s[1..], g1, leaves, P.Right(op), levels - 1);
        if r.Stopped? then Stopped
        else
          var (g2, d2) := Postfix(r.g, op, d1, r.d);
          Operators(g2, d2, r.rest, leaves, limit, levels)
  }

  // ---- The code is that of the tree ----

  /** The parser's outcome for an expression that `t` is the tree of. */
  function CompiledTree(p: P.Parsed, g: Gen, leaves: Leaves): Compiled {
    if p.SyntaxError? || !InFragment(p.tree) then Stopped
    else
      var (g', d') := Compile(g, ToExpr(p.tree, leaves));
      Compiled(g', d', p.rest)
  }

  lemma BinaryCompiles(g: Gen, op: P.BinaryOp, l: P.Tree, r: P.Tree, leaves: Leaves)
    requires Covered(op) && InFragment(l) && InFragment(r)
    ensures var (g0, d0) := Compile(g, ToExpr(l, leaves));
            var (g1, d1) := Infix(g0, op, d0);
            var (g2, d2) := Compile(g1, ToExpr(r, leaves));
            Compile(g, ToExpr(P.Binary(op, l, r), leaves)) == Postfix(g2, op, d1, d2)
  {
    hide Compile, GoIfTrue, GoIfFalse, ExpressionToOperand, EncodeComparison, Concatenate, DischargeVariables;
    var e1, e2 := ToExpr(l, leaves), ToExpr(r, leaves);
    if op == P.And {
      CompileAnd(g, e1, e2);
    } else if op == P.Or {
      CompileOr(g, e1, e2);
    } else {
      CompileCompare(g, Comparison(op).value, e1, e2);
    }
  }

  /** Reading tokens and generating code at once is generating the code of the tree read. */
  lemma {:induction false} SubExpressionCompiles(s: seq<P.Token>, g: Gen, leaves: Leaves, limit: nat, levels: nat)
    ensures SubExpression(s, g, leaves, limit, levels) == CompiledTree(P.SubExpression(s, limit, levels), g, leaves)
    decreases |s|, 2
  {
    hide Compile, ToExpr, First, P.First, Operators, P.Operators;
    if levels > 0 {
      FirstCompiles(s, g, leaves, levels - 1);
      var r := P.First(s, levels - 1);
      if r.Parsed? {
        OperatorsCompile(r.tree, r.rest, g, leaves, limit, levels);
      }
    }
  }

  lemma {:induction false} FirstCompiles(s: seq<P.Token>, g: Gen, leaves: Leaves, levels: nat)
    ensures First(s, g, leaves, levels) == CompiledTree(P.First(s, levels), g, leaves)
    decreases |s|, 1
  {
    hide EncodeNot, SubExpression, P.SubExpression;
    if s != [] {
      if P.UnaryOf(s[0]).Some? {
        SubExpressionCompiles(s[1..], g, leaves, P.UNARY_PRIORITY, levels);
      } else {
        SimpleCompiles(s, g, leaves, levels);
      }
    }
  }

  lemma {:induction false} SimpleCompiles(s: seq<P.Token>, g: Gen, leaves: Leaves, levels: nat)
    requires s != []
    ensures Simple(s, g, leaves, levels) == CompiledTree(P.Simple(s, levels), g, leaves)
    decreases |s|, 0
  {
    hide SubExpression, P.SubExpression, DischargeVariables;
    if s[0] == P.TkOpen {
      SubExpressionCompiles(s[1..], g, leaves, 0, levels);
    }
  }

  /** With the code for the tree so far, or stopped if that is not covered. */
  lemma {:induction false} OperatorsCompile(t: P.Tree, s: seq<P.Token>, g: Gen, leaves: Leaves, limit: nat, levels: nat)
    requires levels > 0
    ensures var p := P.Operators(t, s, limit, levels);
            if InFragment(t) then
              var (g0, d0) := Compile(g, ToExpr(t, leaves));
              Operators(g0, d0, s, leaves, limit, levels) == CompiledTree(p, g, leaves)
            else CompiledTree(p, g, leaves) == Stopped
    decreases |s|, 1
  {
    hide Compile, Infix, Postfix, ToExpr, SubExpression, P.SubExpression, Operators, P.Operators, P.Left, P.Right,
         P.BinaryOf, Comparison;
    UnfoldOperators(t, s, limit, levels);
    var next := P.Ahead(s);
    if InFragment(t) {
      var (g0, d0) := Compile(g, ToExpr(t, leaves));
      UnfoldCompiling(g0, d0, s, leaves, limit, levels);
    }
    if next.Some? && P.Left(next.value) > limit {
      var op := next.value;
      var r := P.SubExpression(s[1..], P.Right(op), levels - 1);
      if r.Parsed? {
        OperatorsCompile(P.Binary(op, t, r.tree), r.rest, g, leaves, limit, levels);
      }
      if InFragment(t) && Covered(op) {
        var (g0, d0) := Compile(g, ToExpr(t, leaves));
        SubExpressionCompiles(s[1..], Infix(g0, op, d0).0, leaves, P.Right(op), levels - 1);
        if r.Parsed? && InFragment(r.tree) {
          BinaryCompiles(g, op, t, r.tree, leaves);
        }
      }
    }
  }

  lemma UnfoldOperators(t: P.Tree, s: seq<P.Token>, limit: nat, levels: nat)
    requires levels > 0
    ensures var next := P.Ahead(s);
            P.Operators(t, s, limit, levels)
            == if next.None? || P.Left(next.value) <= limit then P.Parsed(t, s)
               else
                 var r := P.SubExpression(s[1..], P.Right(next.value), levels - 1);
                 if r.SyntaxError? then P.SyntaxError else P.Operators(P.Binary(next.value, t, r.tree), r.rest, limit, levels)
  {
  }

  lemma UnfoldCompiling(g: Gen, d: Desc, s: seq<P.Token>, leaves: Leaves, limit: nat, levels: nat)
    requires levels > 0
    ensures var next := P.Ahead(s);
            Operators(g, d, s, leaves, limit, levels)
            == if next.None? || P.Left(next.value) <= limit then Compiled(g, d, s)
               else if !Covered(next.value) then Stopped
               else
                 var (g1, d1) := Infix(g, next.value, d);
                 var r := SubExpression(s[1..], g1, leaves, P.Right(next.value), levels - 1);
                 if r.Stopped? then Stopped
                 else
                   var (g2, d2) := Postfix(r.g, next.value, d1, r.d);
                   Operators(g2, d2, r.rest, leaves, limit, levels)
  {
    hide Infix, Postfix;
  }

  // ---- And its value is that of the tree ----

  /** What a tree means, by sections 3.4.3 and 3.4.4 of the Lua 5.2 Reference Manual. */
  ghost function Meaning(env: Env, leaves: Leaves, t: P.Tree, frame: Frame): Result
    requires InFragment(t) && Scoped(ToExpr(t, leaves), |frame|)
  {
    match t
    case Atom(n) => Eval(env, leaves(n), frame)
    case Paren(t1) => Meaning(env, leaves, t1, frame)
    case Unary(_, t1) => Negate(Meaning(env, leaves, t1, frame))
    case Binary(op, l, r) =>
      var x := Meaning(env, leaves, l, frame);
      if x.Raise? then Raise
      else if (op == P.And && IsFalse(x.v)) || (op == P.Or && !IsFalse(x.v)) then x
      else
        var y := Meaning(env, leaves, r, frame);
        if op == P.And || op == P.Or || y.Raise? then y else CompareValues(env, Comparison(op).value, x.v, y.v)
  }

  lemma {:induction false} MeaningIsEval(env: Env, leaves: Leaves, t: P.Tree, frame: Frame)
    requires InFragment(t) && Scoped(ToExpr(t, leaves), |frame|)
    ensures Meaning(env, leaves, t, frame) == Eval(env, ToExpr(t, leaves), frame)
  {
    match t
    case Atom(_) =>
    case Paren(t1) => MeaningIsEval(env, leaves, t1, frame);
    case Unary(_, t1) => MeaningIsEval(env, leaves, t1, frame);
    case Binary(_, l, r) =>
      MeaningIsEval(env, leaves, l, frame);
      MeaningIsEval(env, leaves, r, frame);
  }

  /**
    Tokens to code to value: for every conforming tree of the fragment that is not nested too
    deep, reading its tokens leaves the generator with an expression which, put into the next
    register, runs to its end with what the tree means in that register, and every register
    below unchanged.
   */
  lemma TokensToValue(env: Env, frame: Frame, g: Gen, leaves: Leaves, t: P.Tree)
    requires P.Conforms(t) && InFragment(t) && P.Depth(t) <= P.MAX_CALL_COUNT
    requires WfStart(g, {}) && g.here == [] && g.lastTarget == |g.code| && Scoped(ToExpr(t, leaves), g.active)
    requires Fits(Context(env, |g.code|, frame), CompileToNext(g, ToExpr(t, leaves)))
    ensures var r := SubExpression(P.Yield(t), g, leaves, 0, P.MAX_CALL_COUNT);
            && r.Compiled? && r.rest == []
            && var o := Run(env, Finished(ExpressionToNextRegister(r.g, r.d).0), |g.code|, {}, frame);
            && Scoped(ToExpr(t, leaves), |frame|)
            && match Meaning(env, leaves, t, frame)
               case Raise => o == Raised
               case Ok(v) => && o.End? && |o.frame| == |frame| && g.free < |frame| && o.frame[g.free] == v
                             && (forall i :: 0 <= i < g.free ==> o.frame[i] == frame[i])
  {
    hide Compile, ExpressionToNextRegister, Run, Finished, WfStart, Fits, Eval;
    var s := P.Yield(t);
    assert s + [] == s;
    P.ParsesBack(t, [], 0, P.MAX_CALL_COUNT);
    SubExpressionCompiles(s, g, leaves, 0, P.MAX_CALL_COUNT);
    ExpressionCorrect(env, frame, g, ToExpr(t, leaves));
    MeaningIsEval(env, leaves, t, frame);
  }
}
