/**
  The operator-precedence parser for expressions. Operands are single tokens (names and
  literals) or parenthesised expressions.
 */
module LuaParser {
  import opened Basics

  datatype UnaryOp = Minus | NotOp | Length

  datatype BinaryOp =
    | Add | Sub | Mul | Div | Mod | Pow | Concat
    | Eq | Lt | Le | Ne | Gt | Ge | And | Or

  /** '-' is one token, read as a unary or as a binary operator. */
  datatype Token =
    | TkAtom(n: nat) | TkOpen | TkClose | TkMinus | TkNot | TkLength
    | TkOp(op: BinaryOp)
    | TkOther(t: nat)

  function UnaryOf(t: Token): Option<UnaryOp> {
    match t
    case TkNot => Some(NotOp)
    case TkMinus => Some(Minus)
    case TkLength => Some(Length)
    case _ => None
  }

  function BinaryOf(t: Token): Option<BinaryOp> {
    match t
    case TkMinus => Some(Sub)
    case TkOp(op) => if op == Sub then None else Some(op)
    case _ => None
  }

  function Left(op: BinaryOp): nat {
    match op
    case Add => 6 case Sub => 6
    case Mul => 7 case Div => 7 case Mod => 7
    case Pow => 10 case Concat => 5
    case Eq => 3 case Lt => 3 case Le => 3 case Ne => 3 case Gt => 3 case Ge => 3
    case And => 2 case Or => 1
  }

  function Right(op: BinaryOp): nat {
    match op
    case Pow => 9
    case Concat => 4
    case _ => Left(op)
  }

  const UNARY_PRIORITY := 8
  const MAX_CALL_COUNT := 200

  datatype Tree =
    | Atom(n: nat)
    | Paren(t: Tree)
    | Unary(u: UnaryOp, t: Tree)
    | Binary(op: BinaryOp, l: Tree, r: Tree)

  function UnaryToken(u: UnaryOp): Token {
    match u
    case Minus => TkMinus
    case NotOp => TkNot
    case Length => TkLength
  }

  function BinaryToken(op: BinaryOp): Token {
    if op == Sub then TkMinus else TkOp(op)
  }

  /** The tokens of a tree, left to right. */
  function Yield(t: Tree): (s: seq<Token>)
    ensures |s| > 0
  {
    match t
    case Atom(n) => [TkAtom(n)]
    case Paren(t1) => [TkOpen] + Yield(t1) + [TkClose]
    case Unary(u, t1) => [UnaryToken(u)] + Yield(t1)
    case Binary(op, l, r) => Yield(l) + [BinaryToken(op)] + Yield(r)
  }

  // ---- The parser as a function of the tokens ahead ----

  datatype Parsed = Parsed(tree: Tree, rest: seq<Token>) | SyntaxError

  /** The operator ahead, if any. */
  function Ahead(s: seq<Token>): Option<BinaryOp> {
    if s == [] then None else BinaryOf(s[0])
  }

  /** subExpression(limit) with `levels` nested calls left. */
  function SubExpression(s: seq<Token>, limit: nat, levels: nat): (r: Parsed)
    ensures r.Parsed? ==> |r.rest| < |s|
    decreases |s|, 2
  {
    if levels == 0 then SyntaxError
    else
      var r := First(s, levels - 1);
      if r.SyntaxError? then SyntaxError else Operators(r.tree, r.rest, limit, levels)
  }

  /** The part before the loop: a unary operator with its operand, or a simple expression. */
  function First(s: seq<Token>, levels: nat): (r: Parsed)
    ensures r.Parsed? ==> |r.rest| < |s|
    decreases |s|, 1
  {
    if s == [] then SyntaxError
    else
      match UnaryOf(s[0])
      case Some(u) =>
        var r := SubExpression(s[1..], UNARY_PRIORITY, levels);
        if r.SyntaxError? then SyntaxError else Parsed(Unary(u, r.tree), r.rest)
      case None => Simple(s, levels)
  }

  function Simple(s: seq<Token>, levels: nat): (r: Parsed)
    requires s != []
    ensures r.Parsed? ==> |r.rest| < |s|
    decreases |s|, 0
  {
    match s[0]
    case TkAtom(n) => Parsed(Atom(n), s[1..])
    case TkOpen =>
      var r := SubExpression(s[1..], 0, levels);
      if r.SyntaxError? || r.rest == [] || r.rest[0] != TkClose then SyntaxError
      else Parsed(Paren(r.tree), r.rest[1..])
    case _ => SyntaxError
  }

  /** The loop of subExpression. */
  function Operators(e: Tree, s: seq<Token>, limit: nat, levels: nat): (r: Parsed)
    requires levels > 0
    ensures r.Parsed? ==> |r.rest| <= |s|
    decreases |s|, 1
  {
    match Ahead(s)
    case None => Parsed(e, s)
    case Some(op) =>
      if Left(op) <= limit then Parsed(e, s)
      else
        var r := SubExpression(s[1..], Right(op), levels - 1);
        if r.SyntaxError? then SyntaxError else Operators(Binary(op, e, r.tree), r.rest, limit, levels)
  }

  // ---- The parser as it runs ----

  class Parser {
    const tokens: seq<Token>
    var pos: nat
    var nesting: nat

    constructor (tokens: seq<Token>)
      ensures this.tokens == tokens && pos == 0 && nesting == 0
    {
      this.tokens := tokens;
      pos, nesting := 0, 0;
    }

    ghost function Rest(): seq<Token>
      reads this
      requires pos <= |tokens|
    {
      tokens[pos..]
    }

    function Levels(): nat
      reads this
      requires nesting <= MAX_CALL_COUNT
    {
      MAX_CALL_COUNT - nesting
    }

    function CurrentUnary(): (r: Option<UnaryOp>)
      reads this
    {
      if pos < |tokens| then UnaryOf(tokens[pos]) else None
    }

    function CurrentBinary(): (r: Option<BinaryOp>)
      reads this
      requires pos <= |tokens|
      ensures r == Ahead(Rest())
    {
      if pos < |tokens| then BinaryOf(tokens[pos]) else None
    }

    /** simpleExpression. */
    method ParseSimple() returns (ok: bool, e: Tree)
      requires pos <= |tokens| && nesting <= MAX_CALL_COUNT
      modifies this
      ensures pos <= |tokens|
      ensures ok == (old(Rest()) != [] && Simple(old(Rest()), old(Levels())).Parsed?)
      ensures ok ==> Parsed(e, Rest()) == Simple(old(Rest()), old(Levels())) && nesting == old(nesting)
      decreases |tokens| - pos, 0
    {
      e := Atom(0);
      if pos == |tokens| {
        return false, e;
      }
      match tokens[pos]
      case TkAtom(n) =>
        pos := pos + 1;
        return true, Atom(n);
      case TkOpen =>
        pos := pos + 1;
        var inner, op;
        ok, inner, op := ParseSubExpression(0);
        if !ok || pos == |tokens| || tokens[pos] != TkClose {
          return false, e;
        }
        pos := pos + 1;
        return true, Paren(inner);
      case _ =>
        return false, e;
    }

    /** subExpression: what it returns, where it stops, and that it leaves as many levels as
        it entered. */
    method ParseSubExpression(limit: nat) returns (ok: bool, e: Tree, op: Option<BinaryOp>)
      requires pos <= |tokens| && nesting <= MAX_CALL_COUNT
      modifies this
      ensures pos <= |tokens|
      ensures ok == SubExpression(old(Rest()), limit, old(Levels())).Parsed?
      ensures ok ==> Parsed(e, Rest()) == SubExpression(old(Rest()), limit, old(Levels()))
      ensures ok ==> nesting == old(nesting) && op == CurrentBinary()
      decreases |tokens| - pos, 2
    {
      hide Operators, SubExpression, First, Left, Right;
      op, e := None, Atom(0);
      SubExpressionStep(Rest(), limit, Levels());
      nesting := nesting + 1;
      if nesting > MAX_CALL_COUNT {
        return false, e, op;
      }
      ghost var goal := SubExpression(Rest(), limit, old(Levels()));
      ok, e := ParseFirst();
      if !ok {
        return;
      }
      op := CurrentBinary();
      while op.Some? && Left(op.value) > limit
        invariant old(pos) < pos <= |tokens| && nesting == old(nesting) + 1 <= MAX_CALL_COUNT && ok
        invariant op == CurrentBinary()
        invariant goal == Operators(e, Rest(), limit, old(Levels()))
        decreases |tokens| - pos
      {
        OperatorsStep(e, Rest(), limit, old(Levels()));
        pos := pos + 1;
        var right, next;
        ok, right, next := ParseSubExpression(Right(op.value));
        if !ok {
          return;
        }
        e := Binary(op.value, e, right);
        op := next;
      }
      OperatorsEnd(e, Rest(), limit, old(Levels()));
      nesting := nesting - 1;
    }

    /** The part of subExpression before its loop. */
    method ParseFirst() returns (ok: bool, e: Tree)
      requires pos <= |tokens| && nesting <= MAX_CALL_COUNT
      modifies this
      ensures pos <= |tokens|
      ensures ok == First(old(Rest()), old(Levels())).Parsed?
      ensures ok ==> Parsed(e, Rest()) == First(old(Rest()), old(Levels())) && nesting == old(nesting) && old(pos) < pos
      decreases |tokens| - pos, 1
    {
      e := Atom(0);
      var u := CurrentUnary();
      if u.Some? {
        pos := pos + 1;
        var inner, op;
        ok, inner, op := ParseSubExpression(UNARY_PRIORITY);
        if ok {
          e := Unary(u.value, inner);
        }
      } else {
        ok, e := ParseSimple();
      }
    }
  }

  lemma SubExpressionStep(s: seq<Token>, limit: nat, levels: nat)
    ensures SubExpression(s, limit, levels)
            == if levels == 0 || First(s, levels - 1).SyntaxError? then SyntaxError
               else Operators(First(s, levels - 1).tree, First(s, levels - 1).rest, limit, levels)
  {
  }

  lemma OperatorsEnd(e: Tree, s: seq<Token>, limit: nat, levels: nat)
    requires levels > 0 && (Ahead(s).Some? ==> Left(Ahead(s).value) <= limit)
    ensures Operators(e, s, limit, levels) == Parsed(e, s)
  {
  }

  lemma OperatorsStep(e: Tree, s: seq<Token>, limit: nat, levels: nat)
    requires levels > 0 && Ahead(s).Some? && Left(Ahead(s).value) > limit
    ensures s != []
    ensures var r := SubExpression(s[1..], Right(Ahead(s).value), levels - 1);
            Operators(e, s, limit, levels)
            == if r.SyntaxError? then SyntaxError else Operators(Binary(Ahead(s).value, e, r.tree), r.rest, limit, levels)
  {
  }

  // ---- What a tree has to look like ----

  /** Section 3.4.7 of the Lua 5.2 Reference Manual: from lower to higher precedence. */
  function Precedence(op: BinaryOp): nat {
    match op
    case Or => 1
    case And => 2
    case Lt => 3 case Gt => 3 case Le => 3 case Ge => 3 case Ne => 3 case Eq => 3
    case Concat => 4
    case Add => 5 case Sub => 5
    case Mul => 6 case Div => 6 case Mod => 6
    case Pow => 8
  }

  const UNARY_PRECEDENCE := 7

  /** Concatenation and exponentiation are right associative. */
  predicate RightAssociative(op: BinaryOp) {
    op == Concat || op == Pow
  }

  /** Without parentheses, an operand binds tighter than the operator it belongs to, or as
      tight on the side that the operator associates to. */
  predicate Conforms(t: Tree) {
    match t
    case Atom(_) => true
    case Paren(t1) => Conforms(t1)
    case Unary(_, t1) => Conforms(t1) && (t1.Binary? ==> Precedence(t1.op) > UNARY_PRECEDENCE)
    case Binary(op, l, r) =>
      && Conforms(l) && Conforms(r)
      && (l.Unary? ==> UNARY_PRECEDENCE > Precedence(op))
      && (l.Binary? ==> Precedence(l.op) > Precedence(op)
                        || (Precedence(l.op) == Precedence(op) && !RightAssociative(op)))
      && (r.Binary? ==> Precedence(r.op) > Precedence(op)
                        || (Precedence(r.op) == Precedence(op) && RightAssociative(op)))
  }

  /** The nested calls of subExpression that a tree takes. */
  function Depth(t: Tree): (n: nat)
    ensures n > 0
  {
    match t
    case Atom(_) => 1
    case Paren(t1) => 1 + Depth(t1)
    case Unary(_, t1) => 1 + Depth(t1)
    case Binary(_, l, r) => if Depth(l) > 1 + Depth(r) then Depth(l) else 1 + Depth(r)
  }

  /** The operator at the root, if any, is above the limit. */
  predicate Above(t: Tree, limit: nat) {
    t.Binary? ==> Left(t.op) > limit
  }

  /** An operator behind the tree is not taken into its last operand. */
  predicate Closed(t: Tree, next: Option<BinaryOp>) {
    next.None? ||
    match t
    case Atom(_) => true
    case Paren(_) => true
    case Unary(_, t1) => Left(next.value) <= UNARY_PRIORITY && Closed(t1, next)
    case Binary(op, _, r) => Left(next.value) <= Right(op) && Closed(r, next)
  }

  /** In a conforming tree it suffices to look at the root. */
  lemma {:induction false} ClosedAtRoot(t: Tree, next: BinaryOp)
    requires Conforms(t)
    requires t.Unary? ==> Left(next) <= UNARY_PRIORITY
    requires t.Binary? ==> Left(next) <= Right(t.op)
    ensures Closed(t, Some(next))
  {
    match t
    case Atom(_) =>
    case Paren(_) =>
    case Unary(_, t1) => ClosedAtRoot(t1, next);
    case Binary(op, _, r) => ClosedAtRoot(r, next);
  }

  lemma {:induction false} LeftSpineAbove(t: Tree, limit: nat)
    requires Conforms(t) && t.Binary? && Above(t, limit)
    ensures Above(t.l, limit) && Closed(t.l, Some(t.op)) && Above(t.r, Right(t.op))
  {
    ClosedAtRoot(t.l, t.op);
  }

  lemma AheadOfYield(t: Tree, s: seq<Token>)
    requires t.Binary?
    ensures var tail := [BinaryToken(t.op)] + (Yield(t.r) + s);
            && Yield(t) + s == Yield(t.l) + tail
            && Ahead(tail) == Some(t.op) && tail[1..] == Yield(t.r) + s
  {
  }

  /** Reading the tokens of a conforming tree, the parser gets to the tree itself, and goes on
      with the operators behind it. */
  lemma {:induction false} ReadsTree(t: Tree, s: seq<Token>, limit: nat, levels: nat)
    requires Conforms(t) && Above(t, limit) && Closed(t, Ahead(s))
    ensures SubExpression(Yield(t) + s, limit, levels)
            == if Depth(t) <= levels then Operators(t, s, limit, levels) else SyntaxError
    decreases t, 1
  {
    if levels > 0 {
      if t.Binary? {
        AheadOfYield(t, s);
        var tail := [BinaryToken(t.op)] + (Yield(t.r) + s);
        LeftSpineAbove(t, limit);
        ReadsTree(t.l, tail, limit, levels);
        ReadsTree(t.r, s, Right(t.op), levels - 1);
      } else {
        ReadsFirst(t, s, levels);
      }
    }
  }

  lemma {:induction false} ReadsFirst(t: Tree, s: seq<Token>, levels: nat)
    requires Conforms(t) && !t.Binary? && Closed(t, Ahead(s)) && levels > 0
    ensures First(Yield(t) + s, levels - 1) == if Depth(t) <= levels then Parsed(t, s) else SyntaxError
    decreases t, 0
  {
    hide SubExpression;
    match t
    case Atom(n) =>
      var all := [TkAtom(n)] + s;
      assert Yield(t) + s == all && all[1..] == s;
      assert Simple(all, levels - 1) == Parsed(t, s);
    case Paren(t1) =>
      var inner := [TkClose] + s;
      var all := [TkOpen] + (Yield(t1) + inner);
      assert Yield(t) + s == all && all[1..] == Yield(t1) + inner && inner[1..] == s;
      ReadsTree(t1, inner, 0, levels - 1);
      assert Simple(all, levels - 1) == if Depth(t1) < levels then Parsed(t, s) else SyntaxError;
    case Unary(u, t1) =>
      var all := [UnaryToken(u)] + (Yield(t1) + s);
      assert Yield(t) + s == all && all[1..] == Yield(t1) + s;
      ReadsTree(t1, s, UNARY_PRIORITY, levels - 1);
  }

  /**
    Round trip: for every conforming tree, the parser reads the tree's tokens back as that very
    tree and stops behind them, exactly when the nesting is within what is left of the limit.
   */
  lemma ParsesBack(t: Tree, s: seq<Token>, limit: nat, levels: nat)
    requires Conforms(t) && Above(t, limit)
    requires Ahead(s).Some? ==> Left(Ahead(s).value) <= limit && Closed(t, Ahead(s))
    ensures SubExpression(Yield(t) + s, limit, levels) == if Depth(t) <= levels then Parsed(t, s) else SyntaxError
  {
    ReadsTree(t, s, limit, levels);
  }

  /** Nothing else can be read from the tokens: a conforming tree is determined by its yield. */
  lemma ConformingTreeIsUnique(t1: Tree, t2: Tree)
    requires Conforms(t1) && Conforms(t2) && Yield(t1) == Yield(t2)
    ensures t1 == t2
  {
    var levels := Depth(t1) + Depth(t2);
    assert Yield(t1) + [] == Yield(t1) && Yield(t2) + [] == Yield(t2);
    ParsesBack(t1, [], 0, levels);
    ParsesBack(t2, [], 0, levels);
  }

  // ---- Soundness ----

  /** What subExpression returns. */
  ghost predicate Sound(s: seq<Token>, limit: nat, levels: nat, r: Parsed) {
    r.Parsed? ==>
      && s == Yield(r.tree) + r.rest
      && Conforms(r.tree) && Above(r.tree, limit) && Depth(r.tree) <= levels
      && Closed(r.tree, Ahead(r.rest))
      && (Ahead(r.rest).Some? ==> Left(Ahead(r.rest).value) <= limit)
  }

  /** For every token sequence: the tree's tokens are exactly those consumed, the tree has the
      manual's precedences and associativities, and the parser stopped only because no binary
      operator above the limit came next. */
  lemma {:induction false} SubExpressionSound(s: seq<Token>, limit: nat, levels: nat)
    ensures Sound(s, limit, levels, SubExpression(s, limit, levels))
    decreases |s|, 2
  {
    if levels > 0 && s != [] {
      match UnaryOf(s[0])
      case Some(u) =>
        SubExpressionSound(s[1..], UNARY_PRIORITY, levels - 1);
        var r := SubExpression(s[1..], UNARY_PRIORITY, levels - 1);
        if r.Parsed? {
          var e := Unary(u, r.tree);
          assert s == [s[0]] + s[1..];
          assert s == Yield(e) + r.rest;
          OperatorsSound(s, e, r.rest, limit, levels);
        }
      case None =>
        SimpleSound(s, limit, levels);
        var r := Simple(s, levels - 1);
        if r.Parsed? {
          OperatorsSound(s, r.tree, r.rest, limit, levels);
        }
    }
  }

  lemma {:induction false} SimpleSound(s: seq<Token>, limit: nat, levels: nat)
    requires s != [] && levels > 0
    ensures var r := Simple(s, levels - 1);
            r.Parsed? ==> s == Yield(r.tree) + r.rest && Conforms(r.tree) && !r.tree.Binary? && !r.tree.Unary? && Depth(r.tree) <= levels
    decreases |s|, 0
  {
    assert s == [s[0]] + s[1..];
    if s[0] == TkOpen {
      SubExpressionSound(s[1..], 0, levels - 1);
      var r := SubExpression(s[1..], 0, levels - 1);
      if r.Parsed? && r.rest != [] && r.rest[0] == TkClose {
        assert r.rest == [TkClose] + r.rest[1..];
        assert s == Yield(Paren(r.tree)) + r.rest[1..];
      }
    }
  }

  /** The loop keeps: the tree so far yields what was read, and may be a left operand of the
      operator ahead. */
  lemma {:induction false} OperatorsSound(all: seq<Token>, e: Tree, s: seq<Token>, limit: nat, levels: nat)
    requires levels > 0 && |s| < |all|
    requires all == Yield(e) + s && Conforms(e) && Above(e, limit) && Depth(e) <= levels && Closed(e, Ahead(s))
    ensures Sound(all, limit, levels, Operators(e, s, limit, levels))
    decreases |s|, 1
  {
    var next := Ahead(s);
    if next.Some? && Left(next.value) > limit {
      var op := next.value;
      SubExpressionSound(s[1..], Right(op), levels - 1);
      var r := SubExpression(s[1..], Right(op), levels - 1);
      if r.Parsed? {
        var e' := Binary(op, e, r.tree);
        assert s == [BinaryToken(op)] + s[1..];
        assert all == Yield(e') + r.rest;
        AsLeftOperand(e, op);
        AsRightOperand(r.tree, op);
        OperatorsSound(all, e', r.rest, limit, levels);
      }
    }
  }

  lemma AsLeftOperand(e: Tree, op: BinaryOp)
    requires Closed(e, Some(op))
    ensures e.Unary? ==> UNARY_PRECEDENCE > Precedence(op)
    ensures e.Binary? ==> Precedence(e.op) > Precedence(op)
                          || (Precedence(e.op) == Precedence(op) && !RightAssociative(op))
  {
  }

  lemma AsRightOperand(e: Tree, op: BinaryOp)
    requires Above(e, Right(op))
    ensures e.Binary? ==> Precedence(e.op) > Precedence(op)
                          || (Precedence(e.op) == Precedence(op) && RightAssociative(op))
  {
  }

  /** The parser accepts exactly the yields of conforming trees that are not nested too deep. */
  lemma AcceptsExactly(s: seq<Token>, levels: nat)
    ensures (exists t :: SubExpression(s, 0, levels) == Parsed(t, []))
            <==> (exists t :: Conforms(t) && Yield(t) == s && Depth(t) <= levels)
  {
    if t :| SubExpression(s, 0, levels) == Parsed(t, []) {
      SubExpressionSound(s, 0, levels);
      assert Yield(t) + [] == Yield(t);
    }
    if t :| Conforms(t) && Yield(t) == s && Depth(t) <= levels {
      assert Yield(t) + [] == Yield(t);
      ParsesBack(t, [], 0, levels);
    }
  }
}
