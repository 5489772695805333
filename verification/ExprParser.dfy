/** Binary expressions (`parseExpression`, `parseBinOpRHS`, `parsePrimary` and `getTokPrecedence`
    of the parser).

    A primary is an opaque token or an expression in parentheses; trees keep a node for the
    parentheses so that they can be read back. */
module ExprParser {

  datatype Oper = Assign | Minus | Plus | Times | Divide | CmpEq | CmpLe | CmpGe | Less | Greater

  datatype Token = Atom(id: nat) | Infix(op: Oper) | Open | Close | Other(kind: nat)

  datatype Tree = Leaf(id: nat) | Paren(inner: Tree) | Binary(op: Oper, lhs: Tree, rhs: Tree)

  datatype Parsed = Ok(tree: Tree, rest: seq<Token>) | Fail

  function Prec(o: Oper): int {
    match o
    case Assign => 10
    case CmpEq | CmpLe | CmpGe | Less | Greater => 15
    case Minus | Plus => 20
    case Times | Divide => 40
  }

  /** The precedence of the pending token, -1 when it is no operator. */
  function TokPrec(ts: seq<Token>): int {
    if ts != [] && ts[0].Infix? then Prec(ts[0].op) else -1
  }

  // ----- The grammar -----

  function Yield(t: Tree): seq<Token> {
    match t
    case Leaf(id) => [Atom(id)]
    case Paren(u) => [Open] + Yield(u) + [Close]
    case Binary(o, l, r) => Yield(l) + [Infix(o)] + Yield(r)
  }

  const PRIMARY := 100

  /** How tightly the tree holds together. */
  function Level(t: Tree): int { if t.Binary? then Prec(t.op) else PRIMARY }

  /** Operators bind by precedence and associate to the left. */
  predicate Respects(t: Tree) {
    match t
    case Leaf(_) => true
    case Paren(u) => Respects(u)
    case Binary(o, l, r) => Respects(l) && Respects(r) && Prec(o) <= Level(l) && Prec(o) < Level(r)
  }

  // ----- The parser, as a function of the remaining tokens -----

  function Primary(ts: seq<Token>): (r: Parsed)
    ensures r.Ok? ==> |r.rest| < |ts|
    decreases |ts|, 0
  {
    if ts == [] then Fail
    else match ts[0]
      case Atom(id) => Ok(Leaf(id), ts[1..])
      case Open =>
        var inner := Expression(ts[1..]);
        if inner.Ok? && inner.rest != [] && inner.rest[0] == Close then Ok(Paren(inner.tree), inner.rest[1..]) else Fail
      case _ => Fail
  }

  /** The right operand of an operator with precedence `q`: a primary, and what binds tighter. */
  function Operand(q: int, ts: seq<Token>): (r: Parsed)
    requires q >= 0
    ensures r.Ok? ==> |r.rest| < |ts|
    decreases |ts|, 1
  {
    var first := Primary(ts);
    if first.Ok? && q < TokPrec(first.rest) then Rhs(q + 1, first.tree, first.rest) else first
  }

  function Rhs(p: int, lhs: Tree, ts: seq<Token>): (r: Parsed)
    requires p >= 0
    ensures r.Ok? ==> |r.rest| <= |ts|
    decreases |ts|, 2
  {
    if TokPrec(ts) < p then Ok(lhs, ts)
    else
      var rhs := Operand(TokPrec(ts), ts[1..]);
      if rhs.Fail? then Fail else Rhs(p, Binary(ts[0].op, lhs, rhs.tree), rhs.rest)
  }

  function Expression(ts: seq<Token>): (r: Parsed)
    ensures r.Ok? ==> |r.rest| < |ts|
    decreases |ts|, 3
  {
    var first := Primary(ts);
    if first.Fail? then Fail else Rhs(0, first.tree, first.rest)
  }

  // ----- What is parsed is in the grammar -----

  ghost predicate Reads(ts: seq<Token>, r: Parsed) {
    r.Ok? ==> ts == Yield(r.tree) + r.rest && Respects(r.tree)
  }

  lemma {:induction false} PrimarySound(ts: seq<Token>)
    ensures Reads(ts, Primary(ts)) && (Primary(ts).Ok? ==> Level(Primary(ts).tree) == PRIMARY)
    decreases |ts|, 0
  {
    if ts != [] && ts[0].Open? {
      ExpressionSound(ts[1..]);
      ParenReads(ts, Expression(ts[1..]));
    } else if ts != [] && ts[0].Atom? {
      assert ts == [ts[0]] + ts[1..];
    }
  }

  lemma ParenReads(ts: seq<Token>, inner: Parsed)
    requires ts != [] && ts[0] == Open && Reads(ts[1..], inner)
    ensures inner.Ok? && inner.rest != [] && inner.rest[0] == Close ==> ts == Yield(Paren(inner.tree)) + inner.rest[1..]
  {
    if inner.Ok? && inner.rest != [] && inner.rest[0] == Close {
      assert ts == [Open] + ts[1..];
      assert inner.rest == [Close] + inner.rest[1..];
    }
  }

  lemma {:induction false} OperandSound(q: int, ts: seq<Token>)
    requires 0 <= q < PRIMARY
    ensures var r := Operand(q, ts); Reads(ts, r) && (r.Ok? ==> q < Level(r.tree) && TokPrec(r.rest) <= q)
    decreases |ts|, 1
  {
    PrimarySound(ts);
    var first := Primary(ts);
    if first.Ok? && q < TokPrec(first.rest) {
      RhsSound(q + 1, first.tree, first.rest);
    }
  }

  lemma MergedReads(lhs: Tree, ts: seq<Token>, rhs: Parsed)
    requires ts != [] && ts[0].Infix? && rhs.Ok? && ts[1..] == Yield(rhs.tree) + rhs.rest
    ensures Yield(lhs) + ts == Yield(Binary(ts[0].op, lhs, rhs.tree)) + rhs.rest
  {
    assert ts == [ts[0]] + ts[1..];
  }

  lemma {:induction false} RhsSound(p: int, lhs: Tree, ts: seq<Token>)
    requires p >= 0 && Respects(lhs) && TokPrec(ts) <= Level(lhs)
    ensures var r := Rhs(p, lhs, ts);
      Reads(Yield(lhs) + ts, r) && (r.Ok? ==> TokPrec(r.rest) < p && (r.tree == lhs || p <= Level(r.tree)))
    decreases |ts|, 2
  {
    if TokPrec(ts) >= p {
      OperandSound(TokPrec(ts), ts[1..]);
      var rhs := Operand(TokPrec(ts), ts[1..]);
      if rhs.Ok? {
        MergedReads(lhs, ts, rhs);
        RhsSound(p, Binary(ts[0].op, lhs, rhs.tree), rhs.rest);
      }
    }
  }

  /** The tree reads back to exactly the consumed tokens, in order, and respects precedence; the
      next token is no operator. */
  lemma {:induction false} ExpressionSound(ts: seq<Token>)
    ensures var r := Expression(ts); r.Ok? ==> ts == Yield(r.tree) + r.rest && Respects(r.tree) && TokPrec(r.rest) < 0
    decreases |ts|, 3
  {
    PrimarySound(ts);
    var first := Primary(ts);
    if first.Ok? {
      RhsSound(0, first.tree, first.rest);
    }
  }

  // ----- Everything in the grammar is parsed -----

  /** The leftmost primary of a tree, and the tokens after it. */
  function First(t: Tree): Tree { if t.Binary? then First(t.lhs) else t }

  function After(t: Tree): seq<Token> {
    if t.Binary? then After(t.lhs) + ([Infix(t.op)] + Yield(t.rhs)) else []
  }

  /** Down the left spine operators bind tighter, so the first one binds at least as tightly as
      the root. */
  lemma {:induction false} FirstOperator(t: Tree, rest: seq<Token>)
    requires Respects(t) && t.Binary?
    ensures Level(t) <= TokPrec(After(t) + rest)
  {
    if t.lhs.Binary? {
      FirstOperator(t.lhs, ([Infix(t.op)] + Yield(t.rhs)) + rest);
      assert After(t) + rest == After(t.lhs) + (([Infix(t.op)] + Yield(t.rhs)) + rest);
    } else {
      assert After(t) + rest == [Infix(t.op)] + (Yield(t.rhs) + rest);
    }
  }

  lemma {:induction false} PrimaryComplete(t: Tree, rest: seq<Token>)
    requires Respects(t)
    ensures Primary(Yield(t) + rest) == Ok(First(t), After(t) + rest)
    decreases t, 2
  {
    if t.Binary? {
      PrimaryComplete(t.lhs, ([Infix(t.op)] + Yield(t.rhs)) + rest);
      assert Yield(t) + rest == Yield(t.lhs) + (([Infix(t.op)] + Yield(t.rhs)) + rest);
      assert After(t) + rest == After(t.lhs) + (([Infix(t.op)] + Yield(t.rhs)) + rest);
    } else if t.Paren? {
      ExpressionComplete(t.inner, [Close] + rest);
      ParenComplete(t.inner, rest);
    } else {
      assert (Yield(t) + rest)[1..] == rest;
      assert After(t) + rest == rest;
    }
  }

  lemma ParenComplete(t: Tree, rest: seq<Token>)
    requires Expression(Yield(t) + ([Close] + rest)) == Ok(t, [Close] + rest)
    ensures Primary(Yield(Paren(t)) + rest) == Ok(Paren(t), [] + rest)
  {
    var ts := Yield(Paren(t)) + rest;
    assert ts[0] == Open && ts[1..] == Yield(t) + ([Close] + rest);
    assert ([Close] + rest)[1..] == rest == [] + rest;
  }

  /** Continuing from the leftmost primary rebuilds the tree. */
  lemma {:induction false} RhsRebuilds(p: int, t: Tree, rest: seq<Token>)
    requires p >= 0 && Respects(t) && p <= Level(t) && TokPrec(rest) <= Level(t)
    ensures Rhs(p, First(t), After(t) + rest) == Rhs(p, t, rest)
    decreases t, 1
  {
    if t.Binary? {
      var more := [Infix(t.op)] + (Yield(t.rhs) + rest);
      assert After(t) + rest == After(t.lhs) + more;
      RhsRebuilds(p, t.lhs, more);
      assert more[1..] == Yield(t.rhs) + rest;
      OperandComplete(t.rhs, Prec(t.op), rest);
    } else {
      assert After(t) + rest == rest;
    }
  }

  /** The right operand is completed before the operator is applied. */
  lemma {:induction false} OperandComplete(r: Tree, q: int, rest: seq<Token>)
    requires q >= 0 && Respects(r) && q < Level(r) && TokPrec(rest) <= q
    ensures Operand(q, Yield(r) + rest) == Ok(r, rest)
    decreases r, 3
  {
    PrimaryComplete(r, rest);
    if r.Binary? {
      FirstOperator(r, rest);
      RhsRebuilds(q + 1, r, rest);
    } else {
      assert After(r) + rest == rest;
    }
  }

  /** A tree that respects precedence is what the parser makes of its tokens. */
  lemma {:induction false} ExpressionComplete(t: Tree, rest: seq<Token>)
    requires Respects(t) && TokPrec(rest) < 0
    ensures Expression(Yield(t) + rest) == Ok(t, rest)
    decreases t, 4
  {
    PrimaryComplete(t, rest);
    RhsRebuilds(0, t, rest);
  }

  // ----- Precedence by operators -----

  predicate IsProduct(o: Oper) { o.Times? || o.Divide? }
  predicate IsSum(o: Oper) { o.Plus? || o.Minus? }
  predicate IsComparison(o: Oper) { o.CmpEq? || o.CmpLe? || o.CmpGe? || o.Less? || o.Greater? }

  /** Products bind tighter than sums, these tighter than comparisons, these tighter than `=`. */
  predicate Tighter(p: Oper, o: Oper) {
    || (IsProduct(p) && !IsProduct(o))
    || (IsSum(p) && (IsComparison(o) || o.Assign?))
    || (IsComparison(p) && o.Assign?)
  }

  /** No operator has a looser one under it, nor an equally tight one on its right. */
  predicate Grouped(t: Tree) {
    match t
    case Leaf(_) => true
    case Paren(u) => Grouped(u)
    case Binary(o, l, r) =>
      && Grouped(l) && Grouped(r)
      && (l.Binary? ==> !Tighter(o, l.op)) && (r.Binary? ==> Tighter(r.op, o))
  }

  /** The table of precedences says exactly this. */
  lemma {:induction false} RespectsIsGrouped(t: Tree)
    ensures Respects(t) <==> Grouped(t)
  {
    match t
    case Leaf(_) =>
    case Paren(u) => RespectsIsGrouped(u);
    case Binary(o, l, r) =>
      RespectsIsGrouped(l);
      RespectsIsGrouped(r);
  }

  /** What the parser makes of tokens is grouped by the classes of its operators. */
  lemma ParsesGrouped(ts: seq<Token>)
    ensures Expression(ts).Ok? ==>
      Grouped(Expression(ts).tree) && ts == Yield(Expression(ts).tree) + Expression(ts).rest
  {
    ExpressionSound(ts);
    if Expression(ts).Ok? {
      RespectsIsGrouped(Expression(ts).tree);
    }
  }

  /** Two operators in a row: the second takes the middle operand exactly if it binds tighter. */
  lemma TwoOperators(a: Tree, o: Oper, b: Tree, p: Oper, c: Tree)
    requires !a.Binary? && !b.Binary? && !c.Binary? && Grouped(a) && Grouped(b) && Grouped(c)
    ensures Expression(Yield(a) + [Infix(o)] + Yield(b) + [Infix(p)] + Yield(c)) ==
      Ok(if Tighter(p, o) then Binary(o, a, Binary(p, b, c)) else Binary(p, Binary(o, a, b), c), [])
  {
    var ts := Yield(a) + [Infix(o)] + Yield(b) + [Infix(p)] + Yield(c);
    var t := if Tighter(p, o) then Binary(o, a, Binary(p, b, c)) else Binary(p, Binary(o, a, b), c);
    RespectsIsGrouped(t);
    assert Yield(t) == ts && ts + [] == ts;
    ExpressionComplete(t, []);
  }

  /** Tokens determine their tree. */
  lemma TreeIsUnique(t: Tree, u: Tree)
    requires Respects(t) && Respects(u) && Yield(t) == Yield(u)
    ensures t == u
  {
    ExpressionComplete(t, []);
    ExpressionComplete(u, []);
  }

  /** The parser fails exactly when no first part of the tokens, ending before a token that is no
      operator, is an expression. */
  lemma FailsIffNoExpression(ts: seq<Token>)
    ensures Expression(ts).Fail? <==>
      !exists t: Tree, rest: seq<Token> :: Respects(t) && TokPrec(rest) < 0 && ts == Yield(t) + rest
  {
    ExpressionSound(ts);
    if exists t: Tree, rest: seq<Token> :: Respects(t) && TokPrec(rest) < 0 && ts == Yield(t) + rest {
      var t: Tree, rest: seq<Token> :| Respects(t) && TokPrec(rest) < 0 && ts == Yield(t) + rest;
      ExpressionComplete(t, rest);
    }
  }

  // ----- The parser, consuming tokens -----

  datatype Result = Node(tree: Tree) | Null

  class Parser {
    const tokens: seq<Token>
    var pos: nat

    constructor (tokens: seq<Token>)
      ensures this.tokens == tokens && pos == 0
    {
      this.tokens, pos := tokens, 0;
    }

    ghost predicate Valid()
      reads this
    {
      pos <= |tokens|
    }

    function Rest(): seq<Token>
      reads this
      requires pos <= |tokens|
    {
      tokens[pos..]
    }

    /** The method's outcome is the function's. */
    ghost predicate Matches(r: Result, p: Parsed)
      reads this
      requires Valid()
    {
      if r.Null? then p.Fail? else p == Ok(r.tree, Rest())
    }

    method GetTokPrecedence() returns (prec: int)
      requires Valid()
      ensures prec == TokPrec(Rest())
    {
      if pos == |tokens| { return -1; }
      match tokens[pos]
      case Infix(o) => prec := Prec(o);
      case _ => prec := -1;
    }

    method ParsePrimary() returns (r: Result)
      requires Valid()
      modifies this
      ensures Valid() && Matches(r, Primary(old(Rest()))) && old(pos) <= pos && (r.Node? ==> old(pos) < pos)
      decreases |tokens| - pos, 0
    {
      if pos == |tokens| { return Null; }
      match tokens[pos]
      case Atom(id) =>
        pos := pos + 1;
        r := Node(Leaf(id));
      case Open =>
        pos := pos + 1;
        var inner := ParseExpression();
        if inner.Null? || pos == |tokens| || tokens[pos] != Close { return Null; }
        pos := pos + 1;
        r := Node(Paren(inner.tree));
      case _ => r := Null;
    }

    method ParseBinOpRHS(exprPrec: int, first: Tree) returns (r: Result)
      requires Valid() && exprPrec >= 0
      modifies this
      ensures Valid() && Matches(r, Rhs(exprPrec, first, old(Rest()))) && old(pos) <= pos
      decreases |tokens| - pos, 1
    {
      var lhs := first;
      while true
        invariant Valid() && old(pos) <= pos
        invariant Rhs(exprPrec, first, old(Rest())) == Rhs(exprPrec, lhs, Rest())
        decreases |tokens| - pos
      {
        var tokPrec := GetTokPrecedence();
        if tokPrec < exprPrec { return Node(lhs); }
        ghost var ts := Rest();
        var binOp := tokens[pos].op;
        pos := pos + 1;
        assert Rest() == ts[1..];
        var rhs := ParsePrimary();
        if rhs.Null? { return Null; }
        var nextPrec := GetTokPrecedence();
        if tokPrec < nextPrec {
          rhs := ParseBinOpRHS(tokPrec + 1, rhs.tree);
          if rhs.Null? { return Null; }
        }
        lhs := Binary(binOp, lhs, rhs.tree);
      }
    }

    method ParseExpression() returns (r: Result)
      requires Valid()
      modifies this
      ensures Valid() && Matches(r, Expression(old(Rest()))) && old(pos) <= pos && (r.Node? ==> old(pos) < pos)
      decreases |tokens| - pos, 2
    {
      var lhs := ParsePrimary();
      if lhs.Null? { return Null; }
      r := ParseBinOpRHS(0, lhs.tree);
    }
  }
}
