/** Branches turned into predicates for hardware (`CFToPredPass`).

    In hardware every block is evaluated, so the condition of a block that the program would not
    reach is arbitrary; a block's predicate tells whether its results count. */
module Predicates {

  datatype Term = Br(dest: nat) | CondBr(cond: nat, yes: nat, no: nat) | Exit

  /** A function body: the terminators of its blocks; block 0 is the entry. */
  type Graph = seq<Term>

  predicate Goes(t: Term, b: nat) { (t.Br? && t.dest == b) || (t.CondBr? && (t.yes == b || t.no == b)) }

  ghost predicate WellFormed(g: Graph) {
    && g != []
    && forall a, b: nat :: 0 <= a < |g| && Goes(g[a], b) ==> b < |g|
  }

  /** The arms of a terminator that go to `b`. */
  function Arms(t: Term, b: nat): nat {
    match t
    case Br(d) => if d == b then 1 else 0
    case CondBr(_, yes, no) => (if yes == b then 1 else 0) + (if no == b then 1 else 0)
    case Exit => 0
  }

  /** The edges into `b` from the first `n` blocks. */
  function Degree(g: Graph, b: nat, n: nat): nat
    requires n <= |g|
  {
    if n == 0 then 0 else Degree(g, b, n - 1) + Arms(g[n-1], b)
  }

  lemma {:induction false} DegreeCounts(g: Graph, b: nat, n: nat, a: nat)
    requires a < n <= |g|
    ensures Arms(g[a], b) <= Degree(g, b, n)
    ensures forall c: nat :: c < a ==> Arms(g[c], b) + Arms(g[a], b) <= Degree(g, b, n)
    decreases n
  {
    if a < n - 1 {
      DegreeCounts(g, b, n - 1, a);
    } else {
      forall c: nat | c < a ensures Arms(g[c], b) + Arms(g[a], b) <= Degree(g, b, n) {
        DegreeCounts(g, b, n - 1, c);
      }
    }
  }

  /** The edge of an unconditional branch, or one of the two of a conditional one, goes to `b`. */
  predicate ArmGoes(t: Term, yes: bool, b: nat) {
    (t.Br? && yes && t.dest == b) || (t.CondBr? && (if yes then t.yes else t.no) == b)
  }

  ghost predicate NoEdge(g: Graph, b: nat, n: nat)
    requires n <= |g|
  {
    forall a, yes :: 0 <= a < n ==> !ArmGoes(g[a], yes, b)
  }

  /** Of the first `n` blocks, arm `yes` of block `a` is the only edge to `b`. */
  ghost predicate OnlyEdge(g: Graph, b: nat, n: nat, a: nat, yes: bool)
    requires n <= |g|
  {
    && a < n && ArmGoes(g[a], yes, b)
    && forall a', yes' :: 0 <= a' < n && ArmGoes(g[a'], yes', b) ==> a' == a && yes' == yes
  }

  ghost predicate OneEdge(g: Graph, b: nat, n: nat)
    requires n <= |g|
  {
    exists a: nat, yes :: OnlyEdge(g, b, n, a, yes)
  }

  lemma ArmsTell(t: Term, b: nat)
    ensures Arms(t, b) == (if ArmGoes(t, true, b) then 1 else 0) + (if ArmGoes(t, false, b) then 1 else 0)
  {}

  lemma {:induction false} NoneIffZero(g: Graph, b: nat, n: nat)
    requires n <= |g|
    ensures Degree(g, b, n) == 0 <==> NoEdge(g, b, n)
  {
    if n > 0 {
      NoneIffZero(g, b, n - 1);
      ArmsTell(g[n-1], b);
      assert NoEdge(g, b, n) <==> NoEdge(g, b, n - 1) && !ArmGoes(g[n-1], true, b) && !ArmGoes(g[n-1], false, b);
    }
  }

  /** A block has a single incoming edge exactly when the count is one. */
  lemma {:induction false} SingleIffOne(g: Graph, b: nat, n: nat)
    requires n <= |g|
    ensures Degree(g, b, n) == 1 <==> OneEdge(g, b, n)
  {
    if n > 0 {
      NoneIffZero(g, b, n - 1);
      SingleIffOne(g, b, n - 1);
      ArmsTell(g[n-1], b);
      if Degree(g, b, n) == 1 {
        OneIsSingle(g, b, n);
      } else if OneEdge(g, b, n) {
        SingleIsOne(g, b, n);
      }
    }
  }

  lemma OneIsSingle(g: Graph, b: nat, n: nat)
    requires 0 < n <= |g|
    requires var yes, no := ArmGoes(g[n-1], true, b), ArmGoes(g[n-1], false, b);
      if yes || no then NoEdge(g, b, n - 1) && yes != no else OneEdge(g, b, n - 1)
    ensures OneEdge(g, b, n)
  {
    var yes, no := ArmGoes(g[n-1], true, b), ArmGoes(g[n-1], false, b);
    if yes || no {
      assert OnlyEdge(g, b, n, n - 1, yes);
    } else {
      var a: nat, y :| OnlyEdge(g, b, n - 1, a, y);
      assert OnlyEdge(g, b, n, a, y);
    }
  }

  lemma SingleIsOne(g: Graph, b: nat, n: nat)
    requires 0 < n <= |g| && OneEdge(g, b, n)
    ensures var yes, no := ArmGoes(g[n-1], true, b), ArmGoes(g[n-1], false, b);
      if yes || no then NoEdge(g, b, n - 1) && yes != no else OneEdge(g, b, n - 1)
  {
    var yes, no := ArmGoes(g[n-1], true, b), ArmGoes(g[n-1], false, b);
    var a: nat, y :| OnlyEdge(g, b, n, a, y);
    if !yes && !no {
      assert ArmGoes(g[a], y, b) && (y == true || y == false);
      assert OnlyEdge(g, b, n - 1, a, y);
    } else {
      assert ArmGoes(g[n-1], yes, b);
    }
  }

  predicate NoPreds(g: Graph, b: nat) { Degree(g, b, |g|) == 0 }

  // ----- The branching program -----

  /** Control leaves `t` for `b`. */
  predicate Taken(t: Term, c: bool, b: nat) {
    match t
    case Br(d) => d == b
    case CondBr(_, yes, no) => (if c then yes else no) == b
    case Exit => false
  }

  /** The block after `k` steps, when each block's condition has the given value. */
  ghost predicate At(g: Graph, cond: nat -> bool, k: nat, b: nat) {
    if k == 0 then b == 0
    else b < |g| && exists a: nat :: a < |g| && At(g, cond, k - 1, a) && Taken(g[a], cond(a), b)
  }

  ghost predicate Reached(g: Graph, cond: nat -> bool, b: nat) { exists k :: At(g, cond, k, b) }

  /** Edges go up in rank: the graph has no cycle. */
  ghost predicate Acyclic(g: Graph, rank: nat -> nat) {
    forall a, b: nat :: 0 <= a < |g| && Goes(g[a], b) ==> rank(a) < rank(b)
  }

  lemma StepReaches(g: Graph, cond: nat -> bool, k: nat, a: nat, b: nat)
    requires At(g, cond, k, a) && a < |g| && b < |g| && Taken(g[a], cond(a), b)
    ensures At(g, cond, k + 1, b)
  {}

  lemma {:induction false} AtIsUnique(g: Graph, cond: nat -> bool, k: nat, a: nat, b: nat)
    requires At(g, cond, k, a) && At(g, cond, k, b)
    ensures a == b
  {
    if k > 0 {
      var a' :| 0 <= a' < |g| && At(g, cond, k - 1, a') && Taken(g[a'], cond(a'), a);
      var b' :| 0 <= b' < |g| && At(g, cond, k - 1, b') && Taken(g[b'], cond(b'), b);
      AtIsUnique(g, cond, k - 1, a', b');
    }
  }

  /** Later blocks of a run have higher ranks. */
  lemma {:induction false} RunGoesUp(g: Graph, cond: nat -> bool, rank: nat -> nat, k: nat, l: nat, a: nat, b: nat)
    requires Acyclic(g, rank) && k < l && At(g, cond, k, a) && At(g, cond, l, b)
    ensures rank(a) < rank(b)
    decreases l
  {
    var b' :| 0 <= b' < |g| && At(g, cond, l - 1, b') && Taken(g[b'], cond(b'), b);
    assert Goes(g[b'], b);
    if k == l - 1 {
      AtIsUnique(g, cond, k, a, b');
    } else {
      RunGoesUp(g, cond, rank, k, l - 1, a, b');
    }
  }

  // ----- The conversion -----

  /** A predicate operand: the block's own, or that with the condition or its complement. */
  datatype Operand = Own | WithCond | WithoutCond

  datatype PredTerm = PBr(dest: nat, p: Operand) | PCondBr(yes: nat, p: Operand, no: nat, q: Operand) | PExit

  /** A converted block: its predicate is the constant one or its first argument. */
  datatype PredBlock = PredBlock(constantOne: bool, term: PredTerm, sink: bool)

  function Converted(g: Graph, b: nat): PredBlock
    requires b < |g|
  {
    var term := match g[b]
      case Br(d) => PBr(d, Own)
      case CondBr(_, yes, no) => PCondBr(yes, WithCond, no, WithoutCond)
      case Exit => PExit;
    PredBlock(NoPreds(g, b), term, !NoPreds(g, b) && g[b].Exit?)
  }

  /** `insertNewBlockParameter`. */
  method InsertPredicates(g: Graph) returns (out: seq<PredBlock>)
    ensures |out| == |g| && forall b :: 0 <= b < |g| ==> out[b] == Converted(g, b)
  {
    out := [];
    for b := 0 to |g|
      invariant |out| == b && forall i :: 0 <= i < b ==> out[i] == Converted(g, i)
    {
      var one := NoPreds(g, b);
      var term;
      match g[b] {
        case Br(d) => term := PBr(d, Own);
        case CondBr(_, yes, no) => term := PCondBr(yes, WithCond, no, WithoutCond);
        case Exit => term := PExit;
      }
      out := out + [PredBlock(one, term, !one && g[b].Exit?)];
    }
  }

  // ----- The hardware -----

  /** One-bit operand values; the complement is computed as 1 - c. */
  function Bit(p: Operand, own: bool, c: bool): bool {
    match p
    case Own => own
    case WithCond => c && own
    case WithoutCond => ((1 - (if c then 1 else 0)) % 2 == 1) && own
  }

  /** An edge: a block and the arm of its terminator. */
  datatype Edge = Edge(block: nat, arm: bool)

  predicate IsEdge(out: seq<PredBlock>, e: Edge, b: nat) {
    e.block < |out| && match out[e.block].term
      case PBr(d, _) => e.arm && d == b
      case PCondBr(yes, _, no, _) => (if e.arm then yes else no) == b
      case PExit => false
  }

  /** What the edge brings to its target, given the predicate of its block. */
  function Brings(out: seq<PredBlock>, e: Edge, own: bool, c: bool): bool
    requires e.block < |out|
  {
    match out[e.block].term
    case PBr(_, p) => Bit(p, own, c)
    case PCondBr(_, p, _, q) => Bit(if e.arm then p else q, own, c)
    case PExit => false
  }

  ghost predicate Ranked(out: seq<PredBlock>, rank: nat -> nat) {
    forall e: Edge, b: nat :: IsEdge(out, e, b) ==> rank(e.block) < rank(b)
  }

  /** A block's predicate: one, or the "or" of what its incoming edges bring. */
  ghost predicate Active(out: seq<PredBlock>, cond: nat -> bool, rank: nat -> nat, b: nat)
    requires Ranked(out, rank) && b < |out|
    decreases rank(b)
  {
    || out[b].constantOne
    || exists e: Edge :: IsEdge(out, e, b) && Brings(out, e, Active(out, cond, rank, e.block), cond(e.block))
  }

  ghost predicate IsConversion(g: Graph, out: seq<PredBlock>) {
    |out| == |g| && forall b :: 0 <= b < |g| ==> out[b] == Converted(g, b)
  }

  lemma EdgesAreSuccessors(g: Graph, out: seq<PredBlock>, e: Edge, b: nat)
    requires IsConversion(g, out) && IsEdge(out, e, b)
    ensures e.block < |g| && Goes(g[e.block], b)
  {
    assert out[e.block] == Converted(g, e.block);
  }

  lemma AcyclicIsRanked(g: Graph, out: seq<PredBlock>, rank: nat -> nat)
    requires IsConversion(g, out) && Acyclic(g, rank)
    ensures Ranked(out, rank)
  {
    forall e: Edge, b: nat | IsEdge(out, e, b) ensures rank(e.block) < rank(b) {
      EdgesAreSuccessors(g, out, e, b);
    }
  }

  /** An edge brings one exactly when its block is active and control leaves along its arm. */
  lemma BringsIffTaken(g: Graph, out: seq<PredBlock>, e: Edge, b: nat, own: bool, c: bool)
    requires IsConversion(g, out) && IsEdge(out, e, b)
    ensures Brings(out, e, own, c) <==> own && (g[e.block].CondBr? ==> c == e.arm)
    ensures Brings(out, e, own, c) ==> Taken(g[e.block], c, b)
  {
    assert out[e.block] == Converted(g, e.block);
  }

  lemma TakenBrings(g: Graph, out: seq<PredBlock>, a: nat, b: nat, c: bool) returns (e: Edge)
    requires IsConversion(g, out) && a < |g| && Taken(g[a], c, b)
    ensures e.block == a && IsEdge(out, e, b) && Brings(out, e, true, c)
  {
    assert out[a] == Converted(g, a);
    e := Edge(a, if g[a].Br? then true else c);
  }

  ghost predicate OnlyEntryWithoutPreds(g: Graph) { NoPreds(g, 0) && forall b :: 0 < b < |g| ==> !NoPreds(g, b) }

  lemma {:induction false} ActiveIsReached(g: Graph, out: seq<PredBlock>, cond: nat -> bool, rank: nat -> nat, b: nat)
    requires IsConversion(g, out) && Ranked(out, rank) && OnlyEntryWithoutPreds(g) && b < |g|
    requires Active(out, cond, rank, b)
    ensures Reached(g, cond, b)
    decreases rank(b)
  {
    assert out[b] == Converted(g, b);
    if b == 0 {
      assert At(g, cond, 0, 0);
    } else {
      var e: Edge :| IsEdge(out, e, b) && Brings(out, e, Active(out, cond, rank, e.block), cond(e.block));
      BringsIffTaken(g, out, e, b, Active(out, cond, rank, e.block), cond(e.block));
      ActiveIsReached(g, out, cond, rank, e.block);
      var k :| At(g, cond, k, e.block);
      StepReaches(g, cond, k, e.block, b);
    }
  }

  lemma ActiveThrough(g: Graph, out: seq<PredBlock>, cond: nat -> bool, rank: nat -> nat, a: nat, b: nat)
    requires IsConversion(g, out) && Ranked(out, rank) && a < |g| && b < |g| && Taken(g[a], cond(a), b)
    requires Active(out, cond, rank, a)
    ensures Active(out, cond, rank, b)
  {
    var e := TakenBrings(g, out, a, b, cond(a));
    assert Brings(out, e, Active(out, cond, rank, e.block), cond(e.block));
  }

  lemma {:induction false} ReachedIsActive(g: Graph, out: seq<PredBlock>, cond: nat -> bool, rank: nat -> nat, k: nat,
      b: nat)
    requires IsConversion(g, out) && Ranked(out, rank) && NoPreds(g, 0) && b < |g| && At(g, cond, k, b)
    ensures Active(out, cond, rank, b)
    decreases k
  {
    if k == 0 {
      assert out[0] == Converted(g, 0);
    } else {
      var a: nat :| a < |g| && At(g, cond, k - 1, a) && Taken(g[a], cond(a), b);
      ReachedIsActive(g, out, cond, rank, k - 1, a);
      ActiveThrough(g, out, cond, rank, a, b);
    }
  }

  /** A block is active exactly when the branching program reaches it. */
  lemma ActiveIffReached(g: Graph, out: seq<PredBlock>, cond: nat -> bool, rank: nat -> nat, b: nat)
    requires IsConversion(g, out) && Acyclic(g, rank) && OnlyEntryWithoutPreds(g) && b < |g|
    ensures Ranked(out, rank) && (Active(out, cond, rank, b) <==> Reached(g, cond, b))
  {
    AcyclicIsRanked(g, out, rank);
    if Active(out, cond, rank, b) {
      ActiveIsReached(g, out, cond, rank, b);
    }
    if Reached(g, cond, b) {
      var k :| At(g, cond, k, b);
      ReachedIsActive(g, out, cond, rank, k, b);
    }
  }

  /** A block other than the entry that nothing branches to is active although it never runs. */
  lemma OrphanIsActive(g: Graph, out: seq<PredBlock>, cond: nat -> bool, rank: nat -> nat, b: nat)
    requires IsConversion(g, out) && Ranked(out, rank) && 0 < b < |g| && NoPreds(g, b)
    ensures Active(out, cond, rank, b) && !Reached(g, cond, b)
  {
    assert out[b] == Converted(g, b);
    forall k ensures !At(g, cond, k, b) {
      if k > 0 {
        forall a: nat | a < |g| ensures !Taken(g[a], cond(a), b) {
          DegreeCounts(g, b, |g|, a);
        }
      }
    }
  }

  /** The conversion is right for every value of the conditions exactly when every block but the
      entry has a predecessor. */
  lemma ConversionIsRightIff(g: Graph, out: seq<PredBlock>, rank: nat -> nat)
    requires IsConversion(g, out) && Ranked(out, rank) && Acyclic(g, rank) && WellFormed(g) && NoPreds(g, 0)
    ensures (forall cond: nat -> bool, b: nat :: b < |g| ==>
      (Active(out, cond, rank, b) <==> Reached(g, cond, b))) <==> OnlyEntryWithoutPreds(g)
  {
    if OnlyEntryWithoutPreds(g) {
      forall cond: nat -> bool, b: nat | b < |g| ensures Active(out, cond, rank, b) <==> Reached(g, cond, b) {
        ActiveIffReached(g, out, cond, rank, b);
      }
    } else {
      var b :| 0 < b < |g| && NoPreds(g, b);
      var cond := (_: nat) => true;
      OrphanIsActive(g, out, cond, rank, b);
    }
  }

  /** No two incoming edges of a block are ever one together. */
  lemma OneIncomingEdge(g: Graph, out: seq<PredBlock>, cond: nat -> bool, rank: nat -> nat, b: nat, e: Edge, f: Edge)
    requires IsConversion(g, out) && Acyclic(g, rank) && OnlyEntryWithoutPreds(g) && Ranked(out, rank)
    requires IsEdge(out, e, b) && Brings(out, e, Active(out, cond, rank, e.block), cond(e.block))
    requires IsEdge(out, f, b) && Brings(out, f, Active(out, cond, rank, f.block), cond(f.block))
    ensures e == f
  {
    BringsIffTaken(g, out, e, b, Active(out, cond, rank, e.block), cond(e.block));
    BringsIffTaken(g, out, f, b, Active(out, cond, rank, f.block), cond(f.block));
    ActiveIffReached(g, out, cond, rank, e.block);
    ActiveIffReached(g, out, cond, rank, f.block);
    var k :| At(g, cond, k, e.block);
    var l :| At(g, cond, l, f.block);
    SameStep(g, cond, rank, k, l, e.block, f.block, b);
    assert out[e.block] == Converted(g, e.block);
  }

  lemma SameStep(g: Graph, cond: nat -> bool, rank: nat -> nat, k: nat, l: nat, a: nat, a': nat, b: nat)
    requires Acyclic(g, rank) && a < |g| && a' < |g|
    requires At(g, cond, k, a) && At(g, cond, l, a') && Taken(g[a], cond(a), b) && Taken(g[a'], cond(a'), b)
    ensures a == a'
  {
    assert Goes(g[a], b) && Goes(g[a'], b);
    if k == l {
      AtIsUnique(g, cond, k, a, a');
    } else if k < l {
      AfterTaken(g, cond, rank, k, l, a, a', b);
      assert false;
    } else {
      AfterTaken(g, cond, rank, l, k, a', a, b);
      assert false;
    }
  }

  lemma AfterTaken(g: Graph, cond: nat -> bool, rank: nat -> nat, k: nat, l: nat, a: nat, a': nat, b: nat)
    requires Acyclic(g, rank) && a < |g| && k < l
    requires At(g, cond, k, a) && At(g, cond, l, a') && Taken(g[a], cond(a), b)
    ensures rank(b) <= rank(a')
  {
    FollowsTaken(g, cond, k, l, a, b);
    if k + 1 == l {
      AtIsUnique(g, cond, l, b, a');
    } else {
      RunGoesUp(g, cond, rank, k + 1, l, b, a');
    }
  }

  lemma {:induction false} FollowsTaken(g: Graph, cond: nat -> bool, k: nat, l: nat, a: nat, b: nat)
    requires a < |g| && k < l && At(g, cond, k, a) && Taken(g[a], cond(a), b) && exists a' :: At(g, cond, l, a')
    ensures At(g, cond, k + 1, b)
    decreases l
  {
    var a' :| At(g, cond, l, a');
    var p: nat :| p < |g| && At(g, cond, l - 1, p) && Taken(g[p], cond(p), a');
    if k == l - 1 {
      AtIsUnique(g, cond, k, a, p);
    } else {
      FollowsTaken(g, cond, k, l - 1, a, b);
    }
  }

  // ----- Exits -----

  /** The highest rank among the first `n` blocks. */
  function Top(rank: nat -> nat, n: nat): (r: nat)
    ensures forall b: nat :: b < n ==> rank(b) <= r
  {
    if n == 0 then 0 else if rank(n - 1) > Top(rank, n - 1) then rank(n - 1) else Top(rank, n - 1)
  }

  lemma {:induction false} RunEnds(g: Graph, cond: nat -> bool, rank: nat -> nat, k: nat, a: nat) returns (b: nat)
    requires WellFormed(g) && Acyclic(g, rank) && a < |g| && At(g, cond, k, a)
    ensures b < |g| && g[b].Exit? && Reached(g, cond, b)
    decreases Top(rank, |g|) - rank(a)
  {
    if g[a].Exit? {
      b := a;
    } else {
      var next := if g[a].Br? then g[a].dest else if cond(a) then g[a].yes else g[a].no;
      assert Goes(g[a], next);
      StepReaches(g, cond, k, a, next);
      b := RunEnds(g, cond, rank, k + 1, next);
    }
  }

  lemma {:induction false} NothingAfterExit(g: Graph, cond: nat -> bool, k: nat, l: nat, a: nat, b: nat)
    requires a < |g| && g[a].Exit? && At(g, cond, k, a) && At(g, cond, l, b)
    ensures l <= k
    decreases l
  {
    if k < l {
      var p: nat :| p < |g| && At(g, cond, l - 1, p) && Taken(g[p], cond(p), b);
      if k == l - 1 {
        AtIsUnique(g, cond, k, a, p);
        assert false;
      } else {
        NothingAfterExit(g, cond, k, l - 1, a, p);
        assert false;
      }
    }
  }

  lemma ExitsAreSame(g: Graph, cond: nat -> bool, b: nat, c: nat)
    requires b < |g| && c < |g| && g[b].Exit? && g[c].Exit? && Reached(g, cond, b) && Reached(g, cond, c)
    ensures c == b
  {
    var k :| At(g, cond, k, b);
    var l :| At(g, cond, l, c);
    NothingAfterExit(g, cond, k, l, b, c);
    NothingAfterExit(g, cond, l, k, c, b);
    AtIsUnique(g, cond, k, b, c);
  }

  /** Exactly one exit block is active, and exactly one sink is fed a one, unless the entry is the
      exit. */
  lemma OneExit(g: Graph, out: seq<PredBlock>, cond: nat -> bool, rank: nat -> nat) returns (b: nat)
    requires IsConversion(g, out) && WellFormed(g) && Acyclic(g, rank) && OnlyEntryWithoutPreds(g)
    ensures Ranked(out, rank) && b < |g| && g[b].Exit? && Active(out, cond, rank, b)
    ensures forall c :: 0 <= c < |g| && g[c].Exit? && Active(out, cond, rank, c) ==> c == b
    ensures out[b].sink <==> b != 0
    ensures forall c :: 0 <= c < |g| && out[c].sink && Active(out, cond, rank, c) ==> c == b
  {
    AcyclicIsRanked(g, out, rank);
    assert At(g, cond, 0, 0);
    b := RunEnds(g, cond, rank, 0, 0);
    ActiveIffReached(g, out, cond, rank, b);
    forall c | 0 <= c < |g| && g[c].Exit? && Active(out, cond, rank, c) ensures c == b {
      ActiveIffReached(g, out, cond, rank, c);
      ExitsAreSame(g, cond, b, c);
    }
  }
}
