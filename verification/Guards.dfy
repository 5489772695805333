/** Guards for operations that are lifted into the entry block (`foldPredicates` of
    `EP2LinearizePass`, `emitGuardPredModule` of `EmitFPGA`, and the `guard_pred` circuit).

    Any control-flow graph is allowed, with cycles and with branches on values that are not known
    in the entry block. */
module Guards {
  import opened Predicates

  // ----- Runs -----

  /** One run: the values of the conditions that the entry block defines, and how the other
      branches go, step by step. */
  datatype Choices = Choices(val: nat -> bool, step: nat -> bool)

  /** A graph and the conditions that the entry block defines. */
  datatype Func = Func(g: Graph, atEntry: nat -> bool)

  function CondAt(f: Func, c: Choices, k: nat, t: Term): bool {
    if t.CondBr? && f.atEntry(t.cond) then c.val(t.cond) else c.step(k)
  }

  ghost predicate Visits(f: Func, c: Choices, k: nat, b: nat) {
    if k == 0 then b == 0
    else
      && b < |f.g|
      && exists a: nat :: a < |f.g| && Visits(f, c, k - 1, a) && Taken(f.g[a], CondAt(f, c, k - 1, f.g[a]), b)
  }

  ghost predicate Visited(f: Func, c: Choices, b: nat) { exists k :: Visits(f, c, k, b) }

  /** Some path of `d` edges leads from the entry to `b`. */
  ghost predicate PathTo(g: Graph, d: nat, b: nat) {
    if d == 0 then b == 0
    else b < |g| && exists a: nat :: a < |g| && PathTo(g, d - 1, a) && Goes(g[a], b)
  }

  // ----- The only predecessor -----

  predicate HasSingle(g: Graph, b: nat) { Degree(g, b, |g|) == 1 }

  function LastPred(g: Graph, b: nat, n: nat): (a: nat)
    requires n <= |g| && Degree(g, b, n) > 0
    ensures a < n && Goes(g[a], b)
  {
    if Arms(g[n-1], b) > 0 then n - 1 else LastPred(g, b, n - 1)
  }

  function Single(g: Graph, b: nat): nat
    requires HasSingle(g, b)
  {
    LastPred(g, b, |g|)
  }

  /** A single predecessor is the only one, and branches to the block by one arm only. */
  lemma SingleIsOnly(g: Graph, b: nat, a: nat)
    requires HasSingle(g, b) && a < |g| && Goes(g[a], b)
    ensures a == Single(g, b)
    ensures g[a].CondBr? ==> g[a].yes != g[a].no
  {
    var s := Single(g, b);
    DegreeCounts(g, b, |g|, a);
    DegreeCounts(g, b, |g|, s);
  }

  // ----- Folding -----

  /** The step back from `b` has a single predecessor, and a condition known at the entry. */
  predicate Clear(f: Func, b: nat) {
    HasSingle(f.g, b) && var t := f.g[Single(f.g, b)]; t.CondBr? ==> f.atEntry(t.cond)
  }

  /** The block that the walk back from `b` is at after `n` turns, or where it has stopped. */
  function WalkTo(f: Func, b: nat, n: nat): nat {
    if n == 0 then b
    else
      var c := WalkTo(f, b, n - 1);
      if c != 0 && Clear(f, c) then Single(f.g, c) else c
  }

  /** The walk goes on after `n` turns: it is not at the entry and its next step is clear. */
  predicate GoesOn(f: Func, b: nat, n: nat) { WalkTo(f, b, n) != 0 && Clear(f, WalkTo(f, b, n)) }

  ghost predicate Runs(f: Func, b: nat, n: nat) { forall i: nat :: i < n ==> GoesOn(f, b, i) }

  ghost predicate Endless(f: Func, b: nat) { forall n: nat :: GoesOn(f, b, n) }

  /** The walk gets to the entry. */
  ghost predicate Foldable(f: Func, b: nat) { exists n: nat :: Runs(f, b, n) && WalkTo(f, b, n) == 0 }

  /** How many conditional branches the first `n` turns pass. */
  function Branches(f: Func, b: nat, n: nat): nat {
    if n == 0 then 0
    else Branches(f, b, n - 1) + if GoesOn(f, b, n - 1) && f.g[Single(f.g, WalkTo(f, b, n - 1))].CondBr? then 1 else 0
  }

  /** How many conditions the whole walk passes: if it ends at all, it does within `|f.g|` turns. */
  function Width(f: Func, b: nat): nat { Branches(f, b, |f.g|) }

  ghost predicate Match(val: nat -> bool, preds: seq<nat>, attrs: seq<bool>)
    requires |preds| == |attrs|
  {
    forall i :: 0 <= i < |preds| ==> val(preds[i]) == attrs[i]
  }

  // ----- When the walk ends -----

  lemma {:induction false} WalkInside(f: Func, b: nat, n: nat)
    requires b < |f.g|
    ensures WalkTo(f, b, n) < |f.g|
  {
    if n > 0 { WalkInside(f, b, n - 1); }
  }

  ghost predicate Apart(s: seq<nat>) { forall i, j :: 0 <= i < j < |s| ==> s[i] != s[j] }

  lemma {:induction false} ApartIsShort(s: seq<nat>, n: nat)
    requires Apart(s) && forall i :: 0 <= i < |s| ==> s[i] < n
    ensures |s| <= n
    decreases n
  {
    assert |s| > 0 ==> s[0] < n;
    if n > 0 {
      if exists i :: 0 <= i < |s| && s[i] == n - 1 {
        var i :| 0 <= i < |s| && s[i] == n - 1;
        ApartIsShort(s[..i] + s[i + 1..], n - 1);
      } else {
        ApartIsShort(s, n - 1);
      }
    }
  }

  function Trail(f: Func, b: nat, n: nat): (r: seq<nat>)
    ensures |r| == n && forall i :: 0 <= i < n ==> r[i] == WalkTo(f, b, i)
  {
    seq(n, i requires 0 <= i < n => WalkTo(f, b, i))
  }

  /** The walk comes back, within as many turns as there are blocks, to a block it was at. */
  ghost predicate Returns(f: Func, b: nat, i: nat, j: nat) {
    i < j <= |f.g| && Runs(f, b, j) && WalkTo(f, b, i) == WalkTo(f, b, j)
  }

  lemma LongWalkReturns(f: Func, b: nat)
    requires b < |f.g| && Runs(f, b, |f.g|)
    ensures exists i: nat, j: nat :: Returns(f, b, i, j)
  {
    var s := Trail(f, b, |f.g| + 1);
    forall i | 0 <= i < |s| ensures s[i] < |f.g| {
      WalkInside(f, b, i);
    }
    if Apart(s) {
      ApartIsShort(s, |f.g|);
      assert false;
    } else {
      var i, j :| 0 <= i < j < |s| && s[i] == s[j];
      assert Returns(f, b, i, j);
    }
  }

  lemma {:induction false} SameFromThere(f: Func, b: nat, i: nat, j: nat, m: nat)
    requires WalkTo(f, b, i) == WalkTo(f, b, j)
    ensures WalkTo(f, b, i + m) == WalkTo(f, b, j + m)
    decreases m
  {
    if m > 0 { SameFromThere(f, b, i, j, m - 1); }
  }

  lemma {:induction false} ReturnIsEndless(f: Func, b: nat, i: nat, j: nat, n: nat)
    requires Returns(f, b, i, j)
    ensures GoesOn(f, b, n)
    decreases n
  {
    if n >= j {
      SameFromThere(f, b, i, j, n - j);
      ReturnIsEndless(f, b, i, j, i + (n - j));
    }
  }

  /** The walk never ends exactly when its first turns, as many as there are blocks, all go on;
      equally, exactly when it comes back to a block. */
  lemma EndlessIff(f: Func, b: nat)
    requires b < |f.g|
    ensures Endless(f, b) <==> Runs(f, b, |f.g|)
    ensures Endless(f, b) <==> exists i: nat, j: nat :: Returns(f, b, i, j)
  {
    if Runs(f, b, |f.g|) {
      LongWalkReturns(f, b);
    }
    if exists i: nat, j: nat :: Returns(f, b, i, j) {
      var i: nat, j: nat :| Returns(f, b, i, j);
      forall n: nat ensures GoesOn(f, b, n) {
        ReturnIsEndless(f, b, i, j, n);
      }
    }
  }

  lemma PathToSingle(g: Graph, d: nat, b: nat)
    requires b != 0 && PathTo(g, d, b) && HasSingle(g, b)
    ensures d > 0 && PathTo(g, d - 1, Single(g, b))
  {
    var a: nat :| a < |g| && PathTo(g, d - 1, a) && Goes(g[a], b);
    SingleIsOnly(g, b, a);
  }

  lemma {:induction false} WalkFollowsPath(f: Func, d: nat, b: nat, n: nat)
    requires PathTo(f.g, d, b) && Runs(f, b, n)
    ensures n <= d && PathTo(f.g, d - n, WalkTo(f, b, n))
    decreases n
  {
    if n > 0 {
      WalkFollowsPath(f, d, b, n - 1);
      assert GoesOn(f, b, n - 1);
      PathToSingle(f.g, d - (n - 1), WalkTo(f, b, n - 1));
    }
  }

  /** From a block that some path reaches, the walk ends. */
  lemma ReachedWalkEnds(f: Func, d: nat, b: nat)
    requires PathTo(f.g, d, b)
    ensures !Endless(f, b)
  {
    if Endless(f, b) {
      assert Runs(f, b, d + 1);
      WalkFollowsPath(f, d, b, d + 1);
      assert false;
    }
  }

  /** From a block that branches to itself and to which nothing else branches, it does not. */
  lemma {:induction false} UnreachableLoopIsEndless(n: nat)
    ensures var f := Func([Exit, Br(1)], _ => false); WalkTo(f, 1, n) == 1 && GoesOn(f, 1, n)
  {
    var f := Func([Exit, Br(1)], _ => false);
    assert Degree(f.g, 1, 1) == Degree(f.g, 1, 0) == 0;
    assert Degree(f.g, 1, 2) == 1;
    SingleIsOnly(f.g, 1, 1);
    if n > 0 {
      UnreachableLoopIsEndless(n - 1);
    }
  }

  // ----- What the walk collects -----

  /** A block with one predecessor is visited exactly when that is, and the branch goes there. */
  lemma VisitedThroughSingle(f: Func, c: Choices, b: nat)
    requires b != 0 && b < |f.g| && Clear(f, b)
    ensures var a := Single(f.g, b); var t := f.g[a];
      Visited(f, c, b) <==> Visited(f, c, a) && (t.CondBr? ==> c.val(t.cond) == (t.yes == b))
  {
    var a := Single(f.g, b);
    var t := f.g[a];
    SingleIsOnly(f.g, b, a);
    if Visited(f, c, b) {
      var k: nat :| Visits(f, c, k, b);
      var p: nat :| p < |f.g| && Visits(f, c, k - 1, p) && Taken(f.g[p], CondAt(f, c, k - 1, f.g[p]), b);
      SingleIsOnly(f.g, b, p);
    }
    if Visited(f, c, a) && (t.CondBr? ==> c.val(t.cond) == (t.yes == b)) {
      var k: nat :| Visits(f, c, k, a);
      assert Taken(t, CondAt(f, c, k, t), b);
      assert Visits(f, c, k + 1, b);
    }
  }

  /** Every run visits `block` exactly when it visits `cur` and the conditions match. */
  ghost predicate Follows(f: Func, block: nat, cur: nat, preds: seq<nat>, attrs: seq<bool>)
    requires |preds| == |attrs|
  {
    forall c: Choices :: Visited(f, c, block) <==> Visited(f, c, cur) && Match(c.val, preds, attrs)
  }

  lemma FollowsBack(f: Func, block: nat, cur: nat, preds: seq<nat>, attrs: seq<bool>)
    requires |preds| == |attrs| && Follows(f, block, cur, preds, attrs)
    requires cur != 0 && cur < |f.g| && Clear(f, cur)
    ensures var t := f.g[Single(f.g, cur)];
      if t.CondBr? then Follows(f, block, Single(f.g, cur), preds + [t.cond], attrs + [t.yes == cur])
      else Follows(f, block, Single(f.g, cur), preds, attrs)
  {
    var a := Single(f.g, cur);
    var t := f.g[a];
    if t.CondBr? {
      forall c: Choices
        ensures Visited(f, c, block) <==> Visited(f, c, a) && Match(c.val, preds + [t.cond], attrs + [t.yes == cur])
      {
        VisitedThroughSingle(f, c, cur);
        MatchSnoc(c.val, preds, attrs, t.cond, t.yes == cur);
      }
    } else {
      forall c: Choices ensures Visited(f, c, block) <==> Visited(f, c, a) && Match(c.val, preds, attrs) {
        VisitedThroughSingle(f, c, cur);
      }
    }
  }

  /** What holds after `n` turns of the walk back from `block`. */
  ghost predicate Walking(f: Func, block: nat, n: nat, cur: nat, preds: seq<nat>, attrs: seq<bool>) {
    && |preds| == |attrs| == Branches(f, block, n) && cur < |f.g|
    && cur == WalkTo(f, block, n) && Runs(f, block, n)
    && Follows(f, block, cur, preds, attrs)
  }

  lemma WalkingBack(f: Func, block: nat, n: nat, cur: nat, preds: seq<nat>, attrs: seq<bool>,
      a: nat, preds': seq<nat>, attrs': seq<bool>)
    requires Walking(f, block, n, cur, preds, attrs) && cur != 0 && Clear(f, cur) && a == Single(f.g, cur)
    requires var t := f.g[a];
      if t.CondBr? then preds' == preds + [t.cond] && attrs' == attrs + [t.yes == cur]
        else preds' == preds && attrs' == attrs
    ensures Walking(f, block, n + 1, a, preds', attrs')
  {
    FollowsBack(f, block, cur, preds, attrs);
    assert GoesOn(f, block, n);
  }

  lemma {:induction false} EndedStays(f: Func, b: nat, m: nat, n: nat)
    requires m <= n && !GoesOn(f, b, m)
    ensures !GoesOn(f, b, n) && Branches(f, b, n) == Branches(f, b, m)
    decreases n
  {
    if m < n { EndedStays(f, b, m, n - 1); }
  }

  lemma WalkingEnds(f: Func, block: nat, n: nat, preds: seq<nat>, attrs: seq<bool>)
    requires n < |f.g| && Walking(f, block, n, 0, preds, attrs)
    ensures Foldable(f, block) && forall c: Choices :: Visited(f, c, block) <==> Match(c.val, preds, attrs)
    ensures |preds| == Width(f, block)
  {
    forall c: Choices ensures Visited(f, c, block) <==> Match(c.val, preds, attrs) {
      assert Visits(f, c, 0, 0);
    }
    EndedStays(f, block, n, |f.g|);
  }

  /** A walk that stops before the entry does not get there. */
  lemma StoppedIsNotFoldable(f: Func, block: nat, n: nat)
    requires Runs(f, block, n) && WalkTo(f, block, n) != 0 && !Clear(f, WalkTo(f, block, n))
    ensures !Foldable(f, block)
  {
    forall m: nat | Runs(f, block, m) ensures WalkTo(f, block, m) != 0 {
      assert !GoesOn(f, block, n);
      if m < n { assert GoesOn(f, block, m); }
    }
  }

  lemma WalkIsShort(f: Func, block: nat, n: nat)
    requires block < |f.g| && !Endless(f, block) && Runs(f, block, n)
    ensures n < |f.g|
  {
    EndlessIff(f, block);
  }

  /** `foldPredicates`, wherever the walk ends: it accepts exactly when the walk gets to the entry,
      and then the block runs exactly when all collected conditions have their polarity. */
  method FoldPredicates(f: Func, block: nat) returns (ok: bool, preds: seq<nat>, attrs: seq<bool>)
    requires WellFormed(f.g) && block < |f.g| && !Endless(f, block)
    ensures |preds| == |attrs| && (ok <==> Foldable(f, block)) && (ok ==> |preds| == Width(f, block))
    ensures ok ==> forall c: Choices :: Visited(f, c, block) <==> Match(c.val, preds, attrs)
  {
    preds, attrs := [], [];
    var cur: nat := block;
    ghost var n: nat := 0;
    while cur != 0
      invariant n < |f.g| && Walking(f, block, n, cur, preds, attrs)
      decreases |f.g| - n
    {
      if !HasSingle(f.g, cur) {
        StoppedIsNotFoldable(f, block, n);
        return false, preds, attrs;
      }
      var pred := Single(f.g, cur);
      var t := f.g[pred];
      if t.CondBr? && !f.atEntry(t.cond) {
        StoppedIsNotFoldable(f, block, n);
        return false, preds + [t.cond], attrs + [t.yes == cur];
      }
      ghost var was, wasPreds, wasAttrs := cur, preds, attrs;
      if t.CondBr? {
        preds, attrs := preds + [t.cond], attrs + [t.yes == cur];
      }
      cur := pred;
      WalkingBack(f, block, n, was, wasPreds, wasAttrs, cur, preds, attrs);
      n := n + 1;
      WalkIsShort(f, block, n);
    }
    WalkingEnds(f, block, n, preds, attrs);
    ok := true;
  }

  lemma MatchSnoc(val: nat -> bool, preds: seq<nat>, attrs: seq<bool>, p: nat, a: bool)
    requires |preds| == |attrs|
    ensures Match(val, preds + [p], attrs + [a]) <==> Match(val, preds, attrs) && val(p) == a
  {
    if Match(val, preds + [p], attrs + [a]) {
      forall i | 0 <= i < |preds| ensures val(preds[i]) == attrs[i] {
        assert (preds + [p])[i] == preds[i] && (attrs + [a])[i] == attrs[i];
      }
      assert (preds + [p])[|preds|] == p && (attrs + [a])[|preds|] == a;
    }
  }

  // ----- The guard word -----

  function Pow2(n: nat): nat { if n == 0 then 1 else 2 * Pow2(n - 1) }

  /** Bits as a word, the first one most significant. */
  function Pack(bits: seq<bool>): nat {
    if bits == [] then 0 else 2 * Pack(bits[..|bits|-1]) + if bits[|bits|-1] then 1 else 0
  }

  lemma {:induction false} PackFits(bits: seq<bool>)
    ensures Pack(bits) < Pow2(|bits|)
    decreases |bits|
  {
    if bits != [] { PackFits(bits[..|bits|-1]); }
  }

  /** Words of one width are equal exactly when their bits are. */
  lemma {:induction false} PackIsInjective(a: seq<bool>, b: seq<bool>)
    requires |a| == |b|
    ensures Pack(a) == Pack(b) <==> a == b
    decreases |a|
  {
    if a != [] {
      var n := |a| - 1;
      PackIsInjective(a[..n], b[..n]);
      assert a == a[..n] + [a[n]] && b == b[..n] + [b[n]];
    }
  }

  lemma {:induction false} Pow2Grows(m: nat, n: nat)
    requires m <= n
    ensures Pow2(m) <= Pow2(n)
    decreases n
  {
    if m < n { Pow2Grows(m, n - 1); }
  }

  /** GROUND_TRUTH, built by shifting an `int`; with fewer than 32 guards it does not overflow. */
  method GroundTruth(attrs: seq<bool>) returns (word: nat)
    requires |attrs| < 32
    ensures word == Pack(attrs) && word < Pow2(|attrs|) && word < 0x8000_0000
  {
    word := 0;
    for i := 0 to |attrs|
      invariant word == Pack(attrs[..i])
    {
      assert attrs[..i + 1][..i] == attrs[..i];
      word := word * 2;
      word := word + if attrs[i] then 1 else 0;
    }
    assert attrs[..|attrs|] == attrs;
    PackFits(attrs);
    Pow2Grows(|attrs|, 31);
    assert Pow2(31) == 0x8000_0000 by {
      assert Pow2(8) == 256;
      assert Pow2(16) == 0x1_0000;
      assert Pow2(24) == 0x100_0000;
    }
  }

  function Conditions(val: nat -> bool, preds: seq<nat>): (r: seq<bool>)
    ensures |r| == |preds| && forall i :: 0 <= i < |r| ==> r[i] == val(preds[i])
  {
    seq(|preds|, i requires 0 <= i < |preds| => val(preds[i]))
  }

  /** What a guard module does: it drives its output, or there is no module. */
  datatype Signal = NoModule | Drives(on: bool)

  /** The module emitted for the conditions `preds`: they are concatenated first-is-most-significant
      and compared with the constant, cut to their width. Without conditions the text of the
      concatenation is never closed and the registers have no bits, so there is no module. */
  function Circuit(val: nat -> bool, preds: seq<nat>, word: nat): Signal
    requires Pow2(|preds|) > 0
  {
    if preds == [] then NoModule else Drives(Pack(Conditions(val, preds)) == word % Pow2(|preds|))
  }

  lemma {:induction false} Pow2Positive(n: nat)
    ensures Pow2(n) > 0
  {
    if n > 0 { Pow2Positive(n - 1); }
  }

  lemma SmallMod(a: nat, b: nat)
    requires a < b
    ensures a % b == a
  {}

  lemma MatchIsEqual(val: nat -> bool, preds: seq<nat>, attrs: seq<bool>)
    requires |preds| == |attrs|
    ensures Match(val, preds, attrs) <==> Conditions(val, preds) == attrs
  {
    if Conditions(val, preds) == attrs {
      forall i | 0 <= i < |preds| ensures val(preds[i]) == attrs[i] {
        assert Conditions(val, preds)[i] == attrs[i];
      }
    }
  }

  /** There is a circuit exactly when there are conditions, and it fires exactly when every
      condition has its polarity. */
  lemma GuardWordIsExact(val: nat -> bool, preds: seq<nat>, attrs: seq<bool>)
    requires |preds| == |attrs|
    ensures Pow2(|preds|) > 0 && var out := Circuit(val, preds, Pack(attrs));
      (out.Drives? <==> preds != []) && (out.Drives? ==> (out.on <==> Match(val, preds, attrs)))
  {
    Pow2Positive(|preds|);
    PackFits(attrs);
    SmallMod(Pack(attrs), Pow2(|preds|));
    PackIsInjective(Conditions(val, preds), attrs);
    MatchIsEqual(val, preds, attrs);
  }

  /** What becomes of the side effects of a block: they stay where they are, emission stops on an
      assertion, or they get a guard with these conditions and this constant. */
  datatype Guarded = Kept | Stopped | Guard(preds: seq<nat>, word: nat)

  /** In every run the guard's circuit exists, and fires exactly when the run visits the block. */
  ghost predicate Works(f: Func, block: nat, r: Guarded) {
    r.Guard? && Pow2(|r.preds|) > 0 &&
      forall c: Choices :: Circuit(c.val, r.preds, r.word) == Drives(Visited(f, c, block))
  }

  /** The whole way from a block to its guard circuit. The walk decides alone: with 32 conditions
      or more emission stops, and of the others those with a condition, and no more, get a guard
      that works. */
  method GuardFor(f: Func, block: nat) returns (r: Guarded)
    requires WellFormed(f.g) && block < |f.g| && !Endless(f, block)
    ensures r.Kept? <==> !Foldable(f, block)
    ensures r.Stopped? <==> Foldable(f, block) && Width(f, block) >= 32
    ensures Works(f, block, r) <==> Foldable(f, block) && 1 <= Width(f, block) <= 31
    // a block without condition is in every run, and still has no circuit
    ensures r.Guard? && !Works(f, block, r) ==> r.preds == [] && forall c: Choices :: Visited(f, c, block)
  {
    var ok, preds, attrs := FoldPredicates(f, block);
    if !ok {
      return Kept;
    }
    if |attrs| >= 32 {
      return Stopped;
    }
    var word := GroundTruth(attrs);
    r := Guard(preds, word);
    Pow2Positive(|preds|);
    forall c: Choices
      ensures var out := Circuit(c.val, preds, word);
        (out.Drives? <==> preds != []) && (out.Drives? ==> (out.on <==> Visited(f, c, block)))
    {
      GuardWordIsExact(c.val, preds, attrs);
    }
    if preds == [] {
      var c := Choices(_ => true, _ => true);
      assert Circuit(c.val, preds, word) != Drives(Visited(f, c, block));
    }
  }

  /** A block that the entry branches to without condition: no circuit, whatever the constant. */
  lemma PlainBranchHasNoCircuit(word: nat)
    ensures var f := Func([Br(1), Exit], _ => false);
      && WellFormed(f.g) && Foldable(f, 1) && Width(f, 1) == 0 && (forall c: Choices :: Visited(f, c, 1))
      && !Works(f, 1, Guard([], word))
  {
    var f := Func([Br(1), Exit], _ => false);
    assert Degree(f.g, 1, 1) == 1 && Degree(f.g, 1, 2) == 1;
    SingleIsOnly(f.g, 1, 0);
    assert GoesOn(f, 1, 0) && WalkTo(f, 1, 1) == 0;
    assert Runs(f, 1, 1);
    assert Branches(f, 1, 1) == 0;
    EndedStays(f, 1, 1, 2);
    forall c: Choices ensures Visited(f, c, 1) {
      assert Visits(f, c, 0, 0);
      assert Visits(f, c, 1, 1);
    }
    var c := Choices(_ => true, _ => true);
    assert Circuit(c.val, [], word) != Drives(Visited(f, c, 1));
  }
}
