/** The usage analysis of `DeadFieldEliminatePass`, over a block: a field is used exactly when some
    access or update of the block names it on a value that comes from its extract, and written
    exactly when some update does. */
module FieldUsage {
  import opened FieldSegments
  import opened DeadField

  const NOTHING := Analysis(map[], map[])

  function Visits(a: Analysis, prog: seq<Inst<nat>>): Analysis
    decreases |prog|
  {
    if prog == [] then a else Visits(Visit(a, prog[0]), prog[1..])
  }

  lemma {:induction false} VisitsSnoc(a: Analysis, prog: seq<Inst<nat>>, c: Inst<nat>)
    ensures Visits(a, prog + [c]) == Visit(Visits(a, prog), c)
    decreases |prog|
  {
    if prog == [] {
      assert [c][1..] == [];
    } else {
      assert (prog + [c])[1..] == prog[1..] + [c];
      VisitsSnoc(Visit(a, prog[0]), prog[1..], c);
    }
  }

  // ----- What the block says -----

  /** The first `n` operations define the value `v`. */
  ghost predicate Defines(prog: seq<Inst<nat>>, n: nat, v: nat)
    requires n <= |prog|
  {
    exists k :: 0 <= k < n && !prog[k].Emit? && prog[k].dst == v
  }

  /** In the first `n` operations, `v` is the struct that `r` extracts, or an update of it. */
  ghost predicate ComesFrom(prog: seq<Inst<nat>>, n: nat, v: nat, r: nat)
    requires n <= |prog|
    decreases n, 0
  {
    n > 0 && (ComesFrom(prog, n - 1, v, r) || Makes(prog, n - 1, v, r))
  }

  ghost predicate Makes(prog: seq<Inst<nat>>, k: nat, v: nat, r: nat)
    requires k < |prog|
    decreases k, 1
  {
    match prog[k]
    case Extract(d, _, _, _) => d == v == r
    case SetField(d, s, _, _) => d == v && ComesFrom(prog, k, s, r)
    case _ => false
  }

  /** Operation `k` names field `i` of what `r` extracts. */
  ghost predicate NamesAt(prog: seq<Inst<nat>>, k: nat, r: nat, i: nat, write: bool)
    requires k < |prog|
  {
    match prog[k]
    case Access(_, s, j) => !write && j == i && ComesFrom(prog, k, s, r)
    case SetField(_, s, j, _) => j == i && ComesFrom(prog, k, s, r)
    case _ => false
  }

  ghost predicate Names(prog: seq<Inst<nat>>, n: nat, r: nat, i: nat, write: bool)
    requires n <= |prog|
  {
    exists k :: 0 <= k < n && NamesAt(prog, k, r, i, write)
  }

  /** The first `n` operations have an extract of `r` with these sizes. */
  ghost predicate Extracts(prog: seq<Inst<nat>>, n: nat, r: nat, sizes: seq<nat>)
    requires n <= |prog|
  {
    exists k :: 0 <= k < n && prog[k].Extract? && prog[k].dst == r && prog[k].sizes == sizes
  }

  ghost predicate IsExtracted(prog: seq<Inst<nat>>, n: nat, r: nat)
    requires n <= |prog|
  {
    exists k :: 0 <= k < n && prog[k].Extract? && prog[k].dst == r
  }

  /** Each value is defined once. */
  ghost predicate OnceEach(prog: seq<Inst<nat>>) {
    forall k :: 0 <= k < |prog| && !prog[k].Emit? ==> !Defines(prog, k, prog[k].dst)
  }

  lemma {:induction false} SsaIsOnceEach(prog: seq<Inst<nat>>, defs: set<nat>, n: nat)
    requires Ssa(prog, defs) && n < |prog| && !prog[n].Emit?
    ensures !Defines(prog, n, prog[n].dst) && prog[n].dst !in defs
    decreases |prog|
  {
    if n > 0 {
      var rest := prog[1..];
      SsaIsOnceEach(rest, defs + DefinedBy(prog[0]), n - 1);
      assert rest[n - 1] == prog[n];
      forall k | 0 <= k < n && !prog[k].Emit? ensures prog[k].dst != prog[n].dst {
        if k > 0 { assert rest[k - 1] == prog[k]; }
      }
    }
  }

  lemma {:induction false} ComesFromDefined(prog: seq<Inst<nat>>, n: nat, v: nat, r: nat)
    requires n <= |prog| && ComesFrom(prog, n, v, r)
    ensures Defines(prog, n, v) && Defines(prog, n, r)
    decreases n
  {
    if ComesFrom(prog, n - 1, v, r) {
      ComesFromDefined(prog, n - 1, v, r);
    } else if prog[n - 1].SetField? {
      ComesFromDefined(prog, n - 1, prog[n - 1].src, r);
    }
  }

  // ----- The analysis finds it -----

  ghost predicate RootsTell(prog: seq<Inst<nat>>, n: nat, a: Analysis)
    requires n <= |prog|
  {
    forall v, r :: (v in a.roots && a.roots[v] == r) <==> ComesFrom(prog, n, v, r)
  }

  ghost predicate UseTells(prog: seq<Inst<nat>>, n: nat, a: Analysis, r: nat)
    requires n <= |prog| && r in a.usage
  {
    && Extracts(prog, n, r, a.usage[r].sizes)
    && (forall i :: i in a.usage[r].used <==> Names(prog, n, r, i, false))
    && (forall i :: i in a.usage[r].written <==> Names(prog, n, r, i, true))
  }

  /** The analysis of the first `n` operations says of them what they say. */
  ghost predicate Tells(prog: seq<Inst<nat>>, n: nat, a: Analysis)
    requires n <= |prog|
  {
    && RootsTell(prog, n, a)
    && (forall r :: r in a.usage <==> IsExtracted(prog, n, r))
    && (forall r :: r in a.usage ==> UseTells(prog, n, a, r))
  }

  lemma RootsStep(prog: seq<Inst<nat>>, n: nat, a: Analysis)
    requires n < |prog| && OnceEach(prog) && RootsTell(prog, n, a)
    ensures RootsTell(prog, n + 1, Visit(a, prog[n]))
  {
    var m, b := n + 1, Visit(a, prog[n]);
    forall v, r ensures (v in b.roots && b.roots[v] == r) <==> ComesFrom(prog, m, v, r) {
      RootStep(prog, n, a, v, r);
    }
  }

  lemma RootStep(prog: seq<Inst<nat>>, n: nat, a: Analysis, v: nat, r: nat)
    requires n < |prog| && OnceEach(prog) && RootsTell(prog, n, a)
    ensures var b := Visit(a, prog[n]); (v in b.roots && b.roots[v] == r) <==> ComesFrom(prog, n + 1, v, r)
  {
    var c := prog[n];
    assert (v in a.roots && a.roots[v] == r) <==> ComesFrom(prog, n, v, r);
    if !c.Emit? && c.dst == v {
      if v in a.roots {
        assert ComesFrom(prog, n, v, a.roots[v]);
        ComesFromDefined(prog, n, v, a.roots[v]);
      }
      if c.SetField? {
        assert (c.src in a.roots && a.roots[c.src] == r) <==> ComesFrom(prog, n, c.src, r);
      }
    }
  }

  lemma NamesStep(prog: seq<Inst<nat>>, n: nat, r: nat, i: nat, write: bool)
    requires n < |prog|
    ensures Names(prog, n + 1, r, i, write) <==> Names(prog, n, r, i, write) || NamesAt(prog, n, r, i, write)
  {}

  lemma ExtractsStep(prog: seq<Inst<nat>>, n: nat, r: nat, sizes: seq<nat>)
    requires n < |prog|
    ensures Extracts(prog, n + 1, r, sizes) <==>
      Extracts(prog, n, r, sizes) || (prog[n].Extract? && prog[n].dst == r && prog[n].sizes == sizes)
  {}

  lemma UseStep(prog: seq<Inst<nat>>, n: nat, a: Analysis, r: nat)
    requires n < |prog| && OnceEach(prog) && RootsTell(prog, n, a) && r in a.usage && UseTells(prog, n, a, r)
    ensures var b := Visit(a, prog[n]); r in b.usage && UseTells(prog, n + 1, b, r)
  {
    var c, b := prog[n], Visit(a, prog[n]);
    ExtractsStep(prog, n, r, a.usage[r].sizes);
    assert c.Extract? ==> c.dst != r;
    forall i ensures i in b.usage[r].used <==> Names(prog, n + 1, r, i, false) {
      NamesStep(prog, n, r, i, false);
      assert i in a.usage[r].used <==> Names(prog, n, r, i, false);
      if c.Access? || c.SetField? {
        assert (c.src in a.roots && a.roots[c.src] == r) <==> ComesFrom(prog, n, c.src, r);
      }
    }
    forall i ensures i in b.usage[r].written <==> Names(prog, n + 1, r, i, true) {
      NamesStep(prog, n, r, i, true);
      assert i in a.usage[r].written <==> Names(prog, n, r, i, true);
      if c.Access? || c.SetField? {
        assert (c.src in a.roots && a.roots[c.src] == r) <==> ComesFrom(prog, n, c.src, r);
      }
    }
  }

  lemma NothingNamedBefore(prog: seq<Inst<nat>>, n: nat, r: nat, i: nat, write: bool)
    requires n < |prog| && OnceEach(prog) && prog[n].Extract? && prog[n].dst == r
    ensures !Names(prog, n + 1, r, i, write)
  {
    forall k | 0 <= k < n + 1 ensures !NamesAt(prog, k, r, i, write) {
      if NamesAt(prog, k, r, i, write) {
        ComesFromDefined(prog, k, prog[k].src, r);
      }
    }
  }

  lemma NewUse(prog: seq<Inst<nat>>, n: nat, a: Analysis)
    requires n < |prog| && OnceEach(prog) && prog[n].Extract?
    ensures UseTells(prog, n + 1, Visit(a, prog[n]), prog[n].dst)
  {
    var r, m := prog[n].dst, n + 1;
    ExtractsStep(prog, n, r, prog[n].sizes);
    forall i, write ensures !Names(prog, m, r, i, write) {
      NothingNamedBefore(prog, n, r, i, write);
    }
  }

  lemma UsedIsExtracted(prog: seq<Inst<nat>>, n: nat, a: Analysis, r: nat)
    requires n < |prog| && OnceEach(prog) && Tells(prog, n, a)
    ensures var b := Visit(a, prog[n]);
      (r in b.usage <==> IsExtracted(prog, n + 1, r)) && (r in b.usage ==> UseTells(prog, n + 1, b, r))
  {
    var c := prog[n];
    if c.Extract? && c.dst == r {
      NewUse(prog, n, a);
    } else if r in a.usage {
      UseStep(prog, n, a, r);
    }
    assert IsExtracted(prog, n + 1, r) <==> IsExtracted(prog, n, r) || (c.Extract? && c.dst == r);
  }

  lemma TellsStep(prog: seq<Inst<nat>>, n: nat, a: Analysis)
    requires n < |prog| && OnceEach(prog) && Tells(prog, n, a)
    ensures Tells(prog, n + 1, Visit(a, prog[n]))
  {
    var m, b := n + 1, Visit(a, prog[n]);
    RootsStep(prog, n, a);
    forall r ensures r in b.usage <==> IsExtracted(prog, m, r) {
      UsedIsExtracted(prog, n, a, r);
    }
    forall r | r in b.usage ensures UseTells(prog, m, b, r) {
      UsedIsExtracted(prog, n, a, r);
    }
  }

  lemma {:induction false} PrefixTells(prog: seq<Inst<nat>>, n: nat)
    requires n <= |prog| && OnceEach(prog)
    ensures Tells(prog, n, Visits(NOTHING, prog[..n]))
    decreases n
  {
    if n > 0 {
      var m: nat := n - 1;
      PrefixTells(prog, m);
      VisitsSnoc(NOTHING, prog[..m], prog[m]);
      assert prog[..m] + [prog[m]] == prog[..n];
      TellsStep(prog, m, Visits(NOTHING, prog[..m]));
    }
  }

  /** The analysis of a block: which value comes from which extract, and which of its fields the
      block names. */
  lemma UsageIsExact(prog: seq<Inst<nat>>)
    requires Ssa(prog, {})
    ensures Tells(prog, |prog|, Visits(NOTHING, prog))
  {
    forall k | 0 <= k < |prog| && !prog[k].Emit? ensures !Defines(prog, k, prog[k].dst) {
      SsaIsOnceEach(prog, {}, k);
    }
    PrefixTells(prog, |prog|);
    assert prog[..|prog|] == prog;
  }

  // ----- What the new extracts cover -----

  /** Bit `x` of the struct that `r` extracts is in a field that the block names. */
  ghost predicate BitIsNamed(prog: seq<Inst<nat>>, r: nat, sizes: seq<nat>, x: nat) {
    exists i: nat :: i < |sizes| && Names(prog, |prog|, r, i, false) && InField(sizes, i, x)
  }

  ghost predicate InField(sizes: seq<nat>, i: nat, x: nat)
    requires i < |sizes|
  {
    Prefix(sizes, i) <= x < Prefix(sizes, i) + sizes[i]
  }

  lemma {:induction false} FieldOfBit(sizes: seq<nat>, n: nat, x: nat) returns (i: nat)
    requires n <= |sizes| && x < Prefix(sizes, n)
    ensures i < n && InField(sizes, i, x)
  {
    if x < Prefix(sizes, n - 1) {
      i := FieldOfBit(sizes, n - 1, x);
    } else {
      i := n - 1;
    }
  }

  ghost predicate IsSplit(m: SplitMap, u: Usage) {
    exists starts :: Exact(m, starts, u.sizes, UsedMask(u), WrittenMask(u))
  }

  /** A piece of an exact split holds used fields only. */
  lemma PieceIsUsed(m: SplitMap, u: Usage, q: nat, x: nat)
    requires IsSplit(m, u) && q < |m.newTypes|
    requires m.newTypes[q].offset <= x < m.newTypes[q].offset + Total(m.newTypes[q].fields)
    ensures exists i: nat :: i < |u.sizes| && i in u.used && InField(u.sizes, i, x)
  {
    var starts :| Exact(m, starts, u.sizes, UsedMask(u), WrittenMask(u));
    RunIsUsed(m.newTypes[q], starts[q], u, x);
  }

  lemma RunIsUsed(p: Piece, start: nat, u: Usage, x: nat)
    requires IsRun(p, start, u.sizes, UsedMask(u), WrittenMask(u)) && p.offset <= x < p.offset + Total(p.fields)
    ensures exists i: nat :: i < |u.sizes| && i in u.used && InField(u.sizes, i, x)
  {
    var k := FieldOfBit(p.fields, |p.fields|, x - p.offset);
    PrefixOfRun(u.sizes, start, p.fields, k);
    var i := start + k;
    assert UsedMask(u)[i] && InField(u.sizes, i, x);
  }

  lemma PieceIsNamed(prog: seq<Inst<nat>>, a: Analysis, r: nat, m: SplitMap, q: nat, x: nat)
    requires r in a.usage && UseTells(prog, |prog|, a, r) && IsSplit(m, a.usage[r]) && q < |m.newTypes|
    requires m.newTypes[q].offset <= x < m.newTypes[q].offset + Total(m.newTypes[q].fields)
    ensures BitIsNamed(prog, r, a.usage[r].sizes, x)
  {
    PieceIsUsed(m, a.usage[r], q, x);
    var i: nat :| i < |a.usage[r].sizes| && i in a.usage[r].used && InField(a.usage[r].sizes, i, x);
    assert Names(prog, |prog|, r, i, false);
  }

  lemma RunIsWritten(p: Piece, start: nat, u: Usage) returns (i: nat)
    requires IsRun(p, start, u.sizes, UsedMask(u), WrittenMask(u)) && p.write
    ensures i < |u.sizes| && i in u.written
    ensures p.offset <= Prefix(u.sizes, i) && Prefix(u.sizes, i) + u.sizes[i] <= p.offset + Total(p.fields)
  {
    i :| start <= i < start + |p.fields| && WrittenMask(u)[i];
    var k := i - start;
    PrefixOfRun(u.sizes, start, p.fields, k);
    PrefixOfRun(u.sizes, start, p.fields, k + 1);
    PrefixMono(p.fields, k + 1, |p.fields|);
  }

  lemma SplitIsWritten(m: SplitMap, u: Usage, q: nat) returns (i: nat)
    requires IsSplit(m, u) && q < |m.newTypes| && m.newTypes[q].write
    ensures i < |u.sizes| && i in u.written && m.newTypes[q].offset <= Prefix(u.sizes, i)
    ensures Prefix(u.sizes, i) + u.sizes[i] <= m.newTypes[q].offset + Total(m.newTypes[q].fields)
  {
    var starts :| Exact(m, starts, u.sizes, UsedMask(u), WrittenMask(u));
    i := RunIsWritten(m.newTypes[q], starts[q], u);
  }

  /** A piece is for writing because the block writes one of its fields. */
  lemma PieceIsWritten(prog: seq<Inst<nat>>, a: Analysis, r: nat, m: SplitMap, q: nat) returns (i: nat)
    requires r in a.usage && UseTells(prog, |prog|, a, r) && IsSplit(m, a.usage[r]) && q < |m.newTypes|
    requires m.newTypes[q].write
    ensures i < |a.usage[r].sizes| && Names(prog, |prog|, r, i, true)
    ensures m.newTypes[q].offset <= Prefix(a.usage[r].sizes, i)
  {
    i := SplitIsWritten(m, a.usage[r], q);
  }
}
