/** `DeadFieldEliminatePass` as it runs: the usage analysis, the splits, then the rewriting, each
    a loop, and what the whole pass preserves. */
module DeadFieldPass {
  import opened FieldSegments
  import opened DeadField
  import opened FieldUsage

  // ----- The analysis over a block -----

  /** Field indices are in the struct's range. */
  ghost predicate IndexOk(a: Analysis, c: Inst<nat>) {
    (c.Access? || c.SetField?) && c.src in a.roots && a.roots[c.src] in a.usage ==>
      c.i < |a.usage[a.roots[c.src]].sizes|
  }

  ghost predicate Typed(a: Analysis, prog: seq<Inst<nat>>)
    decreases |prog|
  {
    prog != [] ==> IndexOk(a, prog[0]) && Typed(Visit(a, prog[0]), prog[1..])
  }

  ghost predicate AnalysisOk(a: Analysis, defs: set<nat>) {
    && (forall v :: v in a.roots ==> v in defs && a.roots[v] in a.usage)
    && (forall r :: r in a.usage ==> r in defs && forall i :: i in a.usage[r].used ==> i < |a.usage[r].sizes|)
  }

  /** Later visits add to the analysis, and leave values defined earlier as they were. */
  ghost predicate Extends(a: Analysis, b: Analysis, defs: set<nat>) {
    && (forall v :: v in a.roots ==> v in b.roots && b.roots[v] == a.roots[v])
    && (forall v :: v in b.roots && v in defs ==> v in a.roots)
    && (forall r :: r in a.usage ==> r in b.usage && Widens(a.usage[r], b.usage[r]))
  }

  ghost predicate Widens(u: Usage, w: Usage) { w.sizes == u.sizes && u.used <= w.used && u.written <= w.written }

  lemma VisitExtends(a: Analysis, c: Inst<nat>, defs: set<nat>)
    requires AnalysisOk(a, defs) && SsaStep(c, defs) && IndexOk(a, c)
    ensures AnalysisOk(Visit(a, c), defs + DefinedBy(c)) && Extends(a, Visit(a, c), defs)
  {}

  lemma ExtendsIsTransitive(a: Analysis, b: Analysis, c: Analysis, defs: set<nat>, more: set<nat>)
    requires Extends(a, b, defs) && Extends(b, c, defs + more)
    ensures Extends(a, c, defs)
  {
    forall r | r in a.usage ensures r in c.usage && Widens(a.usage[r], c.usage[r]) {
      assert Widens(a.usage[r], b.usage[r]) && Widens(b.usage[r], c.usage[r]);
    }
  }

  lemma VisitConforms(a: Analysis, c: Inst<nat>, defs: set<nat>, b: Analysis, splits: map<nat, SplitMap>)
    requires AnalysisOk(a, defs) && SsaStep(c, defs) && IndexOk(a, c)
    requires Extends(Visit(a, c), b, defs + DefinedBy(c))
    ensures Conforms(c, Plan(b.roots, b.usage, splits))
  {
    var v := Visit(a, c);
    if c.Extract? {
      assert Widens(v.usage[c.dst], b.usage[c.dst]);
    } else if (c.Access? || c.SetField?) && c.src in a.roots {
      var r := a.roots[c.src];
      assert v.roots[c.src] == r && Widens(v.usage[r], b.usage[r]);
    }
  }

  /** Every operation plays its part in the finished analysis. */
  lemma {:induction false} AllVisited(a: Analysis, prog: seq<Inst<nat>>, defs: set<nat>, splits: map<nat, SplitMap>)
    requires AnalysisOk(a, defs) && Ssa(prog, defs) && Typed(a, prog)
    ensures var b := Visits(a, prog);
      Extends(a, b, defs) && (exists more :: AnalysisOk(b, more)) && AllConform(prog, Plan(b.roots, b.usage, splits))
    decreases |prog|
  {
    if prog == [] {
      assert AnalysisOk(a, defs);
    } else {
      var c, b := prog[0], Visits(a, prog);
      VisitExtends(a, c, defs);
      AllVisited(Visit(a, c), prog[1..], defs + DefinedBy(c), splits);
      ExtendsIsTransitive(a, Visit(a, c), b, defs, DefinedBy(c));
      VisitConforms(a, c, defs, b, splits);
      forall i | 0 <= i < |prog| ensures Conforms(prog[i], Plan(b.roots, b.usage, splits)) {
        if i > 0 { assert prog[i] == prog[1..][i-1]; }
      }
    }
  }

  method Analyze(prog: seq<Inst<nat>>) returns (a: Analysis)
    ensures a == Visits(NOTHING, prog)
  {
    a := NOTHING;
    for i := 0 to |prog|
      invariant Visits(NOTHING, prog) == Visits(a, prog[i..])
    {
      assert prog[i..][1..] == prog[i + 1..];
      a := Visit(a, prog[i]);
    }
  }

  // ----- The splits -----

  method SplitAll(usage: map<nat, Usage>) returns (splits: map<nat, SplitMap>)
    requires forall r :: r in usage ==> forall i :: i in usage[r].used ==> i < |usage[r].sizes|
    ensures splits.Keys == usage.Keys
    ensures forall r :: r in usage ==> Fits(splits[r], usage[r]) && IsSplit(splits[r], usage[r])
  {
    splits := map[];
    var todo := usage.Keys;
    while todo != {}
      invariant todo <= usage.Keys && splits.Keys == usage.Keys - todo
      invariant forall r :: r in splits ==> Fits(splits[r], usage[r]) && IsSplit(splits[r], usage[r])
    {
      var r :| r in todo;
      var u := usage[r];
      var m, starts := Segment(u.sizes, UsedMask(u), WrittenMask(u));
      ExactFits(m, starts, u);
      assert IsSplit(m, u);
      splits, todo := splits[r := m], todo - {r};
    }
  }

  // ----- The rewriting -----

  method RewriteBlock(prog: seq<Inst<nat>>, splits: map<nat, SplitMap>) returns (code: seq<Inst<Id>>)
    ensures code == Rewrite(prog, splits, map[]).code
  {
    code := [];
    var mp: Mapping := map[];
    for i := 0 to |prog|
      invariant Rewrite(prog, splits, map[]).code == code + Rewrite(prog[i..], splits, mp).code
    {
      assert prog[i..][1..] == prog[i + 1..];
      var rw := RewriteOne(prog[i], splits, mp);
      Reassociate(code, rw.code, Rewrite(prog[i + 1..], splits, rw.mp).code);
      code, mp := code + rw.code, rw.mp;
    }
  }

  lemma Reassociate<T>(a: seq<T>, b: seq<T>, c: seq<T>)
    ensures a + (b + c) == (a + b) + c
  {}

  function Start<I>(bufs: map<nat, Bits>): State<I> { State(map[], bufs) }

  lemma FromTheStart(prog: seq<Inst<nat>>, pl: Plan, bufs: map<nat, Bits>)
    requires PlanOk(pl) && Ssa(prog, {}) && AllConform(prog, pl)
    ensures Agree(prog, pl.splits, map[], Start(bufs), Start(bufs)) <==> AllKept(prog, pl, Start(bufs))
    ensures AllKept(prog, pl, Start(bufs)) ==>
      Run(Rewrite(prog, pl.splits, map[]).code, Start(bufs)).bufs == Run(prog, Start(bufs)).bufs
  {
    var st: State<nat>, st': State<Id> := Start(bufs), Start(bufs);
    assert st.env.Keys == {};
    RewriteAgrees(prog, pl, st, st', map[]);
  }

  // ----- What the new block extracts -----

  /** `c` reads piece `q` of what operation `k` extracts. */
  ghost predicate ReadsPiece(prog: seq<Inst<nat>>, splits: map<nat, SplitMap>, c: Inst<Id>, k: nat, q: nat) {
    && k < |prog| && prog[k].Extract? && prog[k].dst in splits && q < |splits[prog[k].dst].newTypes|
    && c == SubExtract(prog[k].dst, prog[k].buf, prog[k].off, splits[prog[k].dst].newTypes[q], q)
  }

  lemma {:induction false} SubExtractsAre(d: nat, b: nat, off: nat, m: SplitMap, n: nat, c: Inst<Id>)
    requires n <= |m.newTypes| && c in SubExtracts(d, b, off, m, n)
    ensures exists q :: 0 <= q < n && c == SubExtract(d, b, off, m.newTypes[q], q)
  {
    if c != SubExtract(d, b, off, m.newTypes[n-1], n - 1) {
      SubExtractsAre(d, b, off, m, n - 1, c);
    }
  }

  /** `c` writes a piece of the struct that is emitted at `off` of `b`. */
  ghost predicate EmitsPiece(m: SplitMap, b: nat, off: nat, c: Inst<Id>, q: nat) {
    && q < |m.newTypes| && m.newTypes[q].write
    && c.Emit? && c.buf == b && c.off == off + m.newTypes[q].offset
  }

  lemma {:induction false} SubEmitsAre(x: Mapped, b: nat, off: nat, n: nat, c: Inst<Id>) returns (q: nat)
    requires n <= |x.m.newTypes| && c in SubEmits(x, b, off, n)
    ensures EmitsPiece(x.m, b, off, c, q)
  {
    if c in SubEmits(x, b, off, n - 1) {
      q := SubEmitsAre(x, b, off, n - 1, c);
    } else {
      q := n - 1;
    }
  }

  lemma PieceIsRead(o: Inst<nat>, splits: map<nat, SplitMap>, mp: Mapping, c: Inst<Id>)
    requires c in RewriteOne(o, splits, mp).code && c.Extract? && c.dst.Sub?
    ensures exists q: nat :: ReadsPiece([o], splits, c, 0, q)
  {
    if o.Extract? && o.dst in splits {
      var m := splits[o.dst];
      SubExtractsAre(o.dst, o.buf, o.off, m, |m.newTypes|, c);
      var q :| 0 <= q < |m.newTypes| && c == SubExtract(o.dst, o.buf, o.off, m.newTypes[q], q);
      assert ReadsPiece([o], splits, c, 0, q);
    } else if o.Emit? && o.src in mp {
      var q := SubEmitsAre(mp[o.src], o.buf, o.off, |mp[o.src].m.newTypes|, c);
    }
  }

  lemma {:induction false} PiecesAreRead(prog: seq<Inst<nat>>, splits: map<nat, SplitMap>, mp: Mapping, c: Inst<Id>)
      returns (k: nat, q: nat)
    requires c in Rewrite(prog, splits, mp).code && c.Extract? && c.dst.Sub?
    ensures ReadsPiece(prog, splits, c, k, q)
    decreases |prog|
  {
    var a := RewriteOne(prog[0], splits, mp);
    if c in a.code {
      PieceIsRead(prog[0], splits, mp, c);
      q :| ReadsPiece([prog[0]], splits, c, 0, q);
      k := 0;
    } else {
      k, q := PiecesAreRead(prog[1..], splits, a.mp, c);
      k := k + 1;
    }
  }

  /** The new extract `c` reads from the place of extract `k`, and nothing but bits of fields that
      the block names. */
  ghost predicate IsNarrow(prog: seq<Inst<nat>>, c: Inst<Id>, k: nat) {
    && k < |prog| && prog[k].Extract? && c.Extract? && c.buf == prog[k].buf && prog[k].off <= c.off
    && forall x: nat :: c.off <= prog[k].off + x < c.off + Total(c.sizes) ==>
         BitIsNamed(prog, prog[k].dst, prog[k].sizes, x)
  }

  lemma NewExtractIsNarrow(prog: seq<Inst<nat>>, pl: Plan, c: Inst<Id>)
    requires PlanOk(pl) && AllConform(prog, pl) && Tells(prog, |prog|, Analysis(pl.roots, pl.usage))
    requires forall r :: r in pl.usage ==> IsSplit(pl.splits[r], pl.usage[r])
    requires c in Rewrite(prog, pl.splits, map[]).code && c.Extract? && c.dst.Sub?
    ensures exists k: nat :: IsNarrow(prog, c, k)
  {
    var k, q := PiecesAreRead(prog, pl.splits, map[], c);
    PieceIsNarrow(prog, pl, c, k, q);
  }

  lemma PieceIsNarrow(prog: seq<Inst<nat>>, pl: Plan, c: Inst<Id>, k: nat, q: nat)
    requires PlanOk(pl) && ReadsPiece(prog, pl.splits, c, k, q) && Conforms(prog[k], pl)
    requires prog[k].dst in pl.usage ==>
      && UseTells(prog, |prog|, Analysis(pl.roots, pl.usage), prog[k].dst)
      && IsSplit(pl.splits[prog[k].dst], pl.usage[prog[k].dst])
    ensures IsNarrow(prog, c, k)
  {
    var r := prog[k].dst;
    forall x: nat | c.off <= prog[k].off + x < c.off + Total(c.sizes) ensures BitIsNamed(prog, r, prog[k].sizes, x) {
      PieceIsNamed(prog, Analysis(pl.roots, pl.usage), r, pl.splits[r], q, x);
    }
  }

  // ----- What the new block emits -----

  /** Mapped values have the split of their root. */
  ghost predicate MapsRoots(mp: Mapping, pl: Plan) {
    forall v :: v in mp ==> v in pl.roots && pl.roots[v] in pl.splits && mp[v].m == pl.splits[pl.roots[v]]
  }

  ghost predicate WritesPiece(prog: seq<Inst<nat>>, pl: Plan, c: Inst<Id>, k: nat, q: nat) {
    && k < |prog| && prog[k].Emit? && prog[k].src in pl.roots && pl.roots[prog[k].src] in pl.splits
    && EmitsPiece(pl.splits[pl.roots[prog[k].src]], prog[k].buf, prog[k].off, c, q)
  }

  lemma NewPiece(o: Inst<nat>, pl: Plan, mp: Mapping, c: Inst<Id>) returns (q: nat)
    requires MapsRoots(mp, pl) && c in RewriteOne(o, pl.splits, mp).code && c.Emit?
    ensures WritesPiece([o], pl, c, 0, q)
  {
    if o.Emit? {
      q := SubEmitsAre(mp[o.src], o.buf, o.off, |mp[o.src].m.newTypes|, c);
    } else if o.Extract? && o.dst in pl.splits {
      SubExtractsAre(o.dst, o.buf, o.off, pl.splits[o.dst], |pl.splits[o.dst].newTypes|, c);
    }
  }

  lemma {:induction false} PiecesAreWritten(prog: seq<Inst<nat>>, pl: Plan, mp: Mapping, c: Inst<Id>)
      returns (k: nat, q: nat)
    requires PlanOk(pl) && AllConform(prog, pl) && MapsRoots(mp, pl)
    requires c in Rewrite(prog, pl.splits, mp).code && c.Emit?
    ensures WritesPiece(prog, pl, c, k, q)
    decreases |prog|
  {
    var a := RewriteOne(prog[0], pl.splits, mp);
    if c in a.code {
      q := NewPiece(prog[0], pl, mp, c);
      k := 0;
    } else {
      assert Conforms(prog[0], pl);
      assert MapsRoots(a.mp, pl);
      k, q := PiecesAreWritten(prog[1..], pl, a.mp, c);
      k := k + 1;
    }
  }

  /** The new emit `c` writes a piece of the struct that emit `k` wrote as a whole, because the
      block updates field `i` of that struct, and starts no later than that field. */
  ghost predicate IsNeeded(prog: seq<Inst<nat>>, c: Inst<Id>, k: nat, r: nat, i: nat, sizes: seq<nat>) {
    && k < |prog| && prog[k].Emit? && c.Emit? && c.buf == prog[k].buf
    && ComesFrom(prog, |prog|, prog[k].src, r) && Extracts(prog, |prog|, r, sizes)
    && i < |sizes| && Names(prog, |prog|, r, i, true)
    && prog[k].off <= c.off <= prog[k].off + Prefix(sizes, i)
  }

  lemma NewEmitIsNeeded(prog: seq<Inst<nat>>, pl: Plan, c: Inst<Id>)
    requires PlanOk(pl) && AllConform(prog, pl) && Tells(prog, |prog|, Analysis(pl.roots, pl.usage))
    requires forall r :: r in pl.usage ==> IsSplit(pl.splits[r], pl.usage[r])
    requires c in Rewrite(prog, pl.splits, map[]).code && c.Emit?
    ensures exists k: nat, r: nat, i: nat, sizes :: IsNeeded(prog, c, k, r, i, sizes)
  {
    var k, q := PiecesAreWritten(prog, pl, map[], c);
    var a := Analysis(pl.roots, pl.usage);
    var r := pl.roots[prog[k].src];
    assert UseTells(prog, |prog|, a, r);
    var i := PieceIsWritten(prog, a, r, pl.splits[r], q);
    assert IsNeeded(prog, c, k, r, i, pl.usage[r].sizes);
  }

  /** The pass. The new block leaves the same buffers after every operation exactly when every
      emit is kept, whatever the buffers hold at the start. */
  method Eliminate(prog: seq<Inst<nat>>) returns (code: seq<Inst<Id>>, ghost pl: Plan)
    requires Ssa(prog, {}) && Typed(NOTHING, prog)
    ensures PlanOk(pl) && AllConform(prog, pl)
    ensures code == Rewrite(prog, pl.splits, map[]).code
    // the splits are the maximal runs of exactly the fields that the block names
    ensures Tells(prog, |prog|, Analysis(pl.roots, pl.usage))
    ensures forall r :: r in pl.usage ==> IsSplit(pl.splits[r], pl.usage[r])
    // so no dead field is extracted
    ensures forall c :: c in code && c.Extract? && c.dst.Sub? ==> exists k: nat :: IsNarrow(prog, c, k)
    // and nothing is emitted that the block does not write
    ensures forall c :: c in code && c.Emit? ==>
      exists k: nat, r: nat, i: nat, sizes :: IsNeeded(prog, c, k, r, i, sizes)
    ensures forall bufs :: Agree(prog, pl.splits, map[], Start(bufs), Start(bufs)) <==> AllKept(prog, pl, Start(bufs))
    ensures forall bufs :: AllKept(prog, pl, Start(bufs)) ==> Run(code, Start(bufs)).bufs == Run(prog, Start(bufs)).bufs
  {
    var a := Analyze(prog);
    AllVisited(NOTHING, prog, {}, map[]);
    var splits := SplitAll(a.usage);
    code := RewriteBlock(prog, splits);
    AllVisited(NOTHING, prog, {}, splits);
    pl := Plan(a.roots, a.usage, splits);
    UsageIsExact(prog);
    forall c | c in code && c.Extract? && c.dst.Sub? ensures exists k: nat :: IsNarrow(prog, c, k) {
      NewExtractIsNarrow(prog, pl, c);
    }
    forall c | c in code && c.Emit?
      ensures exists k: nat, r: nat, i: nat, sizes :: IsNeeded(prog, c, k, r, i, sizes)
    {
      NewEmitIsNeeded(prog, pl, c);
    }
    forall bufs ensures (Agree(prog, splits, map[], Start(bufs), Start(bufs)) <==> AllKept(prog, pl, Start(bufs)))
                     && (AllKept(prog, pl, Start(bufs)) ==>
                       Run(code, Start(bufs)).bufs == Run(prog, Start(bufs)).bufs) {
      FromTheStart(prog, pl, bufs);
    }
  }

  /** A block that writes its structs back where they came from keeps its meaning. */
  lemma InPlaceIsSafe(prog: seq<Inst<nat>>, pl: Plan, homes: map<nat, Home>, bufs: map<nat, Bits>)
    requires PlanOk(pl) && HomesApart(pl, homes)
    requires Ssa(prog, {}) && AllConform(prog, pl) && forall i :: 0 <= i < |prog| ==> Placed(prog[i], pl, homes)
    ensures Run(Rewrite(prog, pl.splits, map[]).code, Start(bufs)).bufs == Run(prog, Start(bufs)).bufs
  {
    var st: State<nat> := Start(bufs);
    assert st.env.Keys == {};
    InPlaceBlocksAreKept(prog, pl, homes, st);
    FromTheStart(prog, pl, bufs);
  }

  /** A struct of one field of `n` bits, extracted from one buffer and emitted to another. */
  function CopyBlock(n: nat): seq<Inst<nat>> { [Extract(0, 0, 0, [n]), Emit(0, 1, 0)] }

  function CopyPlan(n: nat): Plan {
    Plan(map[0 := 0], map[0 := Usage([n], {}, {})], map[0 := SplitMap(map[], map[], [])])
  }

  /** The plan is what the analysis and the segmentation of the block give. */
  lemma CopyIsPlanned(n: nat)
    ensures var pl, u := CopyPlan(n), Usage([n], {}, {});
      && Visits(NOTHING, CopyBlock(n)) == Analysis(pl.roots, pl.usage)
      && Exact(pl.splits[0], [], u.sizes, UsedMask(u), WrittenMask(u))
  {
    var e, emit: Inst<nat> := Extract(0, 0, 0, [n]), Emit(0, 1, 0);
    assert CopyBlock(n)[1..] == [emit] && [emit][1..] == [];
    assert Visits(NOTHING, CopyBlock(n)) == Visits(Visit(NOTHING, e), [emit]);
    assert Visits(Visit(NOTHING, e), [emit]) == Visit(Visit(NOTHING, e), emit);
  }

  lemma CopyRuns(x: Bits, y: Bits)
    requires |x| == |y|
    ensures Run(CopyBlock(|x|), Start(map[0 := x, 1 := y])).bufs == map[0 := x, 1 := x]
  {
    var e, emit: Inst<nat> := Extract(0, 0, 0, [|x|]), Emit(0, 1, 0);
    assert CopyBlock(|x|)[1..] == [emit] && [emit][1..] == [];
    var bufs := map[0 := x, 1 := y];
    var st := Step(e, Start(bufs));
    assert Prefix([|x|], 1) == Prefix([|x|], 0) + |x|;
    assert Get(st.env, 0).bits == x;
    assert Write(y, 0, x) == x;
    assert Run([emit], st) == Step(emit, st);
    assert bufs[1 := x] == map[0 := x, 1 := x];
  }

  lemma CopyIsRewritten(n: nat)
    ensures Rewrite(CopyBlock(n), CopyPlan(n).splits, map[]).code == [Extract(Orig(0), 0, 0, [n])]
  {
    var e, emit: Inst<nat> := Extract(0, 0, 0, [n]), Emit(0, 1, 0);
    var splits := CopyPlan(n).splits;
    assert CopyBlock(n)[1..] == [emit] && [emit][1..] == [];
    var rw := RewriteOne(e, splits, map[]);
    assert rw.code == [Extract(Orig(0), 0, 0, [n])];
    assert Rewrite([emit], splits, rw.mp).code == [];
    assert Rewrite(CopyBlock(n), splits, map[]).code == rw.code;
  }

  /** Copying a struct to another buffer is lost: no field was written, so nothing is emitted. */
  lemma CopyIsLost(x: Bits, y: Bits)
    requires |x| == |y|
    ensures var prog, pl, u := CopyBlock(|x|), CopyPlan(|x|), Usage([|x|], {}, {});
      && Visits(NOTHING, prog) == Analysis(pl.roots, pl.usage)
      && Exact(pl.splits[0], [], u.sizes, UsedMask(u), WrittenMask(u))
      && PlanOk(pl) && AllConform(prog, pl) && Ssa(prog, {})
      && Run(prog, Start(map[0 := x, 1 := y])).bufs == map[0 := x, 1 := x]
      && Run(Rewrite(prog, pl.splits, map[]).code, Start(map[0 := x, 1 := y])).bufs == map[0 := x, 1 := y]
  {
    CopyIsPlanned(|x|);
    CopyRuns(x, y);
    CopyIsRewritten(|x|);
    assert CopyBlock(|x|)[1..] == [Emit(0, 1, 0)];
  }
}
