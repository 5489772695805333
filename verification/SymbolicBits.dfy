/** Dead-field elimination, decided without looking at any bits.

    Given the lengths of the buffers and of the computed results, one run of the block on symbols
    says where every bit comes from. The rewritten block agrees with the original, for all buffer
    contents and all computed functions, exactly when each emit finds in its buffer the very
    symbols that it would put there. */
module SymbolicBits {
  import opened FieldSegments
  import opened DeadField
  import opened DeadFieldPass

  // ----- Symbols -----

  /** Where a bit comes from: a buffer as it was at the start, or the result of a computation. */
  datatype Sym = Zero | Init(buf: nat, k: nat) | Made(dst: nat, k: nat)

  /** The lengths of the buffers and of the computed results. */
  datatype Shape = Shape(lens: map<nat, nat>, made: nat -> nat)

  /** What the buffers hold at the start, and what the computations give. */
  datatype World = World(bufs: map<nat, Bits>, made: nat -> Bits)

  ghost predicate HasShape(w: World, sh: Shape) {
    && w.bufs.Keys == sh.lens.Keys && (forall b :: b in w.bufs ==> |w.bufs[b]| == sh.lens[b])
    && forall d :: |w.made(d)| == sh.made(d)
  }

  function Bit(bits: Bits, k: nat): bool { k < |bits| && bits[k] }

  function Ev(w: World, x: Sym): bool {
    match x
    case Zero => false
    case Init(b, k) => b in w.bufs && Bit(w.bufs[b], k)
    case Made(d, k) => Bit(w.made(d), k)
  }

  function EvAll(w: World, xs: seq<Sym>): (r: Bits)
    ensures |r| == |xs| && forall k :: 0 <= k < |xs| ==> r[k] == Ev(w, xs[k])
  {
    seq(|xs|, k requires 0 <= k < |xs| => Ev(w, xs[k]))
  }

  /** The symbol stands for a bit that exists. */
  predicate Real(sh: Shape, x: Sym) {
    match x
    case Zero => true
    case Init(b, k) => b in sh.lens && k < sh.lens[b]
    case Made(d, k) => k < sh.made(d)
  }

  ghost predicate AllReal(sh: Shape, xs: seq<Sym>) { forall k :: 0 <= k < |xs| ==> Real(sh, xs[k]) }

  /** Bits of this length, each of them set exactly if it is `x`. */
  function BufMarked(x: Sym, b: nat, n: nat): (r: Bits)
    ensures |r| == n
  {
    seq(n, k requires 0 <= k < n => Init(b, k) == x)
  }

  function MadeMarked(x: Sym, d: nat, n: nat): (r: Bits)
    ensures |r| == n
  {
    seq(n, k requires 0 <= k < n => Made(d, k) == x)
  }

  /** The world in which, of all bits, only the one that `x` stands for is set. */
  function Only(sh: Shape, x: Sym): World {
    World(map b | b in sh.lens :: BufMarked(x, b, sh.lens[b]), (d: nat) => MadeMarked(x, d, sh.made(d)))
  }

  lemma OnlyHasShape(sh: Shape, x: Sym)
    ensures HasShape(Only(sh, x), sh)
  {}

  lemma OnlyIsSet(sh: Shape, x: Sym, y: Sym)
    requires Real(sh, y)
    ensures Ev(Only(sh, x), y) <==> x == y && !x.Zero?
  {}

  /** Different symbols differ in some world. */
  lemma SomeWorldDiffers(sh: Shape, x: Sym, y: Sym) returns (w: World)
    requires Real(sh, x) && Real(sh, y) && x != y
    ensures HasShape(w, sh) && Ev(w, x) != Ev(w, y)
  {
    var z := if x.Zero? then y else x;
    w := Only(sh, z);
    OnlyHasShape(sh, z);
    OnlyIsSet(sh, z, x);
    OnlyIsSet(sh, z, y);
  }

  // ----- The run on symbols -----

  function SymSlice(buf: seq<Sym>, off: nat, n: nat): (r: seq<Sym>)
    ensures |r| == n && forall k :: 0 <= k < n ==> r[k] == if off + k < |buf| then buf[off + k] else Zero
  {
    seq(n, k requires 0 <= k < n => if off + k < |buf| then buf[off + k] else Zero)
  }

  function SymWrite(buf: seq<Sym>, off: nat, bits: seq<Sym>): (r: seq<Sym>)
    ensures |r| == |buf|
    ensures forall k :: 0 <= k < |r| ==> r[k] == if off <= k < off + |bits| then bits[k - off] else buf[k]
  {
    seq(|buf|, k requires 0 <= k < |buf| => if off <= k < off + |bits| then bits[k - off] else buf[k])
  }

  lemma EvSlice(w: World, buf: seq<Sym>, off: nat, n: nat)
    ensures EvAll(w, SymSlice(buf, off, n)) == Slice(EvAll(w, buf), off, n)
  {}

  lemma EvWrite(w: World, buf: seq<Sym>, off: nat, bits: seq<Sym>)
    ensures EvAll(w, SymWrite(buf, off, bits)) == Write(EvAll(w, buf), off, EvAll(w, bits))
  {}

  /** A struct, with the sizes of its fields, or a scalar. */
  datatype SymValue = SymStruct(bits: seq<Sym>, sizes: seq<nat>) | SymScalar(bits: seq<Sym>)

  datatype SymState = SymState(env: map<nat, SymValue>, bufs: map<nat, seq<Sym>>)

  function SymGet(env: map<nat, SymValue>, id: nat): SymValue { if id in env then env[id] else SymScalar([]) }

  function SymBuffer(st: SymState, b: nat): seq<Sym> { if b in st.bufs then st.bufs[b] else [] }

  function SymField(v: SymValue, i: nat): seq<Sym> {
    if v.SymStruct? && i < |v.sizes| then SymSlice(v.bits, Prefix(v.sizes, i), v.sizes[i]) else []
  }

  function SymWithField(v: SymValue, i: nat, b: seq<Sym>): SymValue {
    if v.SymStruct? && i < |v.sizes|
    then v.(bits := SymWrite(v.bits, Prefix(v.sizes, i), SymSlice(b, 0, v.sizes[i]))) else v
  }

  function MadeBits(d: nat, n: nat): (r: seq<Sym>)
    ensures |r| == n && forall k :: 0 <= k < n ==> r[k] == Made(d, k)
  {
    seq(n, k requires 0 <= k < n => Made(d, k))
  }

  function SymStep(c: Inst<nat>, sh: Shape, st: SymState): SymState {
    match c
    case Extract(d, b, off, sizes) =>
      st.(env := st.env[d := SymStruct(SymSlice(SymBuffer(st, b), off, Total(sizes)), sizes)])
    case Access(d, s, i) => st.(env := st.env[d := SymScalar(SymField(SymGet(st.env, s), i))])
    case SetField(d, s, i, v) =>
      st.(env := st.env[d := SymWithField(SymGet(st.env, s), i, SymGet(st.env, v).bits)])
    case Emit(s, b, off) =>
      if b in st.bufs then st.(bufs := st.bufs[b := SymWrite(st.bufs[b], off, SymGet(st.env, s).bits)]) else st
    case Compute(d, _, _) => st.(env := st.env[d := SymScalar(MadeBits(d, sh.made(d)))])
  }

  function InitBits(b: nat, n: nat): (r: seq<Sym>)
    ensures |r| == n && forall k :: 0 <= k < n ==> r[k] == Init(b, k)
  {
    seq(n, k requires 0 <= k < n => Init(b, k))
  }

  function SymStart(sh: Shape): SymState { SymState(map[], map b | b in sh.lens :: InitBits(b, sh.lens[b])) }

  // ----- What an emit must find -----

  ghost predicate SymInPlace(buf: seq<Sym>, off: nat, bits: seq<Sym>, m: SplitMap) {
    forall k: nat :: k < |bits| && off + k < |buf| && !Covered(m, |m.newTypes|, k) ==> buf[off + k] == bits[k]
  }

  const UNSPLIT := SplitMap(map[], map[], [])

  /** The pieces of the struct that is emitted; none, if its value is not mapped. */
  ghost function SplitFor(c: Inst<nat>, pl: Plan, st: SymState): SplitMap
    requires PlanOk(pl) && c.Emit?
  {
    if c.src in pl.roots && c.src in st.env then pl.splits[pl.roots[c.src]] else UNSPLIT
  }

  /** The emit finds the symbols that no written piece covers. */
  ghost predicate SymKept(c: Inst<nat>, pl: Plan, st: SymState)
    requires PlanOk(pl)
  {
    c.Emit? && c.buf in st.bufs ==>
      SymInPlace(st.bufs[c.buf], c.off, SymGet(st.env, c.src).bits,
                 SplitFor(c, pl, st))
  }

  /** Every emit of the block does. */
  ghost predicate AllSymKept(prog: seq<Inst<nat>>, pl: Plan, sh: Shape, st: SymState)
    requires PlanOk(pl)
    decreases |prog|
  {
    prog != [] ==> SymKept(prog[0], pl, st) && AllSymKept(prog[1..], pl, sh, SymStep(prog[0], sh, st))
  }

  // ----- Symbols stand for bits -----

  function EvVal(w: World, v: SymValue): Value {
    match v
    case SymStruct(bits, sizes) => Struct(EvAll(w, bits), sizes)
    case SymScalar(bits) => Scalar(EvAll(w, bits))
  }

  function EvEnv(w: World, env: map<nat, SymValue>): map<nat, Value> { map v | v in env :: EvVal(w, env[v]) }

  function EvBufs(w: World, bufs: map<nat, seq<Sym>>): map<nat, Bits> { map b | b in bufs :: EvAll(w, bufs[b]) }

  function EvState(w: World, st: SymState): State<nat> { State(EvEnv(w, st.env), EvBufs(w, st.bufs)) }

  lemma EvGet(w: World, env: map<nat, SymValue>, id: nat)
    ensures Get(EvEnv(w, env), id) == EvVal(w, SymGet(env, id))
    ensures Get(EvEnv(w, env), id).bits == EvAll(w, SymGet(env, id).bits)
  {}

  lemma EvSetEnv(w: World, env: map<nat, SymValue>, d: nat, v: SymValue)
    ensures EvEnv(w, env[d := v]) == EvEnv(w, env)[d := EvVal(w, v)]
  {}

  lemma EvSetBuf(w: World, bufs: map<nat, seq<Sym>>, b: nat, xs: seq<Sym>)
    ensures EvBufs(w, bufs[b := xs]) == EvBufs(w, bufs)[b := EvAll(w, xs)]
  {}

  lemma EvWithField(w: World, v: SymValue, i: nat, b: seq<Sym>)
    ensures EvVal(w, SymWithField(v, i, b)) == WithField(EvVal(w, v), i, EvAll(w, b))
  {
    if v.SymStruct? && i < |v.sizes| {
      EvSlice(w, b, 0, v.sizes[i]);
      EvWrite(w, v.bits, Prefix(v.sizes, i), SymSlice(b, 0, v.sizes[i]));
    }
  }

  lemma EvField(w: World, v: SymValue, i: nat)
    ensures EvAll(w, SymField(v, i)) == FieldOf(EvVal(w, v), i)
  {
    if v.SymStruct? && i < |v.sizes| {
      EvSlice(w, v.bits, Prefix(v.sizes, i), v.sizes[i]);
    }
  }

  /** The operation with a computed result that is given. */
  function Filled(c: Inst<nat>, made: nat -> Bits): Inst<nat> {
    if c.Compute? then Compute(c.dst, c.args, _ => made(c.dst)) else c
  }

  /** A step on symbols is the step on the bits that they stand for. */
  lemma StepsAgree(c: Inst<nat>, sh: Shape, st: SymState, w: World)
    requires HasShape(w, sh)
    ensures Step(Filled(c, w.made), EvState(w, st)) == EvState(w, SymStep(c, sh, st))
  {
    match c
    case Extract(d, b, off, sizes) =>
      EvSlice(w, SymBuffer(st, b), off, Total(sizes));
      EvSetEnv(w, st.env, d, SymStruct(SymSlice(SymBuffer(st, b), off, Total(sizes)), sizes));
    case Access(d, s, i) =>
      EvGet(w, st.env, s);
      EvField(w, SymGet(st.env, s), i);
      EvSetEnv(w, st.env, d, SymScalar(SymField(SymGet(st.env, s), i)));
    case SetField(d, s, i, v) =>
      EvGet(w, st.env, s);
      EvGet(w, st.env, v);
      EvWithField(w, SymGet(st.env, s), i, SymGet(st.env, v).bits);
      EvSetEnv(w, st.env, d, SymWithField(SymGet(st.env, s), i, SymGet(st.env, v).bits));
    case Emit(s, b, off) =>
      if b in st.bufs {
        EvGet(w, st.env, s);
        EvWrite(w, st.bufs[b], off, SymGet(st.env, s).bits);
        EvSetBuf(w, st.bufs, b, SymWrite(st.bufs[b], off, SymGet(st.env, s).bits));
      }
    case Compute(d, args, _) =>
      assert EvAll(w, MadeBits(d, sh.made(d))) == w.made(d);
      EvSetEnv(w, st.env, d, SymScalar(MadeBits(d, sh.made(d))));
  }

  // ----- All symbols are real -----

  ghost predicate RealState(sh: Shape, st: SymState) {
    && (forall v :: v in st.env ==> AllReal(sh, st.env[v].bits))
    && (forall b :: b in st.bufs ==> AllReal(sh, st.bufs[b]))
  }

  lemma SliceIsReal(sh: Shape, buf: seq<Sym>, off: nat, n: nat)
    requires AllReal(sh, buf)
    ensures AllReal(sh, SymSlice(buf, off, n))
  {}

  lemma WriteIsReal(sh: Shape, buf: seq<Sym>, off: nat, bits: seq<Sym>)
    requires AllReal(sh, buf) && AllReal(sh, bits)
    ensures AllReal(sh, SymWrite(buf, off, bits))
  {}

  lemma StepIsReal(c: Inst<nat>, sh: Shape, st: SymState)
    requires RealState(sh, st)
    ensures RealState(sh, SymStep(c, sh, st))
  {
    match c
    case Extract(_, b, off, sizes) => SliceIsReal(sh, SymBuffer(st, b), off, Total(sizes));
    case Access(_, s, i) =>
      var v := SymGet(st.env, s);
      if v.SymStruct? && i < |v.sizes| { SliceIsReal(sh, v.bits, Prefix(v.sizes, i), v.sizes[i]); }
    case SetField(_, s, i, x) =>
      var v, b := SymGet(st.env, s), SymGet(st.env, x).bits;
      if v.SymStruct? && i < |v.sizes| {
        SliceIsReal(sh, b, 0, v.sizes[i]);
        WriteIsReal(sh, v.bits, Prefix(v.sizes, i), SymSlice(b, 0, v.sizes[i]));
      }
    case Emit(s, b, off) =>
      if b in st.bufs { WriteIsReal(sh, st.bufs[b], off, SymGet(st.env, s).bits); }
    case Compute(_, _, _) =>
  }

  // ----- One emit -----

  /** Writing what is there changes nothing, and nothing else does. */
  lemma UnsplitIsWrite(buf: Bits, off: nat, bits: Bits)
    ensures InPlace(buf, off, bits, UNSPLIT) <==> Write(buf, off, bits) == buf
  {
    PatchIsWrite(buf, off, bits, UNSPLIT);
    assert Patched(buf, off, bits, UNSPLIT, 0) == buf;
  }

  lemma InPlaceFromSymbols(w: World, buf: seq<Sym>, off: nat, bits: seq<Sym>, m: SplitMap)
    requires SymInPlace(buf, off, bits, m)
    ensures InPlace(EvAll(w, buf), off, EvAll(w, bits), m)
  {
    forall k: nat | k < |bits| && off + k < |buf| && !Covered(m, |m.newTypes|, k)
      ensures EvAll(w, buf)[off + k] == EvAll(w, bits)[k]
    {
      assert buf[off + k] == bits[k];
    }
  }

  lemma SymbolsFromInPlace(sh: Shape, buf: seq<Sym>, off: nat, bits: seq<Sym>, m: SplitMap) returns (w: World)
    requires AllReal(sh, buf) && AllReal(sh, bits) && !SymInPlace(buf, off, bits, m)
    ensures HasShape(w, sh) && !InPlace(EvAll(w, buf), off, EvAll(w, bits), m)
  {
    var k: nat :| k < |bits| && off + k < |buf| && !Covered(m, |m.newTypes|, k) && buf[off + k] != bits[k];
    w := SomeWorldDiffers(sh, buf[off + k], bits[k]);
    assert EvAll(w, buf)[off + k] != EvAll(w, bits)[k];
  }

  lemma KeptMeansInPlace(c: Inst<nat>, pl: Plan, st: SymState, w: World)
    requires PlanOk(pl) && c.Emit? && c.buf in st.bufs
    ensures EmitKept(c, pl, EvState(w, st)) <==>
      InPlace(EvAll(w, st.bufs[c.buf]), c.off, EvAll(w, SymGet(st.env, c.src).bits), SplitFor(c, pl, st))
  {
    EvGet(w, st.env, c.src);
    UnsplitIsWrite(EvAll(w, st.bufs[c.buf]), c.off, EvAll(w, SymGet(st.env, c.src).bits));
  }

  lemma KeptFromSymbols(c: Inst<nat>, pl: Plan, st: SymState, w: World)
    requires PlanOk(pl) && SymKept(c, pl, st)
    ensures EmitKept(c, pl, EvState(w, st))
  {
    if c.Emit? && c.buf in st.bufs {
      KeptMeansInPlace(c, pl, st, w);
      InPlaceFromSymbols(w, st.bufs[c.buf], c.off, SymGet(st.env, c.src).bits, SplitFor(c, pl, st));
    }
  }

  lemma SymbolsFromKept(c: Inst<nat>, pl: Plan, sh: Shape, st: SymState) returns (w: World)
    requires PlanOk(pl) && RealState(sh, st) && !SymKept(c, pl, st)
    ensures HasShape(w, sh) && !EmitKept(c, pl, EvState(w, st))
  {
    w := SymbolsFromInPlace(sh, st.bufs[c.buf], c.off, SymGet(st.env, c.src).bits, SplitFor(c, pl, st));
    KeptMeansInPlace(c, pl, st, w);
  }

  // ----- Whole blocks -----

  function FilledAll(prog: seq<Inst<nat>>, made: nat -> Bits): (r: seq<Inst<nat>>)
    ensures |r| == |prog| && forall i :: 0 <= i < |prog| ==> r[i] == Filled(prog[i], made)
  {
    seq(|prog|, i requires 0 <= i < |prog| => Filled(prog[i], made))
  }

  /** In this world every emit is kept. */
  ghost predicate KeptIn(w: World, prog: seq<Inst<nat>>, pl: Plan, st: SymState)
    requires PlanOk(pl)
  {
    AllKept(FilledAll(prog, w.made), pl, EvState(w, st))
  }

  lemma KeptInStep(w: World, prog: seq<Inst<nat>>, pl: Plan, sh: Shape, st: SymState)
    requires PlanOk(pl) && prog != [] && HasShape(w, sh)
    ensures KeptIn(w, prog, pl, st) <==>
      EmitKept(prog[0], pl, EvState(w, st)) && KeptIn(w, prog[1..], pl, SymStep(prog[0], sh, st))
  {
    assert FilledAll(prog, w.made)[1..] == FilledAll(prog[1..], w.made);
    StepsAgree(prog[0], sh, st, w);
  }

  lemma {:induction false} KeptInAll(w: World, prog: seq<Inst<nat>>, pl: Plan, sh: Shape, st: SymState)
    requires PlanOk(pl) && HasShape(w, sh) && AllSymKept(prog, pl, sh, st)
    ensures KeptIn(w, prog, pl, st)
    decreases |prog|
  {
    if prog != [] {
      KeptFromSymbols(prog[0], pl, st, w);
      KeptInAll(w, prog[1..], pl, sh, SymStep(prog[0], sh, st));
      KeptInStep(w, prog, pl, sh, st);
    }
  }

  lemma {:induction false} LostInSome(prog: seq<Inst<nat>>, pl: Plan, sh: Shape, st: SymState) returns (w: World)
    requires PlanOk(pl) && RealState(sh, st) && !AllSymKept(prog, pl, sh, st)
    ensures HasShape(w, sh) && !KeptIn(w, prog, pl, st)
    decreases |prog|
  {
    if !SymKept(prog[0], pl, st) {
      w := SymbolsFromKept(prog[0], pl, sh, st);
    } else {
      StepIsReal(prog[0], sh, st);
      w := LostInSome(prog[1..], pl, sh, SymStep(prog[0], sh, st));
    }
    KeptInStep(w, prog, pl, sh, st);
  }

  // ----- All functions -----

  /** The same block, up to the functions that it computes. */
  ghost predicate SameButFn(c: Inst<nat>, c': Inst<nat>) {
    if c.Compute? then c'.Compute? && c'.dst == c.dst && c'.args == c.args else c' == c
  }

  ghost predicate Variant(prog: seq<Inst<nat>>, prog': seq<Inst<nat>>) {
    |prog'| == |prog| && forall i :: 0 <= i < |prog| ==> SameButFn(prog[i], prog'[i])
  }

  /** `made` gives every computed value of the run. */
  ghost predicate Explains(prog: seq<Inst<nat>>, made: nat -> Bits, st: State<nat>)
    decreases |prog|
  {
    prog != [] ==>
      var c := prog[0];
      && (c.Compute? ==> made(c.dst) == c.fn(ArgBits(st.env, c.args)))
      && Explains(prog[1..], made, Step(c, st))
  }

  function Redirect(made: nat -> Bits, d: nat, bits: Bits): nat -> Bits {
    (x: nat) => if x == d then bits else made(x)
  }

  lemma {:induction false} StillExplains(prog: seq<Inst<nat>>, made: nat -> Bits, st: State<nat>, d: nat, bits: Bits,
      defs: set<nat>)
    requires Explains(prog, made, st) && Ssa(prog, defs) && d in defs
    ensures Explains(prog, Redirect(made, d, bits), st)
    decreases |prog|
  {
    if prog != [] {
      StillExplains(prog[1..], made, Step(prog[0], st), d, bits, defs + DefinedBy(prog[0]));
    }
  }

  /** The results of a run explain it. */
  lemma {:induction false} SomethingExplains(prog: seq<Inst<nat>>, st: State<nat>, defs: set<nat>)
      returns (made: nat -> Bits)
    requires Ssa(prog, defs)
    ensures Explains(prog, made, st)
    decreases |prog|
  {
    if prog == [] {
      made := _ => [];
    } else {
      var c := prog[0];
      made := SomethingExplains(prog[1..], Step(c, st), defs + DefinedBy(c));
      if c.Compute? {
        var bits := c.fn(ArgBits(st.env, c.args));
        StillExplains(prog[1..], made, Step(c, st), c.dst, bits, defs + DefinedBy(c));
        made := Redirect(made, c.dst, bits);
      }
    }
  }

  /** A run and the run with its results filled in keep the same emits. */
  lemma {:induction false} FillingKeeps(prog: seq<Inst<nat>>, prog': seq<Inst<nat>>, pl: Plan, made: nat -> Bits,
      st: State<nat>)
    requires PlanOk(pl) && Variant(prog, prog') && Explains(prog', made, st)
    ensures AllKept(prog', pl, st) <==> AllKept(FilledAll(prog, made), pl, st)
    decreases |prog|
  {
    if prog != [] {
      var c, c', f := prog[0], prog'[0], FilledAll(prog, made);
      assert SameButFn(c, c') && f[0] == Filled(c, made);
      assert Step(f[0], st) == Step(c', st);
      assert f[1..] == FilledAll(prog[1..], made);
      forall i | 0 <= i < |prog[1..]| ensures SameButFn(prog[1..][i], prog'[1..][i]) {
        assert SameButFn(prog[i + 1], prog'[i + 1]);
      }
      FillingKeeps(prog[1..], prog'[1..], pl, made, Step(c', st));
    }
  }

  lemma {:induction false} VariantIsSsa(prog: seq<Inst<nat>>, prog': seq<Inst<nat>>, defs: set<nat>)
    requires Variant(prog, prog') && Ssa(prog, defs)
    ensures Ssa(prog', defs)
    decreases |prog|
  {
    if prog != [] {
      assert SameButFn(prog[0], prog'[0]);
      forall i | 0 <= i < |prog[1..]| ensures SameButFn(prog[1..][i], prog'[1..][i]) {
        assert SameButFn(prog[i + 1], prog'[i + 1]);
      }
      VariantIsSsa(prog[1..], prog'[1..], defs + DefinedBy(prog[0]));
    }
  }

  lemma VariantConforms(prog: seq<Inst<nat>>, prog': seq<Inst<nat>>, pl: Plan)
    requires Variant(prog, prog') && AllConform(prog, pl)
    ensures AllConform(prog', pl)
  {
    forall i | 0 <= i < |prog'| ensures Conforms(prog'[i], pl) {
      assert SameButFn(prog[i], prog'[i]) && Conforms(prog[i], pl);
    }
  }

  lemma FilledIsVariant(prog: seq<Inst<nat>>, made: nat -> Bits)
    ensures Variant(prog, FilledAll(prog, made))
  {
    forall i | 0 <= i < |prog| ensures SameButFn(prog[i], FilledAll(prog, made)[i]) {}
  }

  lemma StartsAgree(w: World, sh: Shape)
    requires HasShape(w, sh)
    ensures EvState(w, SymStart(sh)) == Start(w.bufs)
  {
    forall b | b in sh.lens ensures EvAll(w, InitBits(b, sh.lens[b])) == w.bufs[b] {}
  }

  // ----- The theorem -----

  /** On symbols, whatever the lengths, every emit finds what it would write. */
  ghost predicate BlockKept(prog: seq<Inst<nat>>, pl: Plan)
    requires PlanOk(pl)
  {
    forall sh: Shape :: AllSymKept(prog, pl, sh, SymStart(sh))
  }

  ghost predicate AgreesFor(prog: seq<Inst<nat>>, pl: Plan, prog': seq<Inst<nat>>, bufs: map<nat, Bits>) {
    Variant(prog, prog') ==> Agree(prog', pl.splits, map[], Start(bufs), Start(bufs))
  }

  lemma KeptForVariant(prog: seq<Inst<nat>>, pl: Plan, prog': seq<Inst<nat>>, bufs: map<nat, Bits>)
    requires PlanOk(pl) && Ssa(prog, {}) && BlockKept(prog, pl) && Variant(prog, prog')
    ensures AllKept(prog', pl, Start(bufs))
  {
    VariantIsSsa(prog, prog', {});
    var made := SomethingExplains(prog', Start(bufs), {});
    var w := World(bufs, made);
    var sh := Shape(map b | b in bufs :: |bufs[b]|, d => |made(d)|);
    StartsAgree(w, sh);
    KeptInAll(w, prog, pl, sh, SymStart(sh));
    FillingKeeps(prog, prog', pl, made, Start(bufs));
  }

  lemma LostForVariant(prog: seq<Inst<nat>>, pl: Plan) returns (prog': seq<Inst<nat>>, bufs: map<nat, Bits>)
    requires PlanOk(pl) && !BlockKept(prog, pl)
    ensures Variant(prog, prog') && !AllKept(prog', pl, Start(bufs))
  {
    var sh: Shape :| !AllSymKept(prog, pl, sh, SymStart(sh));
    var w := LostInSome(prog, pl, sh, SymStart(sh));
    StartsAgree(w, sh);
    prog', bufs := FilledAll(prog, w.made), w.bufs;
    FilledIsVariant(prog, w.made);
  }

  /** The rewriting of a block is right for all buffer contents and all functions that it may
      compute exactly when the block, run on symbols, keeps every emit. */
  lemma AgreesIffBlockKept(prog: seq<Inst<nat>>, pl: Plan)
    requires PlanOk(pl) && Ssa(prog, {}) && AllConform(prog, pl)
    ensures (forall prog', bufs :: AgreesFor(prog, pl, prog', bufs)) <==> BlockKept(prog, pl)
  {
    if BlockKept(prog, pl) {
      forall prog', bufs ensures AgreesFor(prog, pl, prog', bufs) {
        if Variant(prog, prog') {
          KeptForVariant(prog, pl, prog', bufs);
          VariantIsSsa(prog, prog', {});
          VariantConforms(prog, prog', pl);
          FromTheStart(prog', pl, bufs);
        }
      }
    } else {
      var prog', bufs := LostForVariant(prog, pl);
      VariantIsSsa(prog, prog', {});
      VariantConforms(prog, prog', pl);
      FromTheStart(prog', pl, bufs);
      assert !AgreesFor(prog, pl, prog', bufs);
    }
  }
}
