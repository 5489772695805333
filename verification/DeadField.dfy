/** Dead-field elimination on extracted structs (`DeadFieldEliminatePass`): analysis of the used
    and written fields, splitting, and the rewriting of accesses, updates and emits.

    Buffers are bit strings. One operation semantics serves the block before and after the
    rewriting; after it, values also have the names `Sub(v, p)` for piece `p` of struct `v`. */
module DeadField {
  import opened FieldSegments

  type Bits = seq<bool>

  /** A struct is its bits and the sizes of its fields. */
  datatype Value = Struct(bits: Bits, sizes: seq<nat>) | Scalar(bits: Bits)

  // ----- Bits -----

  /** Bits past the end of a buffer read as zero and are not written. */
  function Slice(buf: Bits, off: nat, n: nat): (r: Bits)
    ensures |r| == n && forall k :: 0 <= k < n ==> (r[k] <==> off + k < |buf| && buf[off + k])
  {
    seq(n, k requires 0 <= k < n => off + k < |buf| && buf[off + k])
  }

  function Write(buf: Bits, off: nat, bits: Bits): (r: Bits)
    ensures |r| == |buf|
    ensures forall k :: 0 <= k < |r| ==> r[k] == if off <= k < off + |bits| then bits[k - off] else buf[k]
  {
    seq(|buf|, k requires 0 <= k < |buf| => if off <= k < off + |bits| then bits[k - off] else buf[k])
  }

  lemma SliceOfSlice(buf: Bits, off: nat, n: nat, off': nat, n': nat)
    requires off' + n' <= n
    ensures Slice(Slice(buf, off, n), off', n') == Slice(buf, off + off', n')
  {
    var inner, outer := Slice(buf, off, n), Slice(buf, off + off', n');
    forall k | 0 <= k < n' ensures Slice(inner, off', n')[k] == outer[k] {
      assert inner[off' + k] <==> off + (off' + k) < |buf| && buf[off + (off' + k)];
    }
  }

  /** A write inside a stretch is the same write on the stretch. */
  lemma SliceOfWrite(buf: Bits, off: nat, bits: Bits, start: nat, n: nat)
    requires start <= off && off + |bits| <= start + n && start + n <= |buf|
    ensures Slice(Write(buf, off, bits), start, n) == Write(Slice(buf, start, n), off - start, bits)
  {
    var w, r := Write(buf, off, bits), Write(Slice(buf, start, n), off - start, bits);
    forall k | 0 <= k < n ensures Slice(w, start, n)[k] == r[k] {
      assert w[start + k] == if off <= start + k < off + |bits| then bits[start + k - off] else buf[start + k];
    }
  }

  lemma SliceOutsideWrite(buf: Bits, off: nat, bits: Bits, start: nat, n: nat)
    requires start + n <= off || off + |bits| <= start
    ensures Slice(Write(buf, off, bits), start, n) == Slice(buf, start, n)
  {
    var w, r := Write(buf, off, bits), Slice(buf, start, n);
    forall k | 0 <= k < n ensures Slice(w, start, n)[k] == r[k] {
      if start + k < |buf| {
        assert w[start + k] == buf[start + k];
      }
    }
  }

  // ----- Operations -----

  datatype Inst<I> =
    | Extract(dst: I, buf: nat, off: nat, sizes: seq<nat>)
    | Access(dst: I, src: I, i: nat)
    | SetField(dst: I, src: I, i: nat, val: I)
    | Emit(src: I, buf: nat, off: nat)
    | Compute(dst: I, args: seq<I>, fn: seq<Bits> -> Bits)

  datatype State<!I> = State(env: map<I, Value>, bufs: map<nat, Bits>)

  function Get<I>(env: map<I, Value>, id: I): Value { if id in env then env[id] else Scalar([]) }

  function BufferOf<I>(st: State<I>, b: nat): Bits { if b in st.bufs then st.bufs[b] else [] }

  function FieldOf(v: Value, i: nat): Bits {
    if v.Struct? && i < |v.sizes| then Slice(v.bits, Prefix(v.sizes, i), v.sizes[i]) else []
  }

  /** The new value is cut, or extended with zeros, to the field's size. */
  function WithField(v: Value, i: nat, b: Bits): Value {
    if v.Struct? && i < |v.sizes| then v.(bits := Write(v.bits, Prefix(v.sizes, i), Slice(b, 0, v.sizes[i]))) else v
  }

  function ArgBits<I>(env: map<I, Value>, args: seq<I>): (r: seq<Bits>)
    ensures |r| == |args| && forall k :: 0 <= k < |args| ==> r[k] == Get(env, args[k]).bits
  {
    seq(|args|, k requires 0 <= k < |args| => Get(env, args[k]).bits)
  }

  function Step<I>(c: Inst<I>, st: State<I>): State<I> {
    match c
    case Extract(d, b, off, sizes) => st.(env := st.env[d := Struct(Slice(BufferOf(st, b), off, Total(sizes)), sizes)])
    case Access(d, s, i) => st.(env := st.env[d := Scalar(FieldOf(Get(st.env, s), i))])
    case SetField(d, s, i, v) => st.(env := st.env[d := WithField(Get(st.env, s), i, Get(st.env, v).bits)])
    case Emit(s, b, off) =>
      if b in st.bufs then st.(bufs := st.bufs[b := Write(st.bufs[b], off, Get(st.env, s).bits)]) else st
    case Compute(d, args, fn) => st.(env := st.env[d := Scalar(fn(ArgBits(st.env, args)))])
  }

  function Run<I>(code: seq<Inst<I>>, st: State<I>): State<I> {
    if code == [] then st else Run(code[1..], Step(code[0], st))
  }

  lemma {:induction false} RunConcat<I>(a: seq<Inst<I>>, b: seq<Inst<I>>, st: State<I>)
    ensures Run(a + b, st) == Run(b, Run(a, st))
    decreases |a|
  {
    if a == [] {
      assert a + b == b;
    } else {
      assert (a + b)[1..] == a[1..] + b;
      RunConcat(a[1..], b, Step(a[0], st));
    }
  }

  lemma RunSnoc<I>(a: seq<Inst<I>>, c: Inst<I>, st: State<I>)
    ensures Run(a + [c], st) == Step(c, Run(a, st))
  {
    RunConcat(a, [c], st);
  }

  // ----- Field usage -----

  datatype Usage = Usage(sizes: seq<nat>, used: set<nat>, written: set<nat>)

  /** Which extract each struct value comes from, and how its fields are used. */
  datatype Analysis = Analysis(roots: map<nat, nat>, usage: map<nat, Usage>)

  function Mark(u: map<nat, Usage>, r: nat, i: nat, write: bool): map<nat, Usage> {
    if r !in u then u
    else u[r := Usage(u[r].sizes, u[r].used + {i}, if write then u[r].written + {i} else u[r].written)]
  }

  /** `FieldExtractVisitor::visit`. */
  function Visit(a: Analysis, c: Inst<nat>): Analysis {
    match c
    case Extract(d, _, _, sizes) => Analysis(a.roots[d := d], a.usage[d := Usage(sizes, {}, {})])
    case Access(_, s, i) => if s in a.roots then a.(usage := Mark(a.usage, a.roots[s], i, false)) else a
    case SetField(d, s, i, _) =>
      if s in a.roots then Analysis(a.roots[d := a.roots[s]], Mark(a.usage, a.roots[s], i, true)) else a
    case _ => a
  }

  function UsedMask(u: Usage): seq<bool> { seq(|u.sizes|, i => i in u.used) }
  function WrittenMask(u: Usage): seq<bool> { seq(|u.sizes|, i => i in u.written) }

  // ----- Rewriting -----

  /** Values after the rewriting: the original ones, and the pieces made for value `n`. */
  datatype Id = Orig(n: nat) | Sub(n: nat, piece: nat)

  /** The pieces that stand for a struct value. */
  datatype Mapped = Mapped(m: SplitMap, values: seq<Id>)

  type Mapping = map<nat, Mapped>

  function At(m: map<nat, nat>, i: nat): nat { if i in m then m[i] else 0 }

  function ValueAt(x: Mapped, p: nat): Id { if p < |x.values| then x.values[p] else Orig(0) }

  function SubExtracts(d: nat, b: nat, off: nat, m: SplitMap, n: nat): seq<Inst<Id>>
    requires n <= |m.newTypes|
  {
    if n == 0 then []
    else SubExtracts(d, b, off, m, n - 1) + [SubExtract(d, b, off, m.newTypes[n-1], n - 1)]
  }

  /** Only the pieces with a written field go back into the buffer. */
  function SubEmits(x: Mapped, b: nat, off: nat, n: nat): seq<Inst<Id>>
    requires n <= |x.m.newTypes|
  {
    if n == 0 then []
    else if x.m.newTypes[n-1].write then
      SubEmits(x, b, off, n - 1) + [Emit(ValueAt(x, n - 1), b, off + x.m.newTypes[n-1].offset)]
    else SubEmits(x, b, off, n - 1)
  }

  datatype Rewritten = Rewritten(code: seq<Inst<Id>>, mp: Mapping)

  function OrigAll(args: seq<nat>): (r: seq<Id>)
    ensures |r| == |args| && forall k :: 0 <= k < |args| ==> r[k] == Orig(args[k])
  {
    seq(|args|, k requires 0 <= k < |args| => Orig(args[k]))
  }

  function SubNames(d: nat, n: nat): (r: seq<Id>)
    ensures |r| == n && forall q :: 0 <= q < n ==> r[q] == Sub(d, q)
  {
    seq(n, q requires 0 <= q < n => Sub(d, q))
  }

  /** One operation. Extracts and updates of the whole struct stay behind for their other users;
      every emit is erased, and replaced only when its value is mapped. */
  function RewriteOne(c: Inst<nat>, splits: map<nat, SplitMap>, mp: Mapping): Rewritten {
    match c
    case Extract(d, b, off, sizes) =>
      var keep := Extract(Orig(d), b, off, sizes);
      if d in splits then
        var n := |splits[d].newTypes|;
        Rewritten(SubExtracts(d, b, off, splits[d], n) + [keep], mp[d := Mapped(splits[d], SubNames(d, n))])
      else Rewritten([keep], mp)
    case Access(d, s, i) =>
      if s in mp then
        Rewritten([Access(Orig(d), ValueAt(mp[s], At(mp[s].m.fieldToIndex, i)), At(mp[s].m.indexToNewIndex, i))], mp)
      else Rewritten([Access(Orig(d), Orig(s), i)], mp)
    case SetField(d, s, i, v) =>
      var keep := SetField(Orig(d), Orig(s), i, Orig(v));
      if s in mp then
        var p := At(mp[s].m.fieldToIndex, i);
        var values := if p < |mp[s].values| then mp[s].values[p := Sub(d, p)] else mp[s].values;
        Rewritten([SetField(Sub(d, p), ValueAt(mp[s], p), At(mp[s].m.indexToNewIndex, i), Orig(v)), keep],
                  mp[d := Mapped(mp[s].m, values)])
      else Rewritten([keep], mp)
    case Emit(s, b, off) =>
      Rewritten(if s in mp then SubEmits(mp[s], b, off, |mp[s].m.newTypes|) else [], mp)
    case Compute(d, args, fn) => Rewritten([Compute(Orig(d), OrigAll(args), fn)], mp)
  }

  function Rewrite(prog: seq<Inst<nat>>, splits: map<nat, SplitMap>, mp: Mapping): Rewritten {
    if prog == [] then Rewritten([], mp)
    else
      var a := RewriteOne(prog[0], splits, mp);
      var b := Rewrite(prog[1..], splits, a.mp);
      Rewritten(a.code + b.code, b.mp)
  }

  // ----- The plan, and what it means for values -----

  ghost predicate PiecesWithin(m: SplitMap, size: nat) {
    forall q :: 0 <= q < |m.newTypes| ==> m.newTypes[q].offset + Total(m.newTypes[q].fields) <= size
  }

  ghost predicate PiecesApart(m: SplitMap) {
    forall q, q' :: 0 <= q < q' < |m.newTypes| ==>
      m.newTypes[q].offset + Total(m.newTypes[q].fields) <= m.newTypes[q'].offset
  }

  ghost predicate FieldFits(m: SplitMap, u: Usage, i: nat) {
    && i < |u.sizes|
    && i in m.fieldToIndex && i in m.indexToNewIndex
    && KeepsPlace(m, u.sizes, i, m.fieldToIndex[i], m.indexToNewIndex[i])
    && (i in u.written ==> m.newTypes[m.fieldToIndex[i]].write)
  }

  /** The pieces lie apart inside the struct, and every used field is in its place in one. */
  ghost predicate Fits(m: SplitMap, u: Usage) {
    PiecesWithin(m, Total(u.sizes)) && PiecesApart(m) && forall i :: i in u.used ==> FieldFits(m, u, i)
  }

  /** What the analysis found, and the splits made from it. */
  datatype Plan = Plan(roots: map<nat, nat>, usage: map<nat, Usage>, splits: map<nat, SplitMap>)

  ghost predicate PlanOk(pl: Plan) {
    && pl.usage.Keys == pl.splits.Keys
    && (forall v :: v in pl.roots ==> pl.roots[v] in pl.usage)
    && (forall r :: r in pl.usage ==> Fits(pl.splits[r], pl.usage[r]))
  }

  /** The operation's part in the analysis. */
  ghost predicate Conforms(c: Inst<nat>, pl: Plan) {
    match c
    case Extract(d, _, _, sizes) => d in pl.roots && pl.roots[d] == d && d in pl.usage && pl.usage[d].sizes == sizes
    case Access(d, s, i) => d !in pl.roots && (s in pl.roots ==> FieldUsed(pl, s, i, false))
    case SetField(d, s, i, _) =>
      && (d in pl.roots <==> s in pl.roots)
      && (s in pl.roots ==> pl.roots[d] == pl.roots[s] && FieldUsed(pl, s, i, true))
    case Emit(_, _, _) => true
    case Compute(d, _, _) => d !in pl.roots
  }

  ghost predicate FieldUsed(pl: Plan, s: nat, i: nat, write: bool)
    requires s in pl.roots
  {
    && pl.roots[s] in pl.usage
    && var u := pl.usage[pl.roots[s]];
    && i < |u.sizes| && i in u.used && (write ==> i in u.written)
  }

  /** Piece `q` of a struct with these bits. */
  function Part(bits: Bits, p: Piece): Value {
    Struct(Slice(bits, p.offset, Total(p.fields)), p.fields)
  }

  /** The pieces hold the parts of `bits` that they stand for. */
  ghost predicate PiecesOk(x: Mapped, bits: Bits, env': map<Id, Value>) {
    && |x.values| == |x.m.newTypes|
    && forall q :: 0 <= q < |x.values| ==> x.values[q] in env' && env'[x.values[q]] == Part(bits, x.m.newTypes[q])
  }

  ghost predicate ValueOk(pl: Plan, v: nat, val: Value, env': map<Id, Value>, x: Mapped)
    requires PlanOk(pl) && v in pl.roots
  {
    var r := pl.roots[v];
    && x.m == pl.splits[r]
    && val.Struct? && val.sizes == pl.usage[r].sizes && |val.bits| == Total(val.sizes)
    && PiecesOk(x, val.bits, env')
  }

  /** The two blocks are in step. */
  ghost predicate Sim(pl: Plan, st: State<nat>, st': State<Id>, mp: Mapping)
    requires PlanOk(pl)
  {
    && st'.bufs == st.bufs
    && SimEnv(st.env, st'.env)
    && (forall v :: v in mp <==> v in pl.roots && v in st.env)
    && (forall v :: v in mp ==> ValueOk(pl, v, st.env[v], st'.env, mp[v]))
  }

  ghost predicate SimEnv(env: map<nat, Value>, env': map<Id, Value>) {
    && (forall v: nat :: v in env ==> Orig(v) in env' && env'[Orig(v)] == env[v])
    && (forall id :: id in env' ==> id.n in env)
  }

  lemma SimGet(env: map<nat, Value>, env': map<Id, Value>, s: nat)
    requires SimEnv(env, env')
    ensures Get(env', Orig(s)) == Get(env, s)
  {
    if Orig(s) in env' {
      assert Orig(s).n == s;
    }
  }

  // ----- Pieces inside the struct -----

  lemma PieceInside(m: SplitMap, starts: seq<nat>, sizes: seq<nat>, used: seq<bool>, written: seq<bool>, q: nat)
    requires |sizes| == |used| == |written| && Exact(m, starts, sizes, used, written) && q < |m.newTypes|
    ensures m.newTypes[q].offset + Total(m.newTypes[q].fields) <= Total(sizes)
  {
    var p := m.newTypes[q];
    assert IsRun(p, starts[q], sizes, used, written);
    PrefixOfRun(sizes, starts[q], p.fields, |p.fields|);
    PrefixMono(sizes, starts[q] + |p.fields|, |sizes|);
  }

  lemma PieceBefore(m: SplitMap, starts: seq<nat>, sizes: seq<nat>, used: seq<bool>, written: seq<bool>, q: nat,
      q': nat)
    requires |sizes| == |used| == |written| && Exact(m, starts, sizes, used, written) && q < q' < |m.newTypes|
    ensures m.newTypes[q].offset + Total(m.newTypes[q].fields) <= m.newTypes[q'].offset
  {
    var p := m.newTypes[q];
    assert IsRun(p, starts[q], sizes, used, written) && IsRun(m.newTypes[q'], starts[q'], sizes, used, written);
    PrefixOfRun(sizes, starts[q], p.fields, |p.fields|);
    PrefixMono(sizes, starts[q] + |p.fields|, starts[q']);
  }

  lemma FieldIsFit(m: SplitMap, starts: seq<nat>, u: Usage, i: nat)
    requires Exact(m, starts, u.sizes, UsedMask(u), WrittenMask(u)) && i in u.used && i < |u.sizes|
    ensures FieldFits(m, u, i)
  {
    FieldsKeepTheirPlace(m, starts, u.sizes, UsedMask(u), WrittenMask(u), i);
    var p := m.fieldToIndex[i];
    assert IsRun(m.newTypes[p], starts[p], u.sizes, UsedMask(u), WrittenMask(u));
    if i in u.written {
      assert WrittenMask(u)[i];
    }
  }

  /** An exact split of the fields in use fits the struct. */
  lemma ExactFits(m: SplitMap, starts: seq<nat>, u: Usage)
    requires Exact(m, starts, u.sizes, UsedMask(u), WrittenMask(u)) && forall i :: i in u.used ==> i < |u.sizes|
    ensures Fits(m, u)
  {
    forall q | 0 <= q < |m.newTypes| ensures m.newTypes[q].offset + Total(m.newTypes[q].fields) <= Total(u.sizes) {
      PieceInside(m, starts, u.sizes, UsedMask(u), WrittenMask(u), q);
    }
    forall q, q' | 0 <= q < q' < |m.newTypes|
      ensures m.newTypes[q].offset + Total(m.newTypes[q].fields) <= m.newTypes[q'].offset
    {
      PieceBefore(m, starts, u.sizes, UsedMask(u), WrittenMask(u), q, q');
    }
    forall i | i in u.used ensures FieldFits(m, u, i) {
      FieldIsFit(m, starts, u, i);
    }
  }

  // ----- Defining a value -----

  ghost predicate Grown(env: map<Id, Value>, env': map<Id, Value>, d: nat) {
    && (forall id :: id in env ==> id in env' && env'[id] == env[id])
    && (forall id :: id in env' ==> id in env || id.n == d)
  }

  ghost predicate PiecesRead(d: nat, bits: Bits, m: SplitMap, n: nat, st: State<Id>, r: State<Id>)
    requires n <= |m.newTypes|
  {
    && r.bufs == st.bufs && Grown(st.env, r.env, d) && Orig(d) !in r.env
    && (forall q: nat :: Sub(d, q) in r.env <==> q < n)
    && (forall q: nat :: q < n ==> r.env[Sub(d, q)] == Part(bits, m.newTypes[q]))
  }

  lemma OnePieceMore(d: nat, b: nat, off: nat, size: nat, m: SplitMap, n: nat, bits: Bits, st: State<Id>, r: State<Id>)
    requires n < |m.newTypes| && PiecesRead(d, bits, m, n, st, r)
    requires bits == Slice(BufferOf(st, b), off, size) && PiecesWithin(m, size)
    ensures PiecesRead(d, bits, m, n + 1, st, Step(SubExtract(d, b, off, m.newTypes[n], n), r))
  {
    var p := m.newTypes[n];
    SliceOfSlice(BufferOf(st, b), off, size, p.offset, Total(p.fields));
    assert Step(SubExtract(d, b, off, p, n), r) == r.(env := r.env[Sub(d, n) := Part(bits, p)]);
  }

  function SubExtract(d: nat, b: nat, off: nat, p: Piece, q: nat): Inst<Id> {
    Extract(Sub(d, q), b, off + p.offset, p.fields)
  }

  function Loaded(d: nat, b: nat, off: nat, m: SplitMap, n: nat, st: State<Id>): State<Id>
    requires n <= |m.newTypes|
  {
    if n == 0 then st else Step(SubExtract(d, b, off, m.newTypes[n-1], n - 1), Loaded(d, b, off, m, n - 1, st))
  }

  lemma {:induction false} SubExtractsLoad(d: nat, b: nat, off: nat, m: SplitMap, n: nat, st: State<Id>)
    requires n <= |m.newTypes|
    ensures Run(SubExtracts(d, b, off, m, n), st) == Loaded(d, b, off, m, n, st)
    decreases n
  {
    if n > 0 {
      SubExtractsLoad(d, b, off, m, n - 1, st);
      RunSnoc(SubExtracts(d, b, off, m, n - 1), SubExtract(d, b, off, m.newTypes[n-1], n - 1), st);
    }
  }

  lemma LoadedStep(d: nat, b: nat, off: nat, m: SplitMap, n: nat, st: State<Id>)
    requires 0 < n <= |m.newTypes|
    ensures Loaded(d, b, off, m, n, st) ==
      Step(SubExtract(d, b, off, m.newTypes[n-1], n - 1), Loaded(d, b, off, m, n - 1, st))
  {}

  lemma LoadOneMore(d: nat, b: nat, off: nat, m: SplitMap, n: nat, size: nat, bits: Bits, st: State<Id>, r: State<Id>,
      r': State<Id>)
    requires 0 < n <= |m.newTypes| && PiecesWithin(m, size) && bits == Slice(BufferOf(st, b), off, size)
    requires PiecesRead(d, bits, m, n - 1, st, r) && r' == Step(SubExtract(d, b, off, m.newTypes[n-1], n - 1), r)
    ensures PiecesRead(d, bits, m, n, st, r')
  {
    OnePieceMore(d, b, off, size, m, n - 1, bits, st, r);
  }

  /** The sub-extracts read, piece by piece, what the whole extract reads. */
  lemma {:induction false} LoadedReads(d: nat, b: nat, off: nat, m: SplitMap, n: nat, size: nat, bits: Bits,
      st: State<Id>)
    requires n <= |m.newTypes| && PiecesWithin(m, size) && PiecesRead(d, bits, m, 0, st, st)
    requires bits == Slice(BufferOf(st, b), off, size)
    ensures PiecesRead(d, bits, m, n, st, Loaded(d, b, off, m, n, st))
    decreases n
  {
    if n > 0 {
      LoadedReads(d, b, off, m, n - 1, size, bits, st);
      LoadedStep(d, b, off, m, n, st);
      LoadOneMore(d, b, off, m, n, size, bits, st, Loaded(d, b, off, m, n - 1, st), Loaded(d, b, off, m, n, st));
    }
  }

  lemma SimEnvGrows(env: map<nat, Value>, env': map<Id, Value>, env1': map<Id, Value>, d: nat, val: Value)
    requires SimEnv(env, env') && d !in env && Grown(env', env1', d) && Orig(d) in env1' && env1'[Orig(d)] == val
    ensures SimEnv(env[d := val], env1')
  {}

  /** A value defined by the step leaves the others, and their pieces, as they were. */
  lemma OthersKeep(pl: Plan, v: nat, val: Value, env': map<Id, Value>, env1': map<Id, Value>, x: Mapped, d: nat)
    requires PlanOk(pl) && v in pl.roots && ValueOk(pl, v, val, env', x) && Grown(env', env1', d)
    ensures ValueOk(pl, v, val, env1', x)
  {}

  /** Defining `d` keeps the blocks in step when its value, and its pieces if it has any, agree. */
  lemma Defined(pl: Plan, st: State<nat>, st': State<Id>, mp: Mapping, d: nat, val: Value, st1': State<Id>,
      mp1: Mapping)
    requires PlanOk(pl) && Sim(pl, st, st', mp) && d !in st.env
    requires st1'.bufs == st'.bufs && Grown(st'.env, st1'.env, d) && Orig(d) in st1'.env && st1'.env[Orig(d)] == val
    requires if d in pl.roots then d in mp1 && mp1 == mp[d := mp1[d]] && ValueOk(pl, d, val, st1'.env, mp1[d])
      else mp1 == mp
    ensures Sim(pl, st.(env := st.env[d := val]), st1', mp1)
  {
    SimEnvGrows(st.env, st'.env, st1'.env, d, val);
    var env1 := st.env[d := val];
    forall v | v in mp1 ensures v in pl.roots && v in env1 && ValueOk(pl, v, env1[v], st1'.env, mp1[v]) {
      if v != d {
        OthersKeep(pl, v, st.env[v], st'.env, st1'.env, mp[v], d);
      }
    }
  }

  lemma FreshIn(env: map<nat, Value>, env': map<Id, Value>, d: nat)
    requires SimEnv(env, env') && d !in env
    ensures forall id :: id in env' ==> id.n != d
  {}

  // ----- One operation -----

  lemma ExtractStep(pl: Plan, c: Inst<nat>, st: State<nat>, st': State<Id>, mp: Mapping)
    requires PlanOk(pl) && Sim(pl, st, st', mp) && c.Extract? && Conforms(c, pl) && c.dst !in st.env
    ensures var rw := RewriteOne(c, pl.splits, mp); Sim(pl, Step(c, st), Run(rw.code, st'), rw.mp)
  {
    var d, m, size := c.dst, pl.splits[c.dst], Total(c.sizes);
    var n := |m.newTypes|;
    FreshIn(st.env, st'.env, d);
    LoadedReads(d, c.buf, c.off, m, n, size, Slice(BufferOf(st', c.buf), c.off, size), st');
    SubExtractsLoad(d, c.buf, c.off, m, n, st');
    RunSnoc(SubExtracts(d, c.buf, c.off, m, n), Extract(Orig(d), c.buf, c.off, c.sizes), st');
    LoadedThenWhole(pl, st, st', mp, c, Loaded(d, c.buf, c.off, m, n, st'));
  }

  lemma LoadedThenWhole(pl: Plan, st: State<nat>, st': State<Id>, mp: Mapping, c: Inst<nat>, r: State<Id>)
    requires PlanOk(pl) && Sim(pl, st, st', mp) && c.Extract? && Conforms(c, pl) && c.dst !in st.env
    requires PiecesRead(c.dst, Slice(BufferOf(st', c.buf), c.off, Total(c.sizes)), pl.splits[c.dst],
      |pl.splits[c.dst].newTypes|, st', r)
    ensures var m := pl.splits[c.dst];
      Sim(pl, Step(c, st), Step(Extract(Orig(c.dst), c.buf, c.off, c.sizes), r),
        mp[c.dst := Mapped(m, SubNames(c.dst, |m.newTypes|))])
  {
    var val := Struct(Slice(BufferOf(st, c.buf), c.off, Total(c.sizes)), c.sizes);
    var m := pl.splits[c.dst];
    var r' := r.(env := r.env[Orig(c.dst) := val]);
    assert BufferOf(r, c.buf) == BufferOf(st, c.buf);
    Defined(pl, st, st', mp, c.dst, val, r', mp[c.dst := Mapped(m, SubNames(c.dst, |m.newTypes|))]);
  }

  lemma FieldInside(sizes: seq<nat>, i: nat)
    requires i < |sizes|
    ensures Prefix(sizes, i) + sizes[i] <= Total(sizes)
  {
    PrefixMono(sizes, i + 1, |sizes|);
  }

  /** A used field read from its piece is the field of the struct. */
  lemma FieldInPiece(m: SplitMap, u: Usage, i: nat, bits: Bits)
    requires Fits(m, u) && i in u.used
    ensures FieldFits(m, u, i)
    ensures FieldOf(Part(bits, m.newTypes[m.fieldToIndex[i]]), m.indexToNewIndex[i]) ==
      FieldOf(Struct(bits, u.sizes), i)
  {
    assert FieldFits(m, u, i);
    FieldOfPart(bits, u.sizes, i, m.newTypes[m.fieldToIndex[i]], m.indexToNewIndex[i]);
  }

  lemma FieldOfPart(bits: Bits, sizes: seq<nat>, i: nat, p: Piece, q: nat)
    requires i < |sizes| && q < |p.fields| && p.fields[q] == sizes[i]
    requires p.offset + Prefix(p.fields, q) == Prefix(sizes, i)
    ensures FieldOf(Part(bits, p), q) == FieldOf(Struct(bits, sizes), i)
  {
    FieldInside(p.fields, q);
    SliceShift(bits, p.offset, Total(p.fields), Prefix(p.fields, q), p.fields[q], Prefix(sizes, i));
  }

  lemma SliceShift(bits: Bits, off: nat, n: nat, at: nat, len: nat, whole: nat)
    requires at + len <= n && off + at == whole
    ensures Slice(Slice(bits, off, n), at, len) == Slice(bits, whole, len)
  {
    SliceOfSlice(bits, off, n, at, len);
  }

  /** Updating the field in its piece updates that part of the struct. */
  lemma UpdateInPiece(m: SplitMap, u: Usage, i: nat, bits: Bits, b: Bits)
    requires Fits(m, u) && i in u.used && |bits| == Total(u.sizes)
    ensures FieldFits(m, u, i)
    ensures var p := m.newTypes[m.fieldToIndex[i]];
      WithField(Part(bits, p), m.indexToNewIndex[i], b) == Part(WithField(Struct(bits, u.sizes), i, b).bits, p)
  {
    assert FieldFits(m, u, i);
    var p, q := m.newTypes[m.fieldToIndex[i]], m.indexToNewIndex[i];
    FieldInside(p.fields, q);
    SliceOfWrite(bits, Prefix(u.sizes, i), Slice(b, 0, u.sizes[i]), p.offset, Total(p.fields));
  }

  lemma UpdateOutsidePiece(m: SplitMap, u: Usage, i: nat, bits: Bits, b: Bits, q: nat)
    requires Fits(m, u) && i in u.used && FieldFits(m, u, i) && q < |m.newTypes| && q != m.fieldToIndex[i]
    ensures Part(WithField(Struct(bits, u.sizes), i, b).bits, m.newTypes[q]) == Part(bits, m.newTypes[q])
  {
    var p := m.newTypes[m.fieldToIndex[i]];
    FieldInside(p.fields, m.indexToNewIndex[i]);
    SliceOutsideWrite(bits, Prefix(u.sizes, i), Slice(b, 0, u.sizes[i]), m.newTypes[q].offset,
      Total(m.newTypes[q].fields));
  }

  lemma AccessStep(pl: Plan, c: Inst<nat>, st: State<nat>, st': State<Id>, mp: Mapping)
    requires PlanOk(pl) && Sim(pl, st, st', mp) && c.Access? && Conforms(c, pl) && c.dst !in st.env
    ensures var rw := RewriteOne(c, pl.splits, mp); Sim(pl, Step(c, st), Run(rw.code, st'), rw.mp)
  {
    var d, s, i := c.dst, c.src, c.i;
    var val := Scalar(FieldOf(Get(st.env, s), i));
    FreshIn(st.env, st'.env, d);
    if s in mp {
      assert ValueOk(pl, s, st.env[s], st'.env, mp[s]);
      FieldInPiece(mp[s].m, pl.usage[pl.roots[s]], i, st.env[s].bits);
    } else {
      SimGet(st.env, st'.env, s);
    }
    Defined(pl, st, st', mp, d, val, st'.(env := st'.env[Orig(d) := val]), mp);
  }

  lemma ComputeStep(pl: Plan, c: Inst<nat>, st: State<nat>, st': State<Id>, mp: Mapping)
    requires PlanOk(pl) && Sim(pl, st, st', mp) && c.Compute? && Conforms(c, pl) && c.dst !in st.env
    ensures var rw := RewriteOne(c, pl.splits, mp); Sim(pl, Step(c, st), Run(rw.code, st'), rw.mp)
  {
    forall k | 0 <= k < |c.args| ensures ArgBits(st'.env, OrigAll(c.args))[k] == ArgBits(st.env, c.args)[k] {
      SimGet(st.env, st'.env, c.args[k]);
    }
    assert ArgBits(st'.env, OrigAll(c.args)) == ArgBits(st.env, c.args);
    var val := Scalar(c.fn(ArgBits(st.env, c.args)));
    FreshIn(st.env, st'.env, c.dst);
    Defined(pl, st, st', mp, c.dst, val, st'.(env := st'.env[Orig(c.dst) := val]), mp);
  }

  lemma UpdatedPieces(m: SplitMap, u: Usage, i: nat, bits: Bits, b: Bits, x: Mapped, d: nat, env': map<Id, Value>)
    requires Fits(m, u) && i in u.used && |bits| == Total(u.sizes) && x.m == m && PiecesOk(x, bits, env')
    requires FieldFits(m, u, i)
    requires forall id :: id in env' ==> id.n != d
    ensures var p, next := m.fieldToIndex[i], WithField(Struct(bits, u.sizes), i, b).bits;
      PiecesOk(Mapped(m, x.values[p := Sub(d, p)]), next, env'[Sub(d, p) := Part(next, m.newTypes[p])])
  {
    var p, next := m.fieldToIndex[i], WithField(Struct(bits, u.sizes), i, b).bits;
    var values, env1 := x.values[p := Sub(d, p)], env'[Sub(d, p) := Part(next, m.newTypes[p])];
    forall q | 0 <= q < |values| ensures values[q] in env1 && env1[values[q]] == Part(next, m.newTypes[q]) {
      if q != p {
        UpdateOutsidePiece(m, u, i, bits, b, q);
      }
    }
  }

  lemma SetFieldStep(pl: Plan, c: Inst<nat>, st: State<nat>, st': State<Id>, mp: Mapping)
    requires PlanOk(pl) && Sim(pl, st, st', mp) && c.SetField? && Conforms(c, pl) && c.dst !in st.env && c.src in st.env
    ensures var rw := RewriteOne(c, pl.splits, mp); Sim(pl, Step(c, st), Run(rw.code, st'), rw.mp)
  {
    var d, s, i, b := c.dst, c.src, c.i, Get(st.env, c.val).bits;
    var val := WithField(Get(st.env, s), i, b);
    FreshIn(st.env, st'.env, d);
    SimGet(st.env, st'.env, s);
    SimGet(st.env, st'.env, c.val);
    if s in mp {
      MappedUpdate(pl, c, st, st', mp, val, b);
    } else {
      Defined(pl, st, st', mp, d, val, st'.(env := st'.env[Orig(d) := val]), mp);
    }
  }

  lemma MappedUpdate(pl: Plan, c: Inst<nat>, st: State<nat>, st': State<Id>, mp: Mapping, val: Value, b: Bits)
    requires PlanOk(pl) && Sim(pl, st, st', mp) && c.SetField? && Conforms(c, pl) && c.dst !in st.env && c.src in mp
    requires b == Get(st.env, c.val).bits == Get(st'.env, Orig(c.val)).bits && val == WithField(st.env[c.src], c.i, b)
    requires forall id :: id in st'.env ==> id.n != c.dst
    ensures var rw := RewriteOne(c, pl.splits, mp); Sim(pl, Step(c, st), Run(rw.code, st'), rw.mp)
  {
    TwoUpdates(pl, c, st, st', mp, val, b);
    UpdatedSim(pl, c, st, st', mp, val, b);
    UpdateRewrites(pl, c, st, mp, val, b);
  }

  lemma UpdatedSim(pl: Plan, c: Inst<nat>, st: State<nat>, st': State<Id>, mp: Mapping, val: Value, b: Bits)
    requires PlanOk(pl) && Sim(pl, st, st', mp) && c.SetField? && Conforms(c, pl) && c.dst !in st.env && c.src in mp
    requires val == WithField(st.env[c.src], c.i, b) && forall id :: id in st'.env ==> id.n != c.dst
    ensures c.i in mp[c.src].m.fieldToIndex
    ensures var x, p := mp[c.src], mp[c.src].m.fieldToIndex[c.i];
      && p < |x.m.newTypes| == |x.values|
      && Sim(pl, st.(env := st.env[c.dst := val]),
        st'.(env := st'.env[Sub(c.dst, p) := Part(val.bits, x.m.newTypes[p])][Orig(c.dst) := val]),
             mp[c.dst := Mapped(x.m, x.values[p := Sub(c.dst, p)])])
  {
    var d, x := c.dst, mp[c.src];
    UpdatedValueOk(pl, c, st, st', mp, val, b);
    var p := x.m.fieldToIndex[c.i];
    PieceDefined(pl, st, st', mp, d, p, Part(val.bits, x.m.newTypes[p]), val, Mapped(x.m, x.values[p := Sub(d, p)]));
  }

  /** Defining `d` together with a new value of its piece `p`. */
  lemma PieceDefined(pl: Plan, st: State<nat>, st': State<Id>, mp: Mapping, d: nat, p: nat, part: Value, val: Value,
      x: Mapped)
    requires PlanOk(pl) && Sim(pl, st, st', mp) && d !in st.env && d in pl.roots
    requires forall id :: id in st'.env ==> id.n != d
    requires ValueOk(pl, d, val, st'.env[Sub(d, p) := part][Orig(d) := val], x)
    ensures Sim(pl, st.(env := st.env[d := val]), st'.(env := st'.env[Sub(d, p) := part][Orig(d) := val]), mp[d := x])
  {
    Defined(pl, st, st', mp, d, val, st'.(env := st'.env[Sub(d, p) := part][Orig(d) := val]), mp[d := x]);
  }

  lemma UpdateRewrites(pl: Plan, c: Inst<nat>, st: State<nat>, mp: Mapping, val: Value, b: Bits)
    requires c.SetField? && c.src in mp && c.src in st.env && b == Get(st.env, c.val).bits
    requires val == WithField(st.env[c.src], c.i, b)
    requires c.i in mp[c.src].m.fieldToIndex && mp[c.src].m.fieldToIndex[c.i] < |mp[c.src].values|
    ensures var x, p := mp[c.src], mp[c.src].m.fieldToIndex[c.i];
      RewriteOne(c, pl.splits, mp).mp == mp[c.dst := Mapped(x.m, x.values[p := Sub(c.dst, p)])]
    ensures Step(c, st) == st.(env := st.env[c.dst := val])
  {}

  lemma UpdatedValueOk(pl: Plan, c: Inst<nat>, st: State<nat>, st': State<Id>, mp: Mapping, val: Value, b: Bits)
    requires PlanOk(pl) && Sim(pl, st, st', mp) && c.SetField? && Conforms(c, pl) && c.src in mp && c.dst in pl.roots
    requires val == WithField(st.env[c.src], c.i, b) && forall id :: id in st'.env ==> id.n != c.dst
    ensures c.i in mp[c.src].m.fieldToIndex
    ensures var x, p := mp[c.src], mp[c.src].m.fieldToIndex[c.i];
      && p < |x.m.newTypes| == |x.values|
      && ValueOk(pl, c.dst, val, st'.env[Sub(c.dst, p) := Part(val.bits, x.m.newTypes[p])][Orig(c.dst) := val],
        Mapped(x.m, x.values[p := Sub(c.dst, p)]))
  {
    var d, s, i, x := c.dst, c.src, c.i, mp[c.src];
    assert ValueOk(pl, s, st.env[s], st'.env, x);
    var u, bits := pl.usage[pl.roots[s]], st.env[s].bits;
    assert FieldFits(x.m, u, i);
    UpdatedPieces(x.m, u, i, bits, b, x, d, st'.env);
    var p := x.m.fieldToIndex[i];
    var env1 := st'.env[Sub(d, p) := Part(val.bits, x.m.newTypes[p])];
    assert Grown(env1, env1[Orig(d) := val], d);
    OthersKeep(pl, d, val, env1, env1[Orig(d) := val], Mapped(x.m, x.values[p := Sub(d, p)]), d);
  }

  lemma TwoUpdates(pl: Plan, c: Inst<nat>, st: State<nat>, st': State<Id>, mp: Mapping, val: Value, b: Bits)
    requires PlanOk(pl) && Sim(pl, st, st', mp) && c.SetField? && Conforms(c, pl) && c.dst !in st.env && c.src in mp
    requires b == Get(st'.env, Orig(c.val)).bits && val == WithField(st.env[c.src], c.i, b)
    requires forall id :: id in st'.env ==> id.n != c.dst
    ensures c.i in mp[c.src].m.fieldToIndex
    ensures var m, p := mp[c.src].m, mp[c.src].m.fieldToIndex[c.i];
      p < |m.newTypes| &&
        Run(RewriteOne(c, pl.splits, mp).code, st') ==
          st'.(env := st'.env[Sub(c.dst, p) := Part(val.bits, m.newTypes[p])][Orig(c.dst) := val])
  {
    var d, s, i, x := c.dst, c.src, c.i, mp[c.src];
    FirstUpdate(pl, c, st, st', mp, val, b);
    var p := x.m.fieldToIndex[i];
    var first := SetField(Sub(d, p), x.values[p], x.m.indexToNewIndex[i], Orig(c.val));
    var keep := SetField(Orig(d), Orig(s), i, Orig(c.val));
    SimGet(st.env, st'.env, s);
    SecondUpdate(st', d, p, Part(val.bits, x.m.newTypes[p]), s, i, c.val);
    RunSnoc([first], keep, st');
    assert [first] + [keep] == [first, keep];
  }

  /** The update that stays behind does not see the new piece. */
  lemma SecondUpdate(st': State<Id>, d: nat, p: nat, part: Value, s: nat, i: nat, v: nat)
    ensures var st1 := st'.(env := st'.env[Sub(d, p) := part]);
      Step(SetField(Orig(d), Orig(s), i, Orig(v)), st1)
        == st1.(env := st1.env[Orig(d) := WithField(Get(st'.env, Orig(s)), i, Get(st'.env, Orig(v)).bits)])
  {}

  lemma FirstUpdate(pl: Plan, c: Inst<nat>, st: State<nat>, st': State<Id>, mp: Mapping, val: Value, b: Bits)
    requires PlanOk(pl) && Sim(pl, st, st', mp) && c.SetField? && Conforms(c, pl) && c.src in mp
    requires b == Get(st'.env, Orig(c.val)).bits && val == WithField(st.env[c.src], c.i, b)
    ensures c.i in mp[c.src].m.fieldToIndex && c.i in mp[c.src].m.indexToNewIndex
    ensures var x, p := mp[c.src], mp[c.src].m.fieldToIndex[c.i];
      && p < |x.m.newTypes| == |x.values|
      && Step(SetField(Sub(c.dst, p), x.values[p], x.m.indexToNewIndex[c.i], Orig(c.val)), st')
        == st'.(env := st'.env[Sub(c.dst, p) := Part(val.bits, x.m.newTypes[p])])
  {
    var x := mp[c.src];
    assert ValueOk(pl, c.src, st.env[c.src], st'.env, x);
    UpdateInPiece(x.m, pl.usage[pl.roots[c.src]], c.i, st.env[c.src].bits, b);
  }

  // ----- Emits -----

  predicate InPiece(p: Piece, k: nat) { p.write && p.offset <= k < p.offset + Total(p.fields) }

  /** Bit `k` of the struct is in one of the first `n` pieces, and that piece is written. */
  predicate Covered(m: SplitMap, n: nat, k: nat)
    requires n <= |m.newTypes|
    ensures Covered(m, n, k) <==> exists q :: 0 <= q < n && InPiece(m.newTypes[q], k)
  {
    n > 0 && (Covered(m, n - 1, k) || InPiece(m.newTypes[n-1], k))
  }

  /** What emitting the written ones of the first `n` pieces leaves in the buffer. */
  function Patched(buf: Bits, off: nat, bits: Bits, m: SplitMap, n: nat): (r: Bits)
    requires n <= |m.newTypes|
    ensures |r| == |buf|
    ensures forall k :: 0 <= k < |r| ==>
      r[k] == if off <= k < off + |bits| && Covered(m, n, k - off) then bits[k - off] else buf[k]
  {
    seq(|buf|, k requires 0 <= k < |buf| =>
      if off <= k < off + |bits| && Covered(m, n, k - off) then bits[k - off] else buf[k])
  }

  lemma PatchMore(buf: Bits, off: nat, bits: Bits, m: SplitMap, n: nat)
    requires 0 < n <= |m.newTypes| && m.newTypes[n-1].offset + Total(m.newTypes[n-1].fields) <= |bits|
    ensures var p, before := m.newTypes[n-1], Patched(buf, off, bits, m, n - 1);
      Patched(buf, off, bits, m, n) == if p.write then Write(before, off + p.offset, Part(bits, p).bits) else before
  {
    var p, before, after := m.newTypes[n-1], Patched(buf, off, bits, m, n - 1), Patched(buf, off, bits, m, n);
    var w := if p.write then Write(before, off + p.offset, Part(bits, p).bits) else before;
    forall k | 0 <= k < |buf| ensures after[k] == w[k] {
      if off <= k < off + |bits| {
        assert Covered(m, n, k - off) <==> Covered(m, n - 1, k - off) || InPiece(p, k - off);
        if InPiece(p, k - off) {
          assert Part(bits, p).bits[k - off - p.offset] == bits[p.offset + (k - off - p.offset)];
        }
      }
    }
  }

  /** The state after the written ones of the first `n` pieces are emitted. */
  function EmittedTo(st: State<Id>, b: nat, off: nat, bits: Bits, m: SplitMap, n: nat): State<Id>
    requires n <= |m.newTypes|
  {
    if b in st.bufs then st.(bufs := st.bufs[b := Patched(st.bufs[b], off, bits, m, n)]) else st
  }

  lemma EmitOneMore(x: Mapped, b: nat, off: nat, n: nat, bits: Bits, st: State<Id>)
    requires 0 < n <= |x.m.newTypes| && PiecesOk(x, bits, st.env) && PiecesWithin(x.m, |bits|)
    ensures var p, before := x.m.newTypes[n-1], EmittedTo(st, b, off, bits, x.m, n - 1);
      EmittedTo(st, b, off, bits, x.m, n) ==
        if p.write then Step(Emit(x.values[n-1], b, off + p.offset), before) else before
  {
    if b in st.bufs {
      PatchMore(st.bufs[b], off, bits, x.m, n);
    }
  }

  lemma EmitNone(st: State<Id>, b: nat, off: nat, bits: Bits, m: SplitMap)
    ensures EmittedTo(st, b, off, bits, m, 0) == st
  {
    if b in st.bufs {
      assert Patched(st.bufs[b], off, bits, m, 0) == st.bufs[b];
    }
  }

  lemma {:induction false} SubEmitsWrite(x: Mapped, b: nat, off: nat, n: nat, bits: Bits, st: State<Id>)
    requires n <= |x.m.newTypes| && PiecesOk(x, bits, st.env) && PiecesWithin(x.m, |bits|)
    ensures Run(SubEmits(x, b, off, n), st) == EmittedTo(st, b, off, bits, x.m, n)
    decreases n
  {
    if n == 0 {
      EmitNone(st, b, off, bits, x.m);
    } else {
      SubEmitsWrite(x, b, off, n - 1, bits, st);
      EmitOneMore(x, b, off, n, bits, st);
      RunSnoc(SubEmits(x, b, off, n - 1), Emit(x.values[n-1], b, off + x.m.newTypes[n-1].offset), st);
    }
  }

  /** The bits that no written piece covers are in the buffer already. */
  ghost predicate InPlace(buf: Bits, off: nat, bits: Bits, m: SplitMap) {
    forall k: nat :: k < |bits| && off + k < |buf| && !Covered(m, |m.newTypes|, k) ==> buf[off + k] == bits[k]
  }

  /** Emitting the pieces is emitting the struct exactly when the rest is in place. */
  lemma PatchIsWrite(buf: Bits, off: nat, bits: Bits, m: SplitMap)
    ensures Patched(buf, off, bits, m, |m.newTypes|) == Write(buf, off, bits) <==> InPlace(buf, off, bits, m)
  {
    var n := |m.newTypes|;
    var a, w := Patched(buf, off, bits, m, n), Write(buf, off, bits);
    if InPlace(buf, off, bits, m) {
      forall k | 0 <= k < |buf| ensures a[k] == w[k] {
        if off <= k < off + |bits| && !Covered(m, n, k - off) {
          assert buf[off + (k - off)] == bits[k - off];
        }
      }
    }
    if a == w {
      forall k: nat | k < |bits| && off + k < |buf| && !Covered(m, n, k) ensures buf[off + k] == bits[k] {
        assert a[off + k] == w[off + k] && off + k - off == k;
      }
    }
  }

  /** What an emit must find in its buffer for the rewritten block to leave the same buffer. */
  ghost predicate EmitKept(c: Inst<nat>, pl: Plan, st: State<nat>)
    requires PlanOk(pl)
  {
    c.Emit? && c.buf in st.bufs ==>
      var buf, bits := st.bufs[c.buf], Get(st.env, c.src).bits;
      if c.src in pl.roots && c.src in st.env then InPlace(buf, c.off, bits, pl.splits[pl.roots[c.src]])
      else Write(buf, c.off, bits) == buf
  }

  lemma EmitStep(pl: Plan, c: Inst<nat>, st: State<nat>, st': State<Id>, mp: Mapping)
    requires PlanOk(pl) && Sim(pl, st, st', mp) && c.Emit?
    ensures var rw := RewriteOne(c, pl.splits, mp);
      && (EmitKept(c, pl, st) <==> Step(c, st).bufs == Run(rw.code, st').bufs)
      && (EmitKept(c, pl, st) ==> Sim(pl, Step(c, st), Run(rw.code, st'), rw.mp))
  {
    var bits := Get(st.env, c.src).bits;
    if c.src in mp {
      var x := mp[c.src];
      assert ValueOk(pl, c.src, st.env[c.src], st'.env, x);
      SubEmitsWrite(x, c.buf, c.off, |x.m.newTypes|, bits, st');
      if c.buf in st.bufs {
        PatchIsWrite(st.bufs[c.buf], c.off, bits, x.m);
        SameUpdate(st.bufs, c.buf, Write(st.bufs[c.buf], c.off, bits),
          Patched(st.bufs[c.buf], c.off, bits, x.m, |x.m.newTypes|));
      }
    } else if c.buf in st.bufs {
      SameUpdate(st.bufs, c.buf, Write(st.bufs[c.buf], c.off, bits), st.bufs[c.buf]);
      assert st.bufs[c.buf := st.bufs[c.buf]] == st.bufs;
    }
  }

  lemma SameUpdate(bufs: map<nat, Bits>, b: nat, x: Bits, y: Bits)
    ensures bufs[b := x] == bufs[b := y] <==> x == y
  {
    assert bufs[b := x][b] == x && bufs[b := y][b] == y;
  }

  // ----- Whole blocks -----

  function DefinedBy(c: Inst<nat>): set<nat> { if c.Emit? then {} else {c.dst} }

  /** Each value is defined once, and before its use. */
  ghost predicate SsaStep(c: Inst<nat>, defs: set<nat>) {
    && (!c.Emit? ==> c.dst !in defs)
    && (c.Access? || c.SetField? || c.Emit? ==> c.src in defs)
  }

  ghost predicate Ssa(prog: seq<Inst<nat>>, defs: set<nat>) {
    prog != [] ==> SsaStep(prog[0], defs) && Ssa(prog[1..], defs + DefinedBy(prog[0]))
  }

  ghost predicate AllConform(prog: seq<Inst<nat>>, pl: Plan) {
    forall i :: 0 <= i < |prog| ==> Conforms(prog[i], pl)
  }

  /** Every emit finds in its buffer what its struct's unwritten pieces hold. */
  ghost predicate AllKept(prog: seq<Inst<nat>>, pl: Plan, st: State<nat>)
    requires PlanOk(pl)
  {
    prog != [] ==> EmitKept(prog[0], pl, st) && AllKept(prog[1..], pl, Step(prog[0], st))
  }

  /** The buffers are equal after every operation of the original block. */
  ghost predicate Agree(prog: seq<Inst<nat>>, splits: map<nat, SplitMap>, mp: Mapping, st: State<nat>, st': State<Id>) {
    prog != [] ==>
      var rw := RewriteOne(prog[0], splits, mp);
      var next, next' := Step(prog[0], st), Run(rw.code, st');
      next.bufs == next'.bufs && Agree(prog[1..], splits, rw.mp, next, next')
  }

  lemma OneStep(pl: Plan, c: Inst<nat>, st: State<nat>, st': State<Id>, mp: Mapping)
    requires PlanOk(pl) && Sim(pl, st, st', mp) && Conforms(c, pl) && SsaStep(c, st.env.Keys)
    ensures var rw := RewriteOne(c, pl.splits, mp);
      && (EmitKept(c, pl, st) <==> Step(c, st).bufs == Run(rw.code, st').bufs)
      && (EmitKept(c, pl, st) ==> Sim(pl, Step(c, st), Run(rw.code, st'), rw.mp))
  {
    match c
    case Extract(_, _, _, _) => ExtractStep(pl, c, st, st', mp);
    case Access(_, _, _) => AccessStep(pl, c, st, st', mp);
    case SetField(_, _, _, _) => SetFieldStep(pl, c, st, st', mp);
    case Emit(_, _, _) => EmitStep(pl, c, st, st', mp);
    case Compute(_, _, _) => ComputeStep(pl, c, st, st', mp);
  }

  lemma StepKeys(c: Inst<nat>, st: State<nat>)
    ensures Step(c, st).env.Keys == st.env.Keys + DefinedBy(c)
  {}

  /** The rewritten block agrees with the original throughout exactly when every emit is kept;
      then all values agree at the end as well. */
  lemma {:induction false} RewriteAgrees(prog: seq<Inst<nat>>, pl: Plan, st: State<nat>, st': State<Id>, mp: Mapping)
    requires PlanOk(pl) && Sim(pl, st, st', mp) && Ssa(prog, st.env.Keys) && AllConform(prog, pl)
    ensures Agree(prog, pl.splits, mp, st, st') <==> AllKept(prog, pl, st)
    ensures AllKept(prog, pl, st) ==>
      var rw := Rewrite(prog, pl.splits, mp); Sim(pl, Run(prog, st), Run(rw.code, st'), rw.mp)
    decreases |prog|
  {
    if prog != [] {
      var c := prog[0];
      OneStep(pl, c, st, st', mp);
      if EmitKept(c, pl, st) {
        StepKeys(c, st);
        var rw := RewriteOne(c, pl.splits, mp);
        RewriteAgrees(prog[1..], pl, Step(c, st), Run(rw.code, st'), rw.mp);
        RunConcat(rw.code, Rewrite(prog[1..], pl.splits, rw.mp).code, st');
      }
    }
  }

  // ----- Writing back in place -----

  /** Where a struct was extracted from. */
  datatype Home = Home(buf: nat, off: nat)

  /** Structs are emitted where they came from. */
  ghost predicate Placed(c: Inst<nat>, pl: Plan, homes: map<nat, Home>) {
    match c
    case Extract(d, b, off, _) => d in homes && homes[d] == Home(b, off)
    case Emit(s, b, off) => s in pl.roots && pl.roots[s] in homes && homes[pl.roots[s]] == Home(b, off)
    case _ => true
  }

  ghost predicate HomesApart(pl: Plan, homes: map<nat, Home>) {
    forall r, r' ::
      r in homes && r' in homes && r in pl.usage && r' in pl.usage && r != r' && homes[r].buf == homes[r'].buf ==>
        || homes[r].off + Total(pl.usage[r].sizes) <= homes[r'].off
        || homes[r'].off + Total(pl.usage[r'].sizes) <= homes[r].off
  }

  /** A value still matches the buffer it came from, outside the written pieces. */
  ghost predicate Backed(pl: Plan, homes: map<nat, Home>, v: nat, st: State<nat>)
    requires PlanOk(pl) && v in pl.roots && v in st.env
  {
    var r := pl.roots[v];
    && r in homes && st.env[v].Struct? && st.env[v].sizes == pl.usage[r].sizes &&
      |st.env[v].bits| == Total(pl.usage[r].sizes)
    && InPlace(BufferOf(st, homes[r].buf), homes[r].off, st.env[v].bits, pl.splits[r])
  }

  ghost predicate AllBacked(pl: Plan, homes: map<nat, Home>, st: State<nat>)
    requires PlanOk(pl)
  {
    forall v :: v in pl.roots && v in st.env ==> Backed(pl, homes, v, st)
  }

  lemma UpdateStaysCovered(m: SplitMap, u: Usage, i: nat, bits: Bits, b: Bits, buf: Bits, off: nat)
    requires Fits(m, u) && i in u.used && i in u.written && i < |u.sizes| && |bits| == Total(u.sizes)
    requires InPlace(buf, off, bits, m)
    ensures InPlace(buf, off, WithField(Struct(bits, u.sizes), i, b).bits, m)
  {
    assert FieldFits(m, u, i);
    var p := m.newTypes[m.fieldToIndex[i]];
    FieldInside(p.fields, m.indexToNewIndex[i]);
    var next := WithField(Struct(bits, u.sizes), i, b).bits;
    forall k: nat | k < |next| && off + k < |buf| && !Covered(m, |m.newTypes|, k) ensures buf[off + k] == next[k] {
      assert !InPiece(p, k);
    }
  }

  /** Writing one version of a struct to its place keeps the other versions in place. */
  lemma SamePlace(buf: Bits, off: nat, written: Bits, bits: Bits, m: SplitMap)
    requires |written| == |bits| && InPlace(buf, off, written, m) && InPlace(buf, off, bits, m)
    ensures InPlace(Write(buf, off, written), off, bits, m)
  {
    var w := Write(buf, off, written);
    forall k: nat | k < |bits| && off + k < |w| && !Covered(m, |m.newTypes|, k) ensures w[off + k] == bits[k] {
      assert buf[off + k] == bits[k] == written[k];
    }
  }

  lemma OtherPlace(buf: Bits, at: nat, written: Bits, off: nat, bits: Bits, m: SplitMap)
    requires InPlace(buf, off, bits, m) && (at + |written| <= off || off + |bits| <= at)
    ensures InPlace(Write(buf, at, written), off, bits, m)
  {
    var w := Write(buf, at, written);
    forall k: nat | k < |bits| && off + k < |w| && !Covered(m, |m.newTypes|, k) ensures w[off + k] == bits[k] {
      assert buf[off + k] == bits[k];
    }
  }

  lemma EmitStaysBacked(pl: Plan, homes: map<nat, Home>, c: Inst<nat>, st: State<nat>, v: nat)
    requires PlanOk(pl) && HomesApart(pl, homes) && AllBacked(pl, homes, st) && c.Emit? && Placed(c, pl, homes)
    requires c.src in st.env
    requires v in pl.roots && v in st.env && c.buf in st.bufs
    ensures Backed(pl, homes, v, Step(c, st))
  {
    var r, rv := pl.roots[c.src], pl.roots[v];
    assert Backed(pl, homes, c.src, st) && Backed(pl, homes, v, st);
    if rv == r {
      SamePlace(st.bufs[c.buf], c.off, st.env[c.src].bits, st.env[v].bits, pl.splits[r]);
    } else if homes[rv].buf == c.buf {
      OtherPlace(st.bufs[c.buf], c.off, st.env[c.src].bits, homes[rv].off, st.env[v].bits, pl.splits[rv]);
    }
  }

  lemma BackedStep(pl: Plan, homes: map<nat, Home>, c: Inst<nat>, st: State<nat>)
    requires PlanOk(pl) && HomesApart(pl, homes) && AllBacked(pl, homes, st)
    requires Conforms(c, pl) && Placed(c, pl, homes) && SsaStep(c, st.env.Keys)
    ensures EmitKept(c, pl, st) && AllBacked(pl, homes, Step(c, st))
  {
    var next := Step(c, st);
    if c.Emit? {
      assert Backed(pl, homes, c.src, st);
    }
    forall v | v in pl.roots && v in next.env ensures Backed(pl, homes, v, next) {
      if v in st.env {
        assert Backed(pl, homes, v, st);
        if c.Emit? && c.buf in st.bufs {
          EmitStaysBacked(pl, homes, c, st, v);
        }
      } else if c.SetField? {
        var u := pl.usage[pl.roots[c.src]];
        assert Backed(pl, homes, c.src, st);
        UpdateStaysCovered(pl.splits[pl.roots[v]], u, c.i, st.env[c.src].bits, Get(st.env, c.val).bits,
                           BufferOf(st, homes[pl.roots[v]].buf), homes[pl.roots[v]].off);
      }
    }
  }

  /** Structs that go back where they came from, to places that do not overlap, lose nothing. */
  lemma {:induction false} InPlaceBlocksAreKept(prog: seq<Inst<nat>>, pl: Plan, homes: map<nat, Home>, st: State<nat>)
    requires PlanOk(pl) && HomesApart(pl, homes) && AllBacked(pl, homes, st)
    requires Ssa(prog, st.env.Keys) && AllConform(prog, pl)
    requires forall i :: 0 <= i < |prog| ==> Placed(prog[i], pl, homes)
    ensures AllKept(prog, pl, st)
    decreases |prog|
  {
    if prog != [] {
      BackedStep(pl, homes, prog[0], st);
      StepKeys(prog[0], st);
      InPlaceBlocksAreKept(prog[1..], pl, homes, Step(prog[0], st));
    }
  }
}
