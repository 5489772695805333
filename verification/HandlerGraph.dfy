/** From a handler to a flow network and back to two pipeline stages (`pipelineHandler`).

    Operations, values and the entry and exit of each block become vertices. Base edges carry
    the cost of sending a value to the next stage; infinite "false" edges carry dependencies
    backwards. The theorems say what a finite cut of this network means for the handler. */
module HandlerGraph {
  import opened FlowNetwork
  import opened BalancedCut

  // ----- Handlers -----

  datatype Ty =
    | Struct(fields: seq<Ty>) | Buffer | Table | Context | ContextRef | Integer(width: nat) | Atom

  function TransmitCostRec(t: Ty): nat {
    match t
    case Struct(fields) => TransmitCosts(fields)
    case Buffer => 128
    case Table => 64
    case Context => 64
    case ContextRef => 64
    case Integer(width) => width
    case Atom => 32
  }

  function TransmitCosts(ts: seq<Ty>): nat {
    if ts == [] then 0 else TransmitCostRec(ts[0]) + TransmitCosts(ts[1..])
  }

  function TransmitCost(t: Ty): nat {
    1 + TransmitCostRec(t)
  }

  /** What a type is made of, with structs taken apart. */
  function Leaves(t: Ty): seq<Ty> {
    match t
    case Struct(fields) => AllLeaves(fields)
    case _ => [t]
  }

  function AllLeaves(ts: seq<Ty>): seq<Ty> {
    if ts == [] then [] else Leaves(ts[0]) + AllLeaves(ts[1..])
  }

  function Widths(ls: seq<Ty>): nat {
    if ls == [] then 0 else Widths(ls[..|ls|-1]) + if ls[|ls|-1].Integer? then ls[|ls|-1].width else 0
  }

  /** 128 bits for every buffer, 64 for every table and context, 32 for every atom, and the widths
      of the integers. */
  function LeafBits(ls: seq<Ty>): nat {
    var n := multiset(ls);
    128 * n[Buffer] + 64 * (n[Table] + n[Context] + n[ContextRef]) + 32 * n[Atom] + Widths(ls)
  }

  lemma {:induction false} LeafBitsAdd(a: seq<Ty>, b: seq<Ty>)
    ensures LeafBits(a + b) == LeafBits(a) + LeafBits(b)
    decreases |b|
  {
    if b == [] {
      assert a + b == a;
    } else {
      var rest, l := b[..|b|-1], b[|b|-1];
      assert b == rest + [l] && a + b == (a + rest) + [l];
      LeafBitsAdd(a, rest);
      assert multiset(b) == multiset(rest) + multiset{l} && multiset(a + b) == multiset(a + rest) + multiset{l};
      assert (a + b)[..|a + b|-1] == a + rest;
    }
  }

  lemma OneLeaf(t: Ty)
    requires !t.Struct?
    ensures LeafBits([t]) == TransmitCostRec(t)
  {
    var ls := [t];
    assert ls[..|ls|-1] == [];
    assert Widths(ls) == if t.Integer? then t.width else 0;
    assert multiset(ls) == multiset{t};
  }

  /** Sending a value costs one and the bits of its leaves, however its structs are nested. */
  lemma {:induction false} CostOfLeaves(t: Ty)
    ensures TransmitCost(t) == 1 + LeafBits(Leaves(t))
    decreases t, 1
  {
    match t
    case Struct(fields) => CostsOfLeaves(fields);
    case _ => OneLeaf(t);
  }

  lemma {:induction false} CostsOfLeaves(ts: seq<Ty>)
    ensures TransmitCosts(ts) == LeafBits(AllLeaves(ts))
    decreases ts, 0
  {
    if ts != [] {
      CostOfLeaves(ts[0]);
      CostsOfLeaves(ts[1..]);
      LeafBitsAdd(Leaves(ts[0]), AllLeaves(ts[1..]));
    }
  }

  /** A value is named by what defines it. */
  datatype Value = BlockArg(block: nat, arg: nat) | OpResult(block: nat, op: nat, result: nat)

  datatype Kind = Lookup | Update | GlobalImport | Return | SinkMarker | Other

  datatype Op = Op(kind: Kind, operands: seq<Value>, results: seq<Ty>)

  datatype Block = Block(args: seq<Ty>, ops: seq<Op>, preds: seq<nat>, exits: bool)

  datatype Handler = Handler(blocks: seq<Block>) {
    predicate HasOp(b: nat, i: nat) {
      b < |blocks| && i < |blocks[b].ops|
    }

    function At(b: nat, i: nat): Op
      requires HasOp(b, i)
    {
      blocks[b].ops[i]
    }

    predicate HasValue(v: Value) {
      match v
      case BlockArg(b, i) => b < |blocks| && i < |blocks[b].args|
      case OpResult(b, i, k) => HasOp(b, i) && k < |At(b, i).results|
    }

    function TypeOf(v: Value): Ty
      requires HasValue(v)
    {
      match v
      case BlockArg(b, i) => blocks[b].args[i]
      case OpResult(b, i, k) => At(b, i).results[k]
    }

    /** Some operation takes `v` as an operand. */
    predicate Used(v: Value) {
      exists b: nat | b < |blocks| :: exists i: nat | i < |blocks[b].ops| :: v in blocks[b].ops[i].operands
    }

    /** Some operation other than a sink marker takes `v` as an operand. */
    predicate Feeds(v: Value) {
      exists b: nat | b < |blocks| ::
        exists i: nat | i < |blocks[b].ops| :: blocks[b].ops[i].kind != SinkMarker && v in blocks[b].ops[i].operands
    }

    /** The operation has no result at all, or some result that is used. */
    predicate Live(b: nat, i: nat)
      requires HasOp(b, i)
    {
      At(b, i).results == [] || exists k: nat | k < |At(b, i).results| :: Used(OpResult(b, i, k))
    }

    function Last(b: nat): Op
      requires b < |blocks| && blocks[b].ops != []
    {
      blocks[b].ops[|blocks[b].ops| - 1]
    }

    /** What the IR guarantees: operands exist, predecessors end in a terminator, which has no
        results, and a table access names its table; a transmit cost fits a machine int. */
    ghost predicate Valid() {
      && 0 < |blocks|
      && (forall b, i :: HasOp(b, i) ==> forall v :: v in At(b, i).operands ==> HasValue(v))
      && (forall b, i :: HasOp(b, i) && (At(b, i).kind == Lookup || At(b, i).kind == Update) ==>
        At(b, i).operands != [])
      && (forall b, k :: 0 <= b < |blocks| && 0 <= k < |blocks[b].preds| ==>
            blocks[b].preds[k] < |blocks| && blocks[blocks[b].preds[k]].ops != [] &&
              Last(blocks[b].preds[k]).results == [])
      && (forall v :: HasValue(v) ==> TransmitCost(TypeOf(v)) < 0x8000_0000)
    }
  }

  // ----- The network under construction -----

  datatype Vertex =
    | GlobalSource | GlobalSink | BlockSource(b: nat) | BlockSink(b: nat)
    | OpVertex(b: nat, i: nat) | ValueVertex(v: Value)

  /** `adj` is the nested adjacency map with its two levels of keys joined; `keys` are its
      first-level keys, which become the vertices. */
  datatype Graph = Graph(adj: map<(Vertex, Vertex), nat>, keys: set<Vertex>,
                         falseEdges: seq<Edge<Vertex>>, constraints: seq<(Vertex, Vertex)>)
  {
    function WithKey(v: Vertex): Graph { this.(keys := keys + {v}) }

    function WithEdge(a: Vertex, b: Vertex, w: nat): Graph {
      this.(adj := adj[(a, b) := w], keys := keys + {a})
    }

    function WithFalse(a: Vertex, b: Vertex): Graph {
      this.(falseEdges := falseEdges + [Edge(a, b, INF_WT)])
    }

    function WithConstraint(a: Vertex, b: Vertex): Graph {
      this.(constraints := constraints + [(a, b)])
    }

    ghost predicate HasFalse(a: Vertex, b: Vertex) { Edge(a, b, INF_WT) in falseEdges }

    /** `g` holds everything this graph holds, at the same weights. */
    ghost predicate GrowsTo(g: Graph) {
      && keys <= g.keys
      && (forall p :: p in adj ==> p in g.adj && g.adj[p] == adj[p])
      && (forall e :: e in falseEdges ==> e in g.falseEdges)
      && (forall c :: c in constraints ==> c in g.constraints)
    }
  }

  /** The weight that construction gives to a pair, wherever it does so. */
  function Weight(h: Handler, a: Vertex, b: Vertex): nat {
    match (a, b)
    case (GlobalSource, OpVertex(_, _)) => 1
    case (GlobalSource, ValueVertex(v)) => if h.HasValue(v) then TransmitCost(h.TypeOf(v)) else INF_WT
    case (OpVertex(o, i), ValueVertex(v)) =>
      if v.OpResult? && v.block == o && v.op == i && h.HasValue(v) && h.At(o, i).kind != GlobalImport
      then TransmitCost(h.TypeOf(v)) else INF_WT
    case _ => INF_WT
  }

  /** Where an operand comes from, for the backward edge of its user in block `b`. */
  function Origin(v: Value, b: nat): Vertex {
    match v
    case OpResult(d, i, _) => OpVertex(d, i)
    case BlockArg(_, _) => BlockSource(b)
  }

  /** The tail of the forward edge into a user; a sink marker hangs off the operation itself. */
  function Feeder(h: Handler, v: Value, b: nat, op: Op): Vertex {
    if op.kind == SinkMarker then Origin(v, b) else ValueVertex(v)
  }

  /** The false edges that construction may add. */
  ghost predicate FalseShape(h: Handler, e: Edge<Vertex>) {
    && e.cap == INF_WT
    && match (e.src, e.dst)
       case (BlockSource(b), GlobalSource) => b < |h.blocks|
       case (GlobalSink, BlockSink(b)) => b < |h.blocks|
       case (BlockSource(b), BlockSink(p)) => b < |h.blocks| && p < |h.blocks|
       case (BlockSink(b), OpVertex(o, i)) => b < |h.blocks| && h.HasOp(o, i) && h.At(o, i).results == []
       case (OpVertex(o, i), BlockSource(b)) => b < |h.blocks| && h.HasOp(o, i) && h.At(o, i).operands != []
       case (OpVertex(o, i), OpVertex(d, j)) =>
         h.HasOp(o, i) && exists k :: OpResult(d, j, k) in h.At(o, i).operands
       case _ => false
  }

  /** The base edges that construction may add. */
  ghost predicate EdgeShape(h: Handler, a: Vertex, b: Vertex) {
    match (a, b)
    case (GlobalSource, OpVertex(o, i)) => h.HasOp(o, i) && h.At(o, i).operands == []
    case (GlobalSource, ValueVertex(v)) => v.BlockArg? && v.block == 0 && h.HasValue(v)
    case (OpVertex(o, i), GlobalSink) => h.HasOp(o, i) && h.At(o, i).kind == Return && h.At(o, i).results == []
    case (OpVertex(o, i), ValueVertex(OpResult(d, j, k))) =>
      o == d && i == j && h.HasValue(OpResult(d, j, k)) && h.Used(OpResult(d, j, k))
    case (OpVertex(o, i), ValueVertex(BlockArg(c, k))) =>
      h.HasValue(BlockArg(c, k)) && o in h.blocks[c].preds && h.HasOp(o, i) && i == |h.blocks[o].ops| - 1
    case (OpVertex(d, j), OpVertex(o, i)) =>
      h.HasOp(o, i) && h.At(o, i).kind == SinkMarker && exists k :: OpResult(d, j, k) in h.At(o, i).operands
    case (BlockSource(c), OpVertex(o, i)) =>
      c == o && h.HasOp(o, i) && h.At(o, i).kind == SinkMarker && TakesArgument(h, o, i)
    case (ValueVertex(v), OpVertex(o, i)) => h.HasOp(o, i) && h.At(o, i).kind != SinkMarker && v in h.At(o, i).operands
    case _ => false
  }

  /** The vertices that construction may add. */
  ghost predicate KeyShape(h: Handler, v: Vertex) {
    match v
    case GlobalSource => true
    case GlobalSink => true
    case BlockSource(b) => b < |h.blocks|
    case BlockSink(b) => b < |h.blocks|
    case OpVertex(b, i) => h.HasOp(b, i) && h.Live(b, i)
    case ValueVertex(x) => h.HasValue(x) && h.Feeds(x)
  }

  /** What construction keeps true throughout. */
  ghost predicate Wellbuilt(h: Handler, g: Graph) {
    && GlobalSource in g.keys && GlobalSink in g.keys
    && (forall v :: v in g.keys ==> KeyShape(h, v))
    && (forall p :: p in g.adj ==> p.0 in g.keys && g.adj[p] == Weight(h, p.0, p.1))
    && (forall p :: p in g.adj ==> EdgeShape(h, p.0, p.1))
    && (forall e :: e in g.falseEdges ==> FalseShape(h, e))
    && (forall c :: c in g.constraints ==> c.1 == GlobalSink || g.HasFalse(c.1, c.0))
    && (forall c :: c in g.constraints ==> ConstraintShape(h, c))
  }

  ghost predicate ConstraintShape(h: Handler, c: (Vertex, Vertex)) {
    match c
    case (OpVertex(o, i), GlobalSink) => h.HasOp(o, i) && h.At(o, i).results == []
    case (OpVertex(d, j), OpVertex(o, i)) => h.HasOp(o, i) && exists k :: OpResult(d, j, k) in h.At(o, i).operands
    case (BlockSource(b), OpVertex(o, i)) => b < |h.blocks| && h.HasOp(o, i) && h.At(o, i).operands != []
    case _ => false
  }

  ghost predicate ResultDone(h: Handler, g: Graph, b: nat, i: nat, k: nat) {
    h.Used(OpResult(b, i, k)) ==> (OpVertex(b, i), ValueVertex(OpResult(b, i, k))) in g.adj
  }

  ghost predicate OperandDone(h: Handler, g: Graph, b: nat, i: nat, v: Value)
    requires h.HasOp(b, i)
  {
    && (Feeder(h, v, b, h.At(b, i)), OpVertex(b, i)) in g.adj
    && g.HasFalse(OpVertex(b, i), Origin(v, b))
    && (Origin(v, b), OpVertex(b, i)) in g.constraints
  }

  /** Everything construction adds for one operation. */
  ghost predicate OpDone(h: Handler, g: Graph, b: nat, i: nat)
    requires h.HasOp(b, i)
  {
    var op, me := h.At(b, i), OpVertex(b, i);
    && (op.kind in {Lookup, Update} && op.operands != [] && op.operands[0].OpResult? ==>
          g.HasFalse(me, Origin(op.operands[0], b)))
    && (forall k: nat :: k < |op.results| ==> ResultDone(h, g, b, i, k))
    && (op.results == [] ==> g.HasFalse(BlockSink(b), me) && me in g.keys)
    && (op.results == [] && op.kind == Return ==> (me, GlobalSink) in g.adj && (me, GlobalSink) in g.constraints)
    && (forall v :: v in op.operands ==> OperandDone(h, g, b, i, v))
    && (op.operands == [] ==> (GlobalSource, me) in g.adj)
  }

  /** The terminator of block `p`. */
  function Terminator(h: Handler, p: nat): Vertex
    requires p < |h.blocks| && h.blocks[p].ops != []
  {
    OpVertex(p, |h.blocks[p].ops| - 1)
  }

  /** Predecessor `p` hands block `b` its first `n` arguments. */
  ghost predicate Hands(h: Handler, g: Graph, b: nat, p: nat, n: nat) {
    && p < |h.blocks| && h.blocks[p].ops != []
    && forall i: nat :: i < n ==> (Terminator(h, p), ValueVertex(BlockArg(b, i))) in g.adj
  }

  ghost predicate PredDone(h: Handler, g: Graph, b: nat, p: nat)
    requires b < |h.blocks|
  {
    Hands(h, g, b, p, |h.blocks[b].args|) && g.HasFalse(BlockSource(b), BlockSink(p))
  }

  ghost predicate BlockDone(h: Handler, g: Graph, b: nat)
    requires b < |h.blocks|
  {
    forall p :: p in h.blocks[b].preds ==> PredDone(h, g, b, p)
  }

  /** The entry and exit vertex of block `b`; a block nothing branches to hangs off the source
      and a block that leaves the handler off the sink. */
  ghost predicate EndsDone(h: Handler, g: Graph, b: nat)
    requires b < |h.blocks|
  {
    && BlockSource(b) in g.keys && BlockSink(b) in g.keys
    && (h.blocks[b].preds == [] ==> g.HasFalse(BlockSource(b), GlobalSource))
    && (h.blocks[b].exits ==> g.HasFalse(GlobalSink, BlockSink(b)))
  }

  /** The source feeds the first `n` arguments of the handler. */
  ghost predicate ArgsDone(g: Graph, n: nat) {
    forall i: nat :: i < n ==> (GlobalSource, ValueVertex(BlockArg(0, i))) in g.adj
  }

  /** Construction has covered the whole handler. */
  ghost predicate Covered(h: Handler, g: Graph) {
    && 0 < |h.blocks| && Wellbuilt(h, g) && ArgsDone(g, |h.blocks[0].args|)
    && (forall b: nat :: b < |h.blocks| ==> EndsDone(h, g, b) && BlockDone(h, g, b))
    && (forall b, i :: h.HasOp(b, i) ==> OpDone(h, g, b, i))
  }

  /** Moreover every edge ends in a vertex. */
  ghost predicate Complete(h: Handler, g: Graph) {
    Covered(h, g) && forall p :: p in g.adj ==> p.1 in g.keys
  }

  lemma DoneStaysDone(h: Handler, g: Graph, g': Graph, b: nat, i: nat)
    requires h.HasOp(b, i) && OpDone(h, g, b, i) && g.GrowsTo(g')
    ensures OpDone(h, g', b, i)
  {
    forall k: nat | k < |h.At(b, i).results| ensures ResultDone(h, g', b, i, k) {
      assert ResultDone(h, g, b, i, k);
    }
    forall v | v in h.At(b, i).operands ensures OperandDone(h, g', b, i, v) {
      assert OperandDone(h, g, b, i, v);
    }
  }

  // ----- Construction -----

  lemma GrowthIsTransitive(a: Graph, b: Graph, c: Graph)
    requires a.GrowsTo(b) && b.GrowsTo(c)
    ensures a.GrowsTo(c)
  {}

  method AddEdge(h: Handler, g0: Graph, a: Vertex, b: Vertex, w: nat) returns (g: Graph)
    requires Wellbuilt(h, g0) && EdgeShape(h, a, b) && KeyShape(h, a) && w == Weight(h, a, b)
    ensures Wellbuilt(h, g) && g0.GrowsTo(g) && (a, b) in g.adj
  {
    g := g0.WithEdge(a, b, w);
  }

  method AddFalse(h: Handler, g0: Graph, a: Vertex, b: Vertex) returns (g: Graph)
    requires Wellbuilt(h, g0) && FalseShape(h, Edge(a, b, INF_WT))
    ensures Wellbuilt(h, g) && g0.GrowsTo(g) && g.HasFalse(a, b)
  {
    g := g0.WithFalse(a, b);
  }

  method AddConstraint(h: Handler, g0: Graph, a: Vertex, b: Vertex) returns (g: Graph)
    requires Wellbuilt(h, g0) && ConstraintShape(h, (a, b)) && (b == GlobalSink || g0.HasFalse(b, a))
    ensures Wellbuilt(h, g) && g0.GrowsTo(g) && (a, b) in g.constraints
  {
    g := g0.WithConstraint(a, b);
  }

  method AddKey(h: Handler, g0: Graph, v: Vertex) returns (g: Graph)
    requires Wellbuilt(h, g0) && KeyShape(h, v)
    ensures Wellbuilt(h, g) && g0.GrowsTo(g) && v in g.keys
  {
    g := g0.WithKey(v);
  }

  method AddResult(h: Handler, g0: Graph, b: nat, i: nat, k: nat) returns (g: Graph)
    requires h.Valid() && h.HasOp(b, i) && k < |h.At(b, i).results| && Wellbuilt(h, g0)
    ensures Wellbuilt(h, g) && g0.GrowsTo(g) && ResultDone(h, g, b, i, k)
  {
    g := g0;
    var v := OpResult(b, i, k);
    if h.Used(v) {
      var weight := if h.At(b, i).kind == GlobalImport then INF_WT else TransmitCost(h.TypeOf(v));
      g := AddEdge(h, g0, OpVertex(b, i), ValueVertex(v), weight);
    }
  }

  method AddResults(h: Handler, g0: Graph, b: nat, i: nat) returns (g: Graph)
    requires h.Valid() && h.HasOp(b, i) && Wellbuilt(h, g0)
    ensures Wellbuilt(h, g) && g0.GrowsTo(g)
    ensures forall k: nat :: k < |h.At(b, i).results| ==> ResultDone(h, g, b, i, k)
  {
    g := g0;
    for k := 0 to |h.At(b, i).results|
      invariant Wellbuilt(h, g) && g0.GrowsTo(g)
      invariant forall j: nat :: j < k ==> ResultDone(h, g, b, i, j)
    {
      var g' := AddResult(h, g, b, i, k);
      GrowthIsTransitive(g0, g, g');
      ResultsStayDone(h, g, g', b, i, k);
      g := g';
    }
  }

  lemma ResultsStayDone(h: Handler, g: Graph, g': Graph, b: nat, i: nat, n: nat)
    requires g.GrowsTo(g') && forall j: nat :: j < n ==> ResultDone(h, g, b, i, j)
    ensures forall j: nat :: j < n ==> ResultDone(h, g', b, i, j)
  {
    forall j: nat | j < n ensures ResultDone(h, g', b, i, j) {
      assert ResultDone(h, g, b, i, j);
    }
  }

  method AddOperand(h: Handler, g0: Graph, b: nat, i: nat, v: Value) returns (g: Graph)
    requires h.Valid() && h.HasOp(b, i) && Wellbuilt(h, g0) && v in h.At(b, i).operands
    ensures Wellbuilt(h, g) && g0.GrowsTo(g) && OperandDone(h, g, b, i, v)
  {
    var op, me := h.At(b, i), OpVertex(b, i);
    if v.OpResult? {
      assert OpResult(v.block, v.op, v.result) in op.operands;
    } else {
      assert BlockArg(v.block, v.arg) in op.operands;
    }
    var g1 := AddEdge(h, g0, Feeder(h, v, b, op), me, INF_WT);
    var g2 := AddFalse(h, g1, me, Origin(v, b));
    g := AddConstraint(h, g2, Origin(v, b), me);
    GrowthIsTransitive(g0, g1, g2);
    GrowthIsTransitive(g0, g2, g);
  }

  ghost predicate OperandsDone(h: Handler, g: Graph, b: nat, i: nat, n: nat)
    requires h.HasOp(b, i) && n <= |h.At(b, i).operands|
  {
    forall k: nat :: k < n ==> OperandDone(h, g, b, i, h.At(b, i).operands[k])
  }

  lemma OneOperandMore(h: Handler, g: Graph, g': Graph, b: nat, i: nat, n: nat)
    requires h.HasOp(b, i) && n < |h.At(b, i).operands| && g.GrowsTo(g') && OperandsDone(h, g, b, i, n)
    requires OperandDone(h, g', b, i, h.At(b, i).operands[n])
    ensures OperandsDone(h, g', b, i, n + 1)
  {
    forall k: nat | k < n ensures OperandDone(h, g', b, i, h.At(b, i).operands[k]) {
      assert OperandDone(h, g, b, i, h.At(b, i).operands[k]);
    }
  }

  method AddOperands(h: Handler, g0: Graph, b: nat, i: nat) returns (g: Graph)
    requires h.Valid() && h.HasOp(b, i) && Wellbuilt(h, g0)
    ensures Wellbuilt(h, g) && g0.GrowsTo(g) && OperandsDone(h, g, b, i, |h.At(b, i).operands|)
  {
    g := g0;
    for j := 0 to |h.At(b, i).operands|
      invariant Wellbuilt(h, g) && g0.GrowsTo(g) && OperandsDone(h, g, b, i, j)
    {
      var g' := AddOperand(h, g, b, i, h.At(b, i).operands[j]);
      GrowthIsTransitive(g0, g, g');
      OneOperandMore(h, g, g', b, i, j);
      g := g';
    }
  }

  /** An access names a table that some operation of the handler imports or produces. */
  predicate TableIsLocal(h: Handler, b: nat, i: nat)
    requires h.HasOp(b, i)
  {
    h.At(b, i).kind == Lookup || h.At(b, i).kind == Update ==>
      h.At(b, i).operands != [] && h.At(b, i).operands[0].OpResult?
  }

  ghost predicate TablesLocal(h: Handler, b: nat, n: nat)
    requires b < |h.blocks| && n <= |h.blocks[b].ops|
  {
    forall i: nat :: i < n ==> TableIsLocal(h, b, i)
  }

  /** One operation. It fails where the original asserts: a table that is not a local result. */
  method AddOp(h: Handler, g0: Graph, b: nat, i: nat) returns (g: Graph, ok: bool)
    requires h.Valid() && h.HasOp(b, i) && Wellbuilt(h, g0)
    ensures Wellbuilt(h, g) && g0.GrowsTo(g)
    ensures ok ==> OpDone(h, g, b, i)
    ensures ok <==> TableIsLocal(h, b, i)
  {
    g, ok := g0, true;
    var op, me := h.At(b, i), OpVertex(b, i);
    if op.kind == Lookup || op.kind == Update {
      var table := op.operands[0];
      if table.BlockArg? {
        return g, false;
      }
      assert OpResult(table.block, table.op, table.result) in op.operands;
      g := AddFalse(h, g, me, Origin(table, b));
    }
    ghost var g1 := g;
    if op.results != [] {
      g := AddResults(h, g, b, i);
    } else {
      g := AddResultless(h, g, b, i);
    }
    GrowthIsTransitive(g0, g1, g);
    ghost var g2 := g;
    if op.operands != [] {
      g := AddOperands(h, g, b, i);
    } else {
      g := AddEdge(h, g, GlobalSource, me, 1);
    }
    GrowthIsTransitive(g0, g2, g);
    ResultsStayDone(h, g2, g, b, i, |op.results|);
  }

  method AddResultless(h: Handler, g0: Graph, b: nat, i: nat) returns (g: Graph)
    requires h.Valid() && h.HasOp(b, i) && h.At(b, i).results == [] && Wellbuilt(h, g0)
    ensures Wellbuilt(h, g) && g0.GrowsTo(g)
    ensures g.HasFalse(BlockSink(b), OpVertex(b, i)) && OpVertex(b, i) in g.keys
    ensures h.At(b, i).kind == Return ==>
      (OpVertex(b, i), GlobalSink) in g.adj && (OpVertex(b, i), GlobalSink) in g.constraints
  {
    var me := OpVertex(b, i);
    g := AddFalse(h, g0, BlockSink(b), me);
    if h.At(b, i).kind == Return {
      g := AddConstraint(h, g, me, GlobalSink);
      g := AddEdge(h, g, me, GlobalSink, INF_WT);
    } else {
      g := AddKey(h, g, me);
    }
  }

  lemma EndsStayDone(h: Handler, g: Graph, g': Graph, n: nat)
    requires n <= |h.blocks| && g.GrowsTo(g') && forall b: nat :: b < n ==> EndsDone(h, g, b)
    ensures forall b: nat :: b < n ==> EndsDone(h, g', b)
  {
    forall b: nat | b < n ensures EndsDone(h, g', b) {
      assert EndsDone(h, g, b);
    }
  }

  /** The entry vertex of block `b`. */
  method AddEntry(h: Handler, g0: Graph, b: nat) returns (g: Graph)
    requires b < |h.blocks| && Wellbuilt(h, g0)
    ensures Wellbuilt(h, g) && g0.GrowsTo(g) && BlockSource(b) in g.keys
    ensures h.blocks[b].preds == [] ==> g.HasFalse(BlockSource(b), GlobalSource)
  {
    g := AddKey(h, g0, BlockSource(b));
    if h.blocks[b].preds == [] {
      ghost var g1 := g;
      g := AddFalse(h, g, BlockSource(b), GlobalSource);
      GrowthIsTransitive(g0, g1, g);
    }
  }

  /** The exit vertex of block `b`. */
  method AddExit(h: Handler, g0: Graph, b: nat) returns (g: Graph)
    requires b < |h.blocks| && Wellbuilt(h, g0)
    ensures Wellbuilt(h, g) && g0.GrowsTo(g) && BlockSink(b) in g.keys
    ensures h.blocks[b].exits ==> g.HasFalse(GlobalSink, BlockSink(b))
  {
    g := AddKey(h, g0, BlockSink(b));
    if h.blocks[b].exits {
      ghost var g1 := g;
      g := AddFalse(h, g, GlobalSink, BlockSink(b));
      GrowthIsTransitive(g0, g1, g);
    }
  }

  method AddEnds(h: Handler, g0: Graph, b: nat) returns (g: Graph)
    requires h.Valid() && b < |h.blocks| && Wellbuilt(h, g0)
    ensures Wellbuilt(h, g) && g0.GrowsTo(g) && EndsDone(h, g, b)
  {
    g := AddEntry(h, g0, b);
    ghost var g1 := g;
    g := AddExit(h, g, b);
    GrowthIsTransitive(g0, g1, g);
  }

  /** The entry and exit vertices of every block, and the arguments of the handler. */
  method AddBlocks(h: Handler) returns (g: Graph)
    requires h.Valid()
    ensures Wellbuilt(h, g) && ArgsDone(g, |h.blocks[0].args|)
    ensures forall b: nat :: b < |h.blocks| ==> EndsDone(h, g, b)
  {
    g := Graph(map[], {GlobalSource, GlobalSink}, [], []);
    for b := 0 to |h.blocks|
      invariant Wellbuilt(h, g)
      invariant forall c: nat :: c < b ==> EndsDone(h, g, c)
    {
      var g' := AddEnds(h, g, b);
      EndsStayDone(h, g, g', b);
      g := g';
    }
    var g' := AddArguments(h, g);
    EndsStayDone(h, g, g', |h.blocks|);
    g := g';
  }

  method AddArgument(h: Handler, g0: Graph, i: nat) returns (g: Graph)
    requires h.Valid() && i < |h.blocks[0].args| && Wellbuilt(h, g0)
    ensures Wellbuilt(h, g) && g0.GrowsTo(g) && (GlobalSource, ValueVertex(BlockArg(0, i))) in g.adj
  {
    g := AddEdge(h, g0, GlobalSource, ValueVertex(BlockArg(0, i)), TransmitCost(h.blocks[0].args[i]));
  }

  method AddArguments(h: Handler, g0: Graph) returns (g: Graph)
    requires h.Valid() && Wellbuilt(h, g0)
    ensures Wellbuilt(h, g) && g0.GrowsTo(g) && ArgsDone(g, |h.blocks[0].args|)
  {
    g := g0;
    for i := 0 to |h.blocks[0].args|
      invariant Wellbuilt(h, g) && g0.GrowsTo(g) && ArgsDone(g, i)
    {
      var g' := AddArgument(h, g, i);
      GrowthIsTransitive(g0, g, g');
      g := g';
    }
  }

  lemma HandsOneMore(h: Handler, g: Graph, g': Graph, b: nat, p: nat, n: nat)
    requires Hands(h, g, b, p, n) && g.GrowsTo(g') && (Terminator(h, p), ValueVertex(BlockArg(b, n))) in g'.adj
    ensures Hands(h, g', b, p, n + 1)
  {}

  /** The edges from the terminator of predecessor `p` into block `b`. */
  method AddPredecessor(h: Handler, g0: Graph, b: nat, p: nat) returns (g: Graph)
    requires h.Valid() && b < |h.blocks| && p in h.blocks[b].preds && Wellbuilt(h, g0)
    ensures Wellbuilt(h, g) && g0.GrowsTo(g) && PredDone(h, g, b, p)
  {
    g := g0;
    assert exists k :: 0 <= k < |h.blocks[b].preds| && h.blocks[b].preds[k] == p;
    var term := Terminator(h, p);
    for i := 0 to |h.blocks[b].args|
      invariant Wellbuilt(h, g) && g0.GrowsTo(g) && Hands(h, g, b, p, i)
    {
      var g' := AddEdge(h, g, term, ValueVertex(BlockArg(b, i)), INF_WT);
      GrowthIsTransitive(g0, g, g');
      HandsOneMore(h, g, g', b, p, i);
      g := g';
    }
    ghost var g1 := g;
    g := AddFalse(h, g, BlockSource(b), BlockSink(p));
    GrowthIsTransitive(g0, g1, g);
  }

  /** The edges from the terminators of the predecessors into block `b`. */
  method AddPredecessors(h: Handler, g0: Graph, b: nat) returns (g: Graph)
    requires h.Valid() && b < |h.blocks| && Wellbuilt(h, g0)
    ensures Wellbuilt(h, g) && g0.GrowsTo(g) && BlockDone(h, g, b)
  {
    g := g0;
    var preds := h.blocks[b].preds;
    for k := 0 to |preds|
      invariant Wellbuilt(h, g) && g0.GrowsTo(g)
      invariant forall j :: 0 <= j < k ==> PredDone(h, g, b, preds[j])
    {
      var g' := AddPredecessor(h, g, b, preds[k]);
      GrowthIsTransitive(g0, g, g');
      forall j | 0 <= j < k ensures PredDone(h, g', b, preds[j]) {
        PredStaysDone(h, g, g', b, preds[j]);
      }
      g := g';
    }
  }

  lemma PredStaysDone(h: Handler, g: Graph, g': Graph, b: nat, p: nat)
    requires b < |h.blocks| && PredDone(h, g, b, p) && g.GrowsTo(g')
    ensures PredDone(h, g', b, p)
  {}

  lemma BlockStaysDone(h: Handler, g: Graph, g': Graph, b: nat)
    requires b < |h.blocks| && BlockDone(h, g, b) && g.GrowsTo(g')
    ensures BlockDone(h, g', b)
  {
    forall p | p in h.blocks[b].preds ensures PredDone(h, g', b, p) {
      PredStaysDone(h, g, g', b, p);
    }
  }

  ghost predicate OpsDone(h: Handler, g: Graph, b: nat, n: nat)
    requires b < |h.blocks| && n <= |h.blocks[b].ops|
  {
    forall i: nat :: i < n ==> OpDone(h, g, b, i)
  }

  lemma OpsStayDone(h: Handler, g: Graph, g': Graph, b: nat, n: nat)
    requires b < |h.blocks| && n <= |h.blocks[b].ops| && OpsDone(h, g, b, n) && g.GrowsTo(g')
    ensures OpsDone(h, g', b, n)
  {
    forall i: nat | i < n ensures OpDone(h, g', b, i) {
      DoneStaysDone(h, g, g', b, i);
    }
  }

  /** Block `b` is done up to its first `n` operations. */
  ghost predicate BodyDone(h: Handler, g0: Graph, g: Graph, b: nat, n: nat)
    requires b < |h.blocks| && n <= |h.blocks[b].ops|
  {
    Wellbuilt(h, g) && g0.GrowsTo(g) && BlockDone(h, g, b) && OpsDone(h, g, b, n) && TablesLocal(h, b, n)
  }

  lemma BodyStep(h: Handler, g0: Graph, g: Graph, g': Graph, b: nat, i: nat)
    requires b < |h.blocks| && i < |h.blocks[b].ops| && BodyDone(h, g0, g, b, i)
    requires Wellbuilt(h, g') && g.GrowsTo(g') && OpDone(h, g', b, i) && TableIsLocal(h, b, i)
    ensures BodyDone(h, g0, g', b, i + 1)
  {
    GrowthIsTransitive(g0, g, g');
    OpsStayDone(h, g, g', b, i);
    BlockStaysDone(h, g, g', b);
  }

  method AddBlockBody(h: Handler, g0: Graph, b: nat) returns (g: Graph, ok: bool)
    requires h.Valid() && b < |h.blocks| && Wellbuilt(h, g0)
    ensures ok ==> BodyDone(h, g0, g, b, |h.blocks[b].ops|)
    ensures ok <==> TablesLocal(h, b, |h.blocks[b].ops|)
  {
    g := AddPredecessors(h, g0, b);
    for i := 0 to |h.blocks[b].ops|
      invariant BodyDone(h, g0, g, b, i)
    {
      var g', fine := AddOp(h, g, b, i);
      if !fine {
        return g', false;
      }
      BodyStep(h, g0, g, g', b, i);
      g := g';
    }
    ok := true;
  }

  /** The value leaves the operation or block that defines it. */
  predicate Travels(h: Handler, v: Value)
    requires h.HasValue(v)
  {
    match v
    case BlockArg(b, _) => b == 0 || h.blocks[b].preds != []
    case OpResult(_, _, _) => h.Used(v)
  }

  /** The handlers that construction accepts: every table access names a local table, every
      operation is live, and every value that travels reaches a user that is no sink marker. */
  ghost predicate Buildable(h: Handler) {
    && (forall b: nat :: b < |h.blocks| ==> TablesLocal(h, b, |h.blocks[b].ops|))
    && NoDeadCode(h)
  }

  ghost predicate NoDeadCode(h: Handler) {
    && (forall b, i :: h.HasOp(b, i) ==> h.Live(b, i))
    && (forall v :: h.HasValue(v) && Travels(h, v) ==> h.Feeds(v))
  }

  lemma TravellerIsHead(h: Handler, g: Graph, v: Value) returns (p: (Vertex, Vertex))
    requires h.Valid() && Covered(h, g) && h.HasValue(v) && Travels(h, v)
    ensures p in g.adj && p.1 == ValueVertex(v)
  {
    match v
    case OpResult(b, i, k) =>
      assert OpDone(h, g, b, i) && ResultDone(h, g, b, i, k);
      p := (OpVertex(b, i), ValueVertex(v));
    case BlockArg(b, k) =>
      if b == 0 {
        p := (GlobalSource, ValueVertex(v));
      } else {
        var q := h.blocks[b].preds[0];
        assert BlockDone(h, g, b) && PredDone(h, g, b, q);
        p := (Terminator(h, q), ValueVertex(v));
      }
  }

  lemma OpIsHead(h: Handler, g: Graph, b: nat, i: nat) returns (p: (Vertex, Vertex))
    requires Covered(h, g) && h.HasOp(b, i)
    ensures p in g.adj && p.1 == OpVertex(b, i)
  {
    assert OpDone(h, g, b, i);
    var op := h.At(b, i);
    if op.operands == [] {
      p := (GlobalSource, OpVertex(b, i));
    } else {
      assert OperandDone(h, g, b, i, op.operands[0]);
      p := (Feeder(h, op.operands[0], b, op), OpVertex(b, i));
    }
  }

  lemma LiveIsVertex(h: Handler, g: Graph, b: nat, i: nat)
    requires Covered(h, g) && h.HasOp(b, i) && h.Live(b, i)
    ensures OpVertex(b, i) in g.keys
  {
    assert OpDone(h, g, b, i);
    if h.At(b, i).results != [] {
      var k: nat :| k < |h.At(b, i).results| && h.Used(OpResult(b, i, k));
      assert ResultDone(h, g, b, i, k);
    }
  }

  lemma FeedingIsVertex(h: Handler, g: Graph, v: Value)
    requires Covered(h, g) && h.Feeds(v)
    ensures ValueVertex(v) in g.keys
  {
    var b: nat :| b < |h.blocks| && exists i: nat | i < |h.blocks[b].ops| ::
      h.blocks[b].ops[i].kind != SinkMarker && v in h.blocks[b].ops[i].operands;
    var i: nat :| i < |h.blocks[b].ops| && h.blocks[b].ops[i].kind != SinkMarker && v in h.blocks[b].ops[i].operands;
    assert OpDone(h, g, b, i) && OperandDone(h, g, b, i, v);
    assert (ValueVertex(v), OpVertex(b, i)) in g.adj;
  }

  /** Every edge ends in a vertex exactly when the handler has no dead code. */
  lemma ClosedIffNoDeadCode(h: Handler, g: Graph)
    requires h.Valid() && Covered(h, g)
    ensures (forall p :: p in g.adj ==> p.1 in g.keys) <==> NoDeadCode(h)
  {
    if NoDeadCode(h) {
      forall p | p in g.adj ensures p.1 in g.keys {
        HeadIsVertex(h, g, p);
      }
    }
    if forall p :: p in g.adj ==> p.1 in g.keys {
      forall b, i | h.HasOp(b, i) ensures h.Live(b, i) {
        var p := OpIsHead(h, g, b, i);
        assert KeyShape(h, p.1);
      }
      forall v | h.HasValue(v) && Travels(h, v) ensures h.Feeds(v) {
        var p := TravellerIsHead(h, g, v);
        assert KeyShape(h, p.1);
      }
    }
  }

  lemma HeadIsVertex(h: Handler, g: Graph, p: (Vertex, Vertex))
    requires h.Valid() && Covered(h, g) && NoDeadCode(h) && p in g.adj
    ensures p.1 in g.keys
  {
    assert EdgeShape(h, p.0, p.1);
    match p.1
    case OpVertex(b, i) => LiveIsVertex(h, g, b, i);
    case ValueVertex(v) => FeedingIsVertex(h, g, v);
    case _ =>
  }

  /** The whole network. It fails where the original asserts: a table that is not a local
      result, or an edge into something that never became a vertex, as dead code leaves. */
  method BuildGraph(h: Handler) returns (g: Graph, ok: bool)
    requires h.Valid()
    ensures ok ==> Complete(h, g)
    ensures ok <==> Buildable(h)
  {
    g := AddBlocks(h);
    ok := true;
    for b := 0 to |h.blocks|
      invariant Wellbuilt(h, g) && ArgsDone(g, |h.blocks[0].args|)
      invariant forall c: nat :: c < |h.blocks| ==> EndsDone(h, g, c)
      invariant forall c: nat :: c < b ==> BlockDone(h, g, c) && OpsDone(h, g, c, |h.blocks[c].ops|)
      invariant forall c: nat :: c < b ==> TablesLocal(h, c, |h.blocks[c].ops|)
    {
      var g';
      g', ok := AddBlockBody(h, g, b);
      if !ok {
        return;
      }
      EndsStayDone(h, g, g', |h.blocks|);
      forall c: nat | c < b ensures BlockDone(h, g', c) && OpsDone(h, g', c, |h.blocks[c].ops|) {
        BlockStaysDone(h, g, g', c);
        OpsStayDone(h, g, g', c, |h.blocks[c].ops|);
      }
      g := g';
    }
    ok := forall p :: p in g.adj ==> p.1 in g.keys;
    forall b: nat, i: nat | h.HasOp(b, i) ensures OpDone(h, g, b, i) {
      assert OpsDone(h, g, b, |h.blocks[b].ops|);
    }
    ClosedIffNoDeadCode(h, g);
  }

  /** The finished graph has an edge exactly where the handler asks for one. */
  lemma EdgesAreExact(h: Handler, g: Graph, a: Vertex, b: Vertex)
    requires h.Valid() && Covered(h, g)
    ensures (a, b) in g.adj <==> EdgeShape(h, a, b)
  {
    if EdgeShape(h, a, b) {
      match b
      case OpVertex(o, i) => EdgeToOp(h, g, a, o, i);
      case ValueVertex(v) => EdgeToValue(h, g, a, v);
      case GlobalSink =>
        assert OpDone(h, g, a.b, a.i);
      case _ =>
    }
  }

  lemma EdgeToOp(h: Handler, g: Graph, a: Vertex, o: nat, i: nat)
    requires Covered(h, g) && EdgeShape(h, a, OpVertex(o, i))
    ensures (a, OpVertex(o, i)) in g.adj
  {
    assert OpDone(h, g, o, i);
    match a
    case OpVertex(d, j) =>
      var k :| OpResult(d, j, k) in h.At(o, i).operands;
      assert OperandDone(h, g, o, i, OpResult(d, j, k));
    case BlockSource(_) =>
      var c, k :| BlockArg(c, k) in h.At(o, i).operands;
      assert OperandDone(h, g, o, i, BlockArg(c, k));
    case ValueVertex(v) =>
      assert OperandDone(h, g, o, i, v);
    case _ =>
  }

  lemma EdgeToValue(h: Handler, g: Graph, a: Vertex, v: Value)
    requires Covered(h, g) && EdgeShape(h, a, ValueVertex(v))
    ensures (a, ValueVertex(v)) in g.adj
  {
    match v
    case OpResult(d, j, k) => EdgeToResult(h, g, a, d, j, k);
    case BlockArg(c, k) => EdgeToArgument(h, g, a, c, k);
  }

  lemma EdgeToResult(h: Handler, g: Graph, a: Vertex, d: nat, j: nat, k: nat)
    requires Covered(h, g) && EdgeShape(h, a, ValueVertex(OpResult(d, j, k)))
    ensures (a, ValueVertex(OpResult(d, j, k))) in g.adj
  {
    assert a == OpVertex(d, j);
    assert OpDone(h, g, d, j) && ResultDone(h, g, d, j, k);
  }

  lemma EdgeToArgument(h: Handler, g: Graph, a: Vertex, c: nat, k: nat)
    requires Covered(h, g) && EdgeShape(h, a, ValueVertex(BlockArg(c, k)))
    ensures (a, ValueVertex(BlockArg(c, k))) in g.adj
  {
    if a.OpVertex? {
      assert BlockDone(h, g, c) && PredDone(h, g, c, a.b);
    }
  }

  // ----- What a finite cut means -----

  /** The vertex set `s` is a cut that no infinite edge leaves. */
  ghost predicate FiniteCut(g: Graph, s: set<Vertex>) {
    && GlobalSource in s && GlobalSink !in s
    && (forall e :: e in g.falseEdges && e.src in s ==> e.dst in s)
    && (forall p :: p in g.adj && g.adj[p] == INF_WT && p.0 in s ==> p.1 in s)
  }

  /** Operation `d, j` defines an operand of operation `b, i`. */
  ghost predicate Defines(h: Handler, b: nat, i: nat, d: nat, j: nat)
    requires h.HasOp(b, i)
  {
    exists k :: OpResult(d, j, k) in h.At(b, i).operands
  }

  ghost predicate TakesArgument(h: Handler, b: nat, i: nat)
    requires h.HasOp(b, i)
  {
    exists c, k :: BlockArg(c, k) in h.At(b, i).operands
  }

  /** Operation `d, j` must run no later than operation `b, i`: it defines an operand, or it is
      a side effect or branch of a block whose branch hands `b` its arguments. */
  ghost predicate Needs(h: Handler, b: nat, i: nat, d: nat, j: nat) {
    && h.HasOp(b, i) && h.HasOp(d, j)
    && (Defines(h, b, i, d, j) || (TakesArgument(h, b, i) && d in h.blocks[b].preds && h.At(d, j).results == []))
  }

  lemma NeededIsInSourceStage(h: Handler, g: Graph, s: set<Vertex>, b: nat, i: nat, d: nat, j: nat)
    requires Complete(h, g) && FiniteCut(g, s) && Needs(h, b, i, d, j) && OpVertex(b, i) in s
    ensures OpVertex(d, j) in s
  {
    assert OpDone(h, g, b, i);
    if Defines(h, b, i, d, j) {
      var k :| OpResult(d, j, k) in h.At(b, i).operands;
      assert OperandDone(h, g, b, i, OpResult(d, j, k));
    } else {
      var c, k :| BlockArg(c, k) in h.At(b, i).operands;
      assert OperandDone(h, g, b, i, BlockArg(c, k));
      assert BlockDone(h, g, b) && PredDone(h, g, b, d);
      assert OpDone(h, g, d, j);
    }
  }

  ghost predicate IsChain(h: Handler, chain: seq<(nat, nat)>) {
    forall k :: 0 <= k < |chain| - 1 ==> Needs(h, chain[k].0, chain[k].1, chain[k+1].0, chain[k+1].1)
  }

  /** Everything an operation of the source stage depends on, through any chain of data and
      control dependencies, is in the source stage: the stages never need each other. */
  lemma {:induction false} StagesAreOrdered(h: Handler, g: Graph, s: set<Vertex>, chain: seq<(nat, nat)>)
    requires Complete(h, g) && FiniteCut(g, s) && chain != [] && IsChain(h, chain)
    requires OpVertex(chain[0].0, chain[0].1) in s
    ensures forall k :: 0 <= k < |chain| ==> OpVertex(chain[k].0, chain[k].1) in s
    decreases |chain|
  {
    if |chain| > 1 {
      assert Needs(h, chain[0].0, chain[0].1, chain[1].0, chain[1].1);
      NeededIsInSourceStage(h, g, s, chain[0].0, chain[0].1, chain[1].0, chain[1].1);
      var rest := chain[1..];
      assert forall k :: 0 <= k < |rest| ==> rest[k] == chain[k+1];
      StagesAreOrdered(h, g, s, rest);
      forall k | 0 <= k < |chain| ensures OpVertex(chain[k].0, chain[k].1) in s {
        if k > 0 { assert chain[k] == rest[k-1]; }
      }
    }
  }

  /** A table import and every access to the table end up in the same stage. */
  lemma TablesAreNotSplit(h: Handler, g: Graph, s: set<Vertex>, b: nat, i: nat, d: nat, j: nat, k: nat)
    requires h.Valid() && Complete(h, g) && FiniteCut(g, s)
    requires h.HasOp(b, i) && h.At(b, i).kind in {Lookup, Update} && h.At(b, i).operands[0] == OpResult(d, j, k)
    requires h.At(d, j).kind == GlobalImport
    ensures OpVertex(b, i) in s <==> OpVertex(d, j) in s
  {
    var table := OpResult(d, j, k);
    assert table in h.blocks[b].ops[i].operands && h.Used(table);
    assert OpDone(h, g, b, i) && OperandDone(h, g, b, i, table);
    assert h.HasValue(table);
    assert OpDone(h, g, d, j) && ResultDone(h, g, d, j, k);
    assert g.adj[(OpVertex(d, j), ValueVertex(table))] == INF_WT;
    assert g.adj[(ValueVertex(table), OpVertex(b, i))] == INF_WT;
  }

  /** What the handler emits leaves in the last stage. */
  lemma ReturnsAreInSinkStage(h: Handler, g: Graph, s: set<Vertex>, b: nat, i: nat)
    requires Complete(h, g) && FiniteCut(g, s)
    requires h.HasOp(b, i) && h.At(b, i).kind == Return && h.At(b, i).results == []
    ensures OpVertex(b, i) !in s
  {
    assert OpDone(h, g, b, i);
    assert g.adj[(OpVertex(b, i), GlobalSink)] == INF_WT;
  }

  /** The edges that a finite cut may cross, with their price: a result or a handler argument
      that travels to the sink stage pays its transmit cost, an operand-less operation that
      moves there pays one. Nothing else is ever cut. */
  ghost predicate PaidCrossing(h: Handler, a: Vertex, b: Vertex, price: nat) {
    match (a, b)
    case (OpVertex(o, i), ValueVertex(OpResult(d, j, k))) =>
      o == d && i == j && h.HasValue(OpResult(d, j, k)) && h.At(o, i).kind != GlobalImport
      && price == TransmitCost(h.TypeOf(OpResult(d, j, k)))
    case (GlobalSource, ValueVertex(v)) => v.BlockArg? && v.block == 0 && h.HasValue(v) &&
      price == TransmitCost(h.TypeOf(v))
    case (GlobalSource, OpVertex(o, i)) => h.HasOp(o, i) && h.At(o, i).operands == [] && price == 1
    case _ => false
  }

  lemma CrossingsArePaid(h: Handler, g: Graph, s: set<Vertex>, p: (Vertex, Vertex))
    requires Complete(h, g) && FiniteCut(g, s) && p in g.adj && p.0 in s && p.1 !in s
    ensures PaidCrossing(h, p.0, p.1, g.adj[p])
  {
    assert g.adj[p] == Weight(h, p.0, p.1) != INF_WT && EdgeShape(h, p.0, p.1);
  }

  /** What the pair `p` adds to the price of the cut `s`. */
  function Toll(adj: map<(Vertex, Vertex), nat>, s: set<Vertex>, p: (Vertex, Vertex)): nat
    requires p in adj
  {
    if p.0 in s && p.1 !in s then adj[p] else 0
  }

  /** The tolls of the pairs `ps` together. */
  ghost function Tolls(adj: map<(Vertex, Vertex), nat>, s: set<Vertex>, ps: set<(Vertex, Vertex)>): nat
    requires ps <= adj.Keys
  {
    if ps == {} then 0 else
      var p :| p in ps;
      Toll(adj, s, p) + Tolls(adj, s, ps - {p})
  }

  /** The price of a cut in the handler's own terms: the weights of the pairs it separates. */
  ghost function Price(g: Graph, s: set<Vertex>): nat {
    Tolls(g.adj, s, g.adj.Keys)
  }

  lemma {:induction false} TakeToll(adj: map<(Vertex, Vertex), nat>, s: set<Vertex>, ps: set<(Vertex, Vertex)>,
      q: (Vertex, Vertex))
    requires ps <= adj.Keys && q in ps
    ensures Tolls(adj, s, ps) == Toll(adj, s, q) + Tolls(adj, s, ps - {q})
    decreases |ps|
  {
    var p :| p in ps && Tolls(adj, s, ps) == Toll(adj, s, p) + Tolls(adj, s, ps - {p});
    if p != q {
      TakeToll(adj, s, ps - {p}, q);
      TakeToll(adj, s, ps - {q}, p);
      assert ps - {p} - {q} == ps - {q} - {p};
    }
  }

  ghost function Pairs(base: seq<Edge<Vertex>>, n: nat): set<(Vertex, Vertex)>
    requires n <= |base|
  {
    set k | 0 <= k < n :: (base[k].src, base[k].dst)
  }

  lemma {:induction false} ListedTolls(adj: map<(Vertex, Vertex), nat>, base: seq<Edge<Vertex>>, s: set<Vertex>, n: nat)
    requires Lists(base, adj) && n <= |base|
    ensures Pairs(base, n) <= adj.Keys
    ensures CutCapUpTo(base, s, n) == Tolls(adj, s, Pairs(base, n))
  {
    if n == 0 {
      assert Pairs(base, 0) == {};
    } else {
      ListedTolls(adj, base, s, n - 1);
      var p := (base[n-1].src, base[n-1].dst);
      assert p !in Pairs(base, n - 1);
      assert Pairs(base, n) == Pairs(base, n - 1) + {p};
      assert Pairs(base, n) - {p} == Pairs(base, n - 1);
      TakeToll(adj, s, Pairs(base, n), p);
    }
  }

  lemma {:induction false} AppendedCut(fe: seq<Edge<Vertex>>, base: seq<Edge<Vertex>>, s: set<Vertex>, n: nat)
    requires n <= |base|
    ensures CutCapUpTo(fe + base, s, |fe| + n) == CutCapUpTo(fe, s, |fe|) + CutCapUpTo(base, s, n)
  {
    if n == 0 {
      PrefixCut(fe, base, s, |fe|);
    } else {
      AppendedCut(fe, base, s, n - 1);
    }
  }

  lemma {:induction false} PrefixCut(fe: seq<Edge<Vertex>>, base: seq<Edge<Vertex>>, s: set<Vertex>, n: nat)
    requires n <= |fe|
    ensures CutCapUpTo(fe + base, s, n) == CutCapUpTo(fe, s, n)
  {
    if n > 0 { PrefixCut(fe, base, s, n - 1); }
  }

  lemma {:induction false} FalseEdgesAreFree(fe: seq<Edge<Vertex>>, s: set<Vertex>, n: nat)
    requires n <= |fe| && forall e :: e in fe && e.src in s ==> e.dst in s
    ensures CutCapUpTo(fe, s, n) == 0
  {
    if n > 0 {
      FalseEdgesAreFree(fe, s, n - 1);
      assert fe[n-1] in fe;
    }
  }

  lemma ListedCut(adj: map<(Vertex, Vertex), nat>, base: seq<Edge<Vertex>>, s: set<Vertex>)
    requires Lists(base, adj)
    ensures CutCap(base, s) == Tolls(adj, s, adj.Keys)
  {
    ListedTolls(adj, base, s, |base|);
    forall p | p in adj.Keys ensures p in Pairs(base, |base|) {
      var k :| 0 <= k < |base| && base[k] == Edge(p.0, p.1, adj[p]);
      assert (base[k].src, base[k].dst) == p;
    }
    assert Pairs(base, |base|) == adj.Keys;
  }

  /** The capacity of a finite cut is the price of what the handler sends across: the weights
      of the separated pairs, each counted once, and nothing for the false edges. */
  lemma CutIsPriced(g: Graph, base: seq<Edge<Vertex>>, s: set<Vertex>)
    requires FiniteCut(g, s) && Lists(base, g.adj)
    ensures CutCap(g.falseEdges + base, s) == Price(g, s)
  {
    AppendedCut(g.falseEdges, base, s, |base|);
    FalseEdgesAreFree(g.falseEdges, s, |g.falseEdges|);
    ListedCut(g.adj, base, s);
  }

  /** Every endpoint of a false edge or of a constraint became a vertex. */
  lemma EndpointsAreVertices(h: Handler, g: Graph)
    requires h.Valid() && Complete(h, g)
    ensures EdgesWithin(g.falseEdges, g.keys)
    ensures forall c :: c in g.constraints ==> c.0 in g.keys && c.1 in g.keys
  {
    forall b: nat, i: nat | h.HasOp(b, i) && h.At(b, i).operands != [] ensures OpVertex(b, i) in g.keys {
      UserIsVertex(h, g, b, i);
    }
    forall b: nat, i: nat | h.HasOp(b, i) && h.At(b, i).results == [] ensures OpVertex(b, i) in g.keys {
      assert OpDone(h, g, b, i);
    }
    forall b: nat, i: nat, d, j, k | h.HasOp(b, i) && OpResult(d, j, k) in h.At(b, i).operands
      ensures OpVertex(d, j) in g.keys
    {
      DefinitionIsVertex(h, g, b, i, d, j, k);
    }
    forall b: nat | b < |h.blocks| ensures BlockSource(b) in g.keys && BlockSink(b) in g.keys {
      assert EndsDone(h, g, b);
    }
    forall n | 0 <= n < |g.falseEdges| ensures g.falseEdges[n].src in g.keys && g.falseEdges[n].dst in g.keys {
      assert FalseShape(h, g.falseEdges[n]);
    }
    forall c | c in g.constraints ensures c.0 in g.keys && c.1 in g.keys {
      assert ConstraintShape(h, c);
    }
  }

  lemma UserIsVertex(h: Handler, g: Graph, b: nat, i: nat)
    requires Complete(h, g) && h.HasOp(b, i) && h.At(b, i).operands != []
    ensures OpVertex(b, i) in g.keys
  {
    var v := h.At(b, i).operands[0];
    assert OpDone(h, g, b, i) && OperandDone(h, g, b, i, v);
    assert (Feeder(h, v, b, h.At(b, i)), OpVertex(b, i)) in g.adj;
  }

  lemma DefinitionIsVertex(h: Handler, g: Graph, b: nat, i: nat, d: nat, j: nat, k: nat)
    requires h.Valid() && Complete(h, g) && h.HasOp(b, i) && OpResult(d, j, k) in h.At(b, i).operands
    ensures OpVertex(d, j) in g.keys
  {
    var v := OpResult(d, j, k);
    assert v in h.blocks[b].ops[i].operands && h.Used(v) && h.HasValue(v);
    assert OpDone(h, g, d, j) && ResultDone(h, g, d, j, k);
    assert (OpVertex(d, j), ValueVertex(v)) in g.adj;
  }

  // ----- Handlers in order -----

  ghost predicate DefinedBefore(v: Value, b: nat, i: nat) {
    match v
    case OpResult(d, j, _) => d < b || (d == b && j < i)
    case BlockArg(c, _) => c <= b
  }

  /** Definitions and predecessors come earlier. */
  ghost predicate Ordered(h: Handler) {
    && (forall b, i :: h.HasOp(b, i) ==> forall v :: v in h.At(b, i).operands ==> DefinedBefore(v, b, i))
    && (forall b: nat :: b < |h.blocks| ==> forall p :: p in h.blocks[b].preds ==> p < b)
  }

  function Start(h: Handler, b: nat): nat {
    if b == 0 || b > |h.blocks| then 0 else Start(h, b - 1) + 2 * |h.blocks[b-1].ops| + 1
  }

  /** The place of a vertex in program order. */
  function Place(h: Handler, v: Vertex): int {
    match v
    case GlobalSource => -1
    case GlobalSink => Start(h, |h.blocks|)
    case BlockSource(b) => Start(h, b)
    case BlockSink(b) => Start(h, b)
    case OpVertex(b, i) => Start(h, b) + 2 * i + 1
    case ValueVertex(OpResult(b, i, _)) => Start(h, b) + 2 * i + 2
    case ValueVertex(BlockArg(b, _)) => Start(h, b)
  }

  lemma {:induction false} StartGrows(h: Handler, b: nat, c: nat)
    requires b < c <= |h.blocks|
    ensures Start(h, b) + 2 * |h.blocks[b].ops| + 1 <= Start(h, c)
  {
    if b + 1 < c { StartGrows(h, b, c - 1); }
  }

  lemma OperandIsEarlier(h: Handler, v: Value, b: nat, i: nat)
    requires h.Valid() && Ordered(h) && h.HasOp(b, i) && v in h.At(b, i).operands
    ensures Place(h, ValueVertex(v)) < Place(h, OpVertex(b, i))
    ensures v.OpResult? ==> Place(h, OpVertex(v.block, v.op)) < Place(h, OpVertex(b, i))
  {
    assert DefinedBefore(v, b, i) && h.HasValue(v);
    if v.block < b { StartGrows(h, v.block, b); }
  }

  lemma EdgeGoesForward(h: Handler, a: Vertex, b: Vertex)
    requires h.Valid() && Ordered(h) && EdgeShape(h, a, b)
    ensures Place(h, a) < Place(h, b)
  {
    match (a, b)
    case (OpVertex(o, i), GlobalSink) => StartGrows(h, o, |h.blocks|);
    case (OpVertex(o, i), ValueVertex(BlockArg(c, k))) => StartGrows(h, o, c);
    case (OpVertex(d, j), OpVertex(o, i)) =>
      var k :| OpResult(d, j, k) in h.At(o, i).operands;
      OperandIsEarlier(h, OpResult(d, j, k), o, i);
    case (ValueVertex(v), OpVertex(o, i)) => OperandIsEarlier(h, v, o, i);
    case _ =>
  }

  /** Some order of the vertices follows every edge that the handler asks for. */
  ghost predicate Acyclic(h: Handler) { exists rank: Vertex -> int :: Follows(h, rank) }

  ghost predicate Follows(h: Handler, rank: Vertex -> int) { forall a, b :: EdgeShape(h, a, b) ==> rank(a) < rank(b) }

  lemma OrderedIsAcyclic(h: Handler)
    requires h.Valid() && Ordered(h)
    ensures Acyclic(h)
  {
    var rank := (v: Vertex) => Place(h, v);
    forall a, b | EdgeShape(h, a, b) ensures rank(a) < rank(b) {
      EdgeGoesForward(h, a, b);
    }
    assert Follows(h, rank);
  }

  lemma AcyclicIffRankable(h: Handler, g: Graph, base: seq<Edge<Vertex>>)
    requires h.Valid() && Complete(h, g) && Lists(base, g.adj)
    ensures Acyclic(h) <==> Rankable(base)
  {
    if Acyclic(h) {
      var rank :| Follows(h, rank);
      forall k | 0 <= k < |base| ensures rank(base[k].src) < rank(base[k].dst) {
        EdgesAreExact(h, g, base[k].src, base[k].dst);
      }
      assert Increasing(base, rank);
    }
    if Rankable(base) {
      var rank: Vertex -> int :| Increasing(base, rank);
      forall a, b | EdgeShape(h, a, b) ensures rank(a) < rank(b) {
        EdgesAreExact(h, g, a, b);
        var k :| 0 <= k < |base| && base[k] == Edge(a, b, g.adj[(a, b)]);
      }
      assert Follows(h, rank);
    }
  }

  lemma {:induction false} SomeBounds(s: set<Vertex>, rank: Vertex -> int) returns (low: int, high: int)
    ensures forall v :: v in s ==> low < rank(v) < high
  {
    low, high := 0, 0;
    if s != {} {
      var x :| x in s;
      low, high := SomeBounds(s - {x}, rank);
      low := if low < rank(x) then low else rank(x) - 1;
      high := if rank(x) < high then high else rank(x) + 1;
    }
  }

  /** Nothing enters the source and nothing leaves the sink, so an acyclic network is layered. */
  lemma AcyclicIsLayered(h: Handler, g: Graph, base: seq<Edge<Vertex>>)
    requires h.Valid() && Complete(h, g) && Lists(base, g.adj) && Acyclic(h)
    ensures exists rank: Vertex -> int :: Layered(base, g.keys, GlobalSource, GlobalSink, rank)
  {
    var inner :| Follows(h, inner);
    var low, high := SomeBounds(g.keys, inner);
    var rank := (v: Vertex) => if v == GlobalSource then low else if v == GlobalSink then high else inner(v);
    forall k | 0 <= k < |base| ensures rank(base[k].src) < rank(base[k].dst) {
      var p := (base[k].src, base[k].dst);
      EdgesAreExact(h, g, p.0, p.1);
      assert p in g.adj && p.0 in g.keys && p.1 in g.keys && inner(p.0) < inner(p.1);
      assert p.0 != GlobalSink && p.1 != GlobalSource;
    }
    assert low < inner(GlobalSource) < high;
    assert Layered(base, g.keys, GlobalSource, GlobalSink, rank);
  }

  // ----- Running the cut -----

  ghost predicate Lists(base: seq<Edge<Vertex>>, adj: map<(Vertex, Vertex), nat>) {
    && DistinctPairs(base)
    && (forall k :: 0 <= k < |base| ==>
      (base[k].src, base[k].dst) in adj && base[k].cap == adj[(base[k].src, base[k].dst)])
    && (forall p :: p in adj ==> Edge(p.0, p.1, adj[p]) in base)
  }

  /** The edges of the adjacency map in whatever order a shuffle leaves them. */
  method ListEdges(adj: map<(Vertex, Vertex), nat>) returns (base: seq<Edge<Vertex>>)
    ensures Lists(base, adj)
  {
    base := [];
    var left := adj.Keys;
    while left != {}
      invariant left <= adj.Keys && DistinctPairs(base)
      invariant forall k :: 0 <= k < |base| ==>
        (base[k].src, base[k].dst) in adj && base[k].cap == adj[(base[k].src, base[k].dst)]
      invariant forall k :: 0 <= k < |base| ==> (base[k].src, base[k].dst) !in left
      invariant forall p :: p in adj && p !in left ==> Edge(p.0, p.1, adj[p]) in base
      decreases |left|
    {
      var p :| p in left;
      base := base + [Edge(p.0, p.1, adj[p])];
      left := left - {p};
    }
  }

  /** `NetronomeKCutPolicy`: block vertices and values weigh 1, a table import 100, every other
      operation 1. */
  function VertexWeight(h: Handler, v: Vertex): int {
    match v
    case OpVertex(b, i) => if h.HasOp(b, i) && h.At(b, i).kind == GlobalImport then 100 else 1
    case _ => 1
  }

  // ----- What a stage weighs -----

  ghost function SumOf(w: map<Vertex, int>, vs: set<Vertex>): int
    requires vs <= w.Keys
  {
    if vs == {} then 0 else
      var v :| v in vs;
      w[v] + SumOf(w, vs - {v})
  }

  ghost function Imports(h: Handler, vs: set<Vertex>): set<Vertex> {
    set v | v in vs && v.OpVertex? && h.HasOp(v.b, v.i) && h.At(v.b, v.i).kind == GlobalImport
  }

  lemma OneMoreImport(h: Handler, vs: set<Vertex>, v: Vertex)
    requires v !in vs
    ensures |Imports(h, vs + {v})| == |Imports(h, vs)| + if VertexWeight(h, v) == 100 then 1 else 0
    ensures VertexWeight(h, v) in {1, 100}
  {
    if VertexWeight(h, v) == 100 {
      assert Imports(h, vs + {v}) == Imports(h, vs) + {v};
    } else {
      assert Imports(h, vs + {v}) == Imports(h, vs);
    }
  }

  lemma {:induction false} SumOfStage(h: Handler, w: map<Vertex, int>, s: set<Vertex>, vs: set<Vertex>)
    requires vs <= w.Keys && forall v :: v in vs ==> w[v] == if v in s then VertexWeight(h, v) else 0
    ensures SumOf(w, vs) == |vs * s| + 99 * |Imports(h, vs * s)|
    decreases |vs|
  {
    if vs != {} {
      var v :| v in vs && SumOf(w, vs) == w[v] + SumOf(w, vs - {v});
      SumOfStage(h, w, s, vs - {v});
      if v in s {
        assert vs * s == (vs - {v}) * s + {v};
        OneMoreImport(h, (vs - {v}) * s, v);
      } else {
        assert vs * s == (vs - {v}) * s;
      }
    }
  }

  /** The weights that the balance test is given: one for every vertex of the stage, and 99 more for
      every table import. */
  lemma StageWeighs(h: Handler, g: Graph, base: seq<Edge<Vertex>>, s: set<Vertex>)
    requires s <= g.keys
    ensures SumOf(StageWeights(g.keys, ProblemOf(h, g, base).weights, s), g.keys) == |s| + 99 * |Imports(h, s)|
  {
    SumOfStage(h, StageWeights(g.keys, ProblemOf(h, g, base).weights, s), s, g.keys);
    assert g.keys * s == s;
  }

  datatype OpRef = OpRef(block: nat, index: nat)

  const N_RAND_ITERS := 100

  datatype PipelineResult =
    | Split(sinkOps: set<OpRef>, sinkValues: set<Value>)
    | Failed(rc: nat)
    | Aborted

  function ResultCode(o: Outcome<Vertex>): nat {
    match o
    case Success(_) => 0
    case InfFlow => 1
    case SourceInfPath => 2
    case SinkInfPath => 3
    case NotPipelineable => 4
    case NotADag => 5
  }

  lemma FiniteCutFromEdges(g: Graph, base: seq<Edge<Vertex>>, s: set<Vertex>)
    requires Lists(base, g.adj) && GlobalSource in s && GlobalSink !in s
    requires NoInfiniteEdgeLeaves(g.falseEdges + base, s)
    requires forall e :: e in g.falseEdges ==> e.cap == INF_WT
    ensures FiniteCut(g, s)
  {
    var es := g.falseEdges + base;
    forall e | e in g.falseEdges && e.src in s ensures e.dst in s {
      var n :| 0 <= n < |g.falseEdges| && g.falseEdges[n] == e;
      assert es[n] == e;
    }
    forall p | p in g.adj && g.adj[p] == INF_WT && p.0 in s ensures p.1 in s {
      var n :| 0 <= n < |base| && base[n] == Edge(p.0, p.1, g.adj[p]);
      assert es[|g.falseEdges| + n] == base[n];
    }
  }

  type Solver = (nat, nat, Network<Vertex>) -> seq<int>
  type Balance = (nat, nat, map<Vertex, int>) -> Verdict

  ghost predicate AttemptsContract(solver: Solver) {
    forall a: nat, k: nat, net: Network<Vertex> :: net.Valid() ==> IsMaxFlow(net, solver(a, k, net))
  }

  function SolverOf(solver: Solver, a: nat): (nat, Network<Vertex>) -> seq<int> { (k: nat, net) => solver(a, k, net) }

  function BalanceOf(balance: Balance, a: nat): (nat, map<Vertex, int>) -> Verdict { (k: nat, w) => balance(a, k, w) }

  /** `s` is a finite cut that separates only pairs with a price, and no cut that respects the
      pins of `pinned` has a lower one. */
  ghost predicate BestCut(h: Handler, g: Graph, pinned: seq<Edge<Vertex>>, s: set<Vertex>) {
    && FiniteCut(g, s) && s <= g.keys && NoInfiniteEdgeLeaves(pinned, s) && Price(g, s) < INF_MIN
    && (forall p :: p in g.adj && p.0 in s && p.1 !in s ==> PaidCrossing(h, p.0, p.1, g.adj[p]))
    && forall other ::
         IsCut(Network(g.keys, pinned, GlobalSource, GlobalSink), other) && NoInfiniteEdgeLeaves(pinned, other) ==>
           Price(g, s) <= Price(g, other)
  }

  /** One attempt: the order in which it saw the edges, its rounds and its outcome. */
  datatype Try = Try(base: seq<Edge<Vertex>>, run: seq<Round<Vertex>>, outcome: Outcome<Vertex>)

  /** The cutter's input: every vertex with its weight. */
  function ProblemOf(h: Handler, g: Graph, base: seq<Edge<Vertex>>): Problem<Vertex> {
    var weights := map v | v in g.keys :: VertexWeight(h, v);
    Problem(g.keys, base, GlobalSource, GlobalSink, g.falseEdges, weights, g.constraints)
  }

  function PinnedIn(g: Graph, t: Try): seq<Edge<Vertex>> {
    g.falseEdges + if t.run == [] then t.base else t.run[|t.run|-1].adj
  }

  /** Attempt `a` is a whole run of the cutter on the handler's network, and its outcome has its reason. */
  ghost predicate IsTry(h: Handler, g: Graph, a: nat, t: Try, solver: Solver, balance: Balance) {
    && Lists(t.base, g.adj) && t.run != [] && Raised(g.falseEdges + t.base, PinnedIn(g, t))
    && IsRun(ProblemOf(h, g, t.base), t.run, SolverOf(solver, a), BalanceOf(balance, a), t.outcome)
    && Explained(t.outcome, g.keys, t.base, PinnedIn(g, t), GlobalSource, GlobalSink, g.falseEdges, g.constraints)
  }

  predicate Fails(o: Outcome<Vertex>) { o.InfFlow? || o.SourceInfPath? || o.SinkInfPath? }

  ghost function TryRule(h: Handler, g: Graph, solver: Solver, balance: Balance): (nat, Try) -> bool {
    (a: nat, t) => IsTry(h, g, a, t, solver, balance)
  }

  /** Attempts are made until one succeeds or finds a cycle, a hundred at most. */
  ghost predicate Tried(rule: (nat, Try) -> bool, tries: seq<Try>) {
    && 1 <= |tries| <= N_RAND_ITERS
    && (forall a :: 0 <= a < |tries| ==> rule(a, tries[a]))
    && (forall a :: 0 <= a < |tries| - 1 ==> Fails(tries[a].outcome))
  }

  ghost predicate AreTries(h: Handler, g: Graph, tries: seq<Try>, solver: Solver, balance: Balance) {
    && Tried(TryRule(h, g, solver, balance), tries)
    && (|tries| < N_RAND_ITERS ==> !Fails(tries[|tries|-1].outcome))
  }

  /** One attempt at a balanced cut. */
  method Attempt(h: Handler, g: Graph, a: nat, solver: Solver, balance: Balance)
      returns (outcome: Outcome<Vertex>, ghost t: Try)
    requires h.Valid() && Complete(h, g) && AttemptsContract(solver)
    ensures t.outcome == outcome && IsTry(h, g, a, t, solver, balance)
    ensures !outcome.NotPipelineable? && (outcome.NotADag? <==> !Acyclic(h))
  {
    var edges := ListEdges(g.adj);
    var p := ProblemOf(h, g, edges);
    Prepared(h, g, edges, solver, a);
    ghost var run, pinned;
    var rounds;
    outcome, rounds, pinned, run := RunBalancedMinCut(p.verts, p.base, p.source, p.sink, p.falseEdges, p.weights,
                                                      p.constraints, SolverOf(solver, a), BalanceOf(balance, a));
    t := Try(edges, run, outcome);
  }

  /** The handler's network meets what the cutter expects, and is layered exactly without a cycle. */
  lemma Prepared(h: Handler, g: Graph, base: seq<Edge<Vertex>>, solver: Solver, a: nat)
    requires h.Valid() && Complete(h, g) && AttemptsContract(solver) && Lists(base, g.adj)
    ensures Given(ProblemOf(h, g, base), SolverOf(solver, a))
    ensures ConstraintsBacked(g.constraints, g.falseEdges, GlobalSink)
    ensures Acyclic(h) <==> Rankable(base)
    ensures Acyclic(h) ==> exists rank: Vertex -> int :: Layered(base, g.keys, GlobalSource, GlobalSink, rank)
  {
    EndpointsAreVertices(h, g);
    BaseIsValid(h, g, base);
    AcyclicIffRankable(h, g, base);
    if Acyclic(h) {
      AcyclicIsLayered(h, g, base);
    }
  }

  ghost predicate Admits(h: Handler, g: Graph, solver: Solver, balance: Balance, rule: (nat, Try) -> bool) {
    forall a: nat, t {:trigger IsTry(h, g, a, t, solver, balance)} :: IsTry(h, g, a, t, solver, balance) ==> rule(a, t)
  }

  method RuledAttempt(h: Handler, g: Graph, a: nat, solver: Solver, balance: Balance, ghost rule: (nat, Try) -> bool)
      returns (outcome: Outcome<Vertex>, ghost t: Try)
    requires h.Valid() && Complete(h, g) && AttemptsContract(solver) && Admits(h, g, solver, balance, rule)
    ensures t.outcome == outcome && rule(a, t)
    ensures !outcome.NotPipelineable? && (outcome.NotADag? <==> !Acyclic(h))
  {
    outcome, t := Attempt(h, g, a, solver, balance);
  }

  method AttemptLoop(h: Handler, g: Graph, solver: Solver, balance: Balance, ghost rule: (nat, Try) -> bool)
      returns (outcome: Outcome<Vertex>, ghost tries: seq<Try>)
    requires h.Valid() && Complete(h, g) && AttemptsContract(solver) && Admits(h, g, solver, balance, rule)
    ensures Tried(rule, tries) && outcome == tries[|tries|-1].outcome
    ensures |tries| < N_RAND_ITERS ==> !Fails(outcome)
    ensures !outcome.NotPipelineable? && (outcome.NotADag? <==> !Acyclic(h))
  {
    ghost var t;
    outcome, t := RuledAttempt(h, g, 0, solver, balance, rule);
    tries := [t];
    var attempt := 1;
    while attempt < N_RAND_ITERS && !outcome.Success? && !outcome.NotADag?
      invariant |tries| == attempt && Tried(rule, tries) && outcome == tries[attempt - 1].outcome
      invariant !outcome.NotPipelineable? && (outcome.NotADag? <==> !Acyclic(h))
    {
      outcome, t := RuledAttempt(h, g, attempt, solver, balance, rule);
      tries := tries + [t];
      attempt := attempt + 1;
    }
  }

  /** Up to a hundred attempts at a balanced cut, each with its own edge order, solver runs and
      balance decisions. */
  method CutHandler(h: Handler, g: Graph, solver: Solver, balance: Balance)
      returns (outcome: Outcome<Vertex>, ghost tries: seq<Try>)
    requires h.Valid() && Complete(h, g)
    requires AttemptsContract(solver)
    ensures AreTries(h, g, tries, solver, balance) && outcome == tries[|tries|-1].outcome
    ensures outcome.Success? ==> BestCut(h, g, PinnedIn(g, tries[|tries|-1]), outcome.sourceSet)
    ensures !outcome.NotPipelineable?
    ensures outcome.NotADag? <==> !Acyclic(h)
  {
    outcome, tries := AttemptLoop(h, g, solver, balance, TryRule(h, g, solver, balance));
    if outcome.Success? {
      LastIsBest(h, g, solver, balance, |tries| - 1, tries[|tries|-1]);
    }
  }

  lemma LastIsBest(h: Handler, g: Graph, solver: Solver, balance: Balance, a: nat, t: Try)
    requires Complete(h, g) && TryRule(h, g, solver, balance)(a, t) && t.outcome.Success?
    ensures BestCut(h, g, PinnedIn(g, t), t.outcome.sourceSet)
  {
    SuccessIsBest(h, g, t.base, PinnedIn(g, t), t.outcome);
  }

  lemma BaseIsValid(h: Handler, g: Graph, base: seq<Edge<Vertex>>)
    requires h.Valid() && Complete(h, g) && Lists(base, g.adj)
    ensures EdgesWithin(base, g.keys) && CapacitiesValid(base)
    ensures ConstraintsBacked(g.constraints, g.falseEdges, GlobalSink)
  {
    forall k | 0 <= k < |base| ensures 0 < base[k].cap <= INF_WT && base[k].src in g.keys && base[k].dst in g.keys {
      var p := (base[k].src, base[k].dst);
      assert p in g.adj && g.adj[p] == Weight(h, p.0, p.1);
    }
    forall k | 0 <= k < |g.constraints|
      ensures g.constraints[k].1 == GlobalSink || Edge(g.constraints[k].1, g.constraints[k].0, INF_WT) in g.falseEdges
    {
      assert g.constraints[k] in g.constraints;
    }
  }

  lemma UncutIsFinite(h: Handler, g: Graph, base: seq<Edge<Vertex>>, pinned: seq<Edge<Vertex>>, s: set<Vertex>)
    requires Complete(h, g) && Lists(base, g.adj) && GlobalSource in s && GlobalSink !in s
    requires Raised(g.falseEdges + base, pinned) && NoInfiniteEdgeLeaves(pinned, s)
    ensures FiniteCut(g, s) && CutCap(g.falseEdges + base, s) == Price(g, s)
  {
    var es := g.falseEdges + base;
    forall i | 0 <= i < |es| && es[i].src in s && es[i].dst !in s ensures es[i].cap < INF_MIN {
      assert pinned[i].src == es[i].src && pinned[i].dst == es[i].dst;
    }
    forall e | e in g.falseEdges ensures e.cap == INF_WT {
      assert FalseShape(h, e);
    }
    FiniteCutFromEdges(g, base, s);
    CutIsPriced(g, base, s);
  }

  lemma SuccessIsBest(h: Handler, g: Graph, base: seq<Edge<Vertex>>, pinned: seq<Edge<Vertex>>,
      outcome: Outcome<Vertex>)
    requires Complete(h, g) && Lists(base, g.adj) && outcome.Success? && Raised(g.falseEdges + base, pinned)
    requires Explained(outcome, g.keys, base, pinned, GlobalSource, GlobalSink, g.falseEdges, g.constraints)
    ensures BestCut(h, g, pinned, outcome.sourceSet)
  {
    var s := outcome.sourceSet;
    UncutIsFinite(h, g, base, pinned, s);
    forall p | p in g.adj && p.0 in s && p.1 !in s ensures PaidCrossing(h, p.0, p.1, g.adj[p]) {
      CrossingsArePaid(h, g, s, p);
    }
    forall other | IsCut(Network(g.keys, pinned, GlobalSource, GlobalSink), other) &&
      NoInfiniteEdgeLeaves(pinned, other)
      ensures Price(g, s) <= Price(g, other)
    {
      UncutIsFinite(h, g, base, pinned, other);
      CheapestAmongPinned(outcome, g.keys, base, pinned, GlobalSource, GlobalSink, g.falseEdges, g.constraints, other);
    }
  }

  /** Operation `r` reads or writes the table that operation `t` imports. */
  ghost predicate AccessesTable(h: Handler, r: OpRef, t: OpRef) {
    && h.HasOp(r.block, r.index) && h.At(r.block, r.index).kind in {Lookup, Update}
    && h.HasOp(t.block, t.index) && h.At(t.block, t.index).kind == GlobalImport
    && h.At(r.block, r.index).operands != []
    && var table := h.At(r.block, r.index).operands[0];
       table.OpResult? && table.block == t.block && table.op == t.index
  }

  ghost predicate EmitsEvent(h: Handler, r: OpRef) {
    h.HasOp(r.block, r.index) && h.At(r.block, r.index).kind == Return && h.At(r.block, r.index).results == []
  }

  ghost predicate ReadsResult(h: Handler, r: OpRef, v: Value) {
    h.HasOp(r.block, r.index) && v.OpResult? && v in h.At(r.block, r.index).operands
  }

  /** What the two stages of a successful cut promise. */
  ghost predicate StagesSound(h: Handler, sinkOps: set<OpRef>, sinkValues: set<Value>) {
    // dependencies of the source stage stay in the source stage
    && (forall r: OpRef, d: OpRef :: Needs(h, r.block, r.index, d.block, d.index) && r !in sinkOps ==> d !in sinkOps)
    // no table is split between the stages
    && (forall r, t :: AccessesTable(h, r, t) ==> (r in sinkOps <==> t in sinkOps))
    // what the handler emits leaves in the sink stage
    && (forall r :: EmitsEvent(h, r) ==> r in sinkOps)
    // what the sink stage reads is defined there or sent there
    && (forall r: OpRef, v: Value :: r in sinkOps && ReadsResult(h, r, v) ==> v in sinkValues)
  }

  /** What a failed attempt says: no cut is finite, or the stage is too small, or too large, and
      no vertex can be pinned. */
  ghost predicate SaysNoFiniteCut(g: Graph, t: Try) {
    Cheapest(g.keys, PinnedIn(g, t), GlobalSource, GlobalSink, INF_MIN)
  }

  ghost predicate SaysStuck(h: Handler, g: Graph, t: Try, k: (nat, map<Vertex, int>) -> Verdict, toSource: bool)
    requires t.run != []
  {
    var p, r := ProblemOf(h, g, t.base), t.run[|t.run|-1];
    Judged(p, r, |t.run|, k, if toSource then TooSmall else TooLarge) && CannotPin(p, r, toSource)
  }

  /** The code of a failed attempt tells which of the three reasons it had. */
  lemma CodeTellsReason(h: Handler, g: Graph, a: nat, t: Try, solver: Solver, balance: Balance)
    requires h.Valid() && Complete(h, g) && AttemptsContract(solver)
    requires IsTry(h, g, a, t, solver, balance) && Fails(t.outcome)
    ensures ResultCode(t.outcome) == 1 <==> SaysNoFiniteCut(g, t)
    ensures ResultCode(t.outcome) == 2 <==> SaysStuck(h, g, t, BalanceOf(balance, a), true)
    ensures ResultCode(t.outcome) == 3 <==> SaysStuck(h, g, t, BalanceOf(balance, a), false)
  {
    var p, r := ProblemOf(h, g, t.base), t.run[|t.run|-1];
    assert EndsIn(p, r, |t.run|, BalanceOf(balance, a), t.outcome);
  }

  method PipelineHandler(h: Handler, solver: Solver, balance: Balance)
      returns (result: PipelineResult, ghost g: Graph, ghost tries: seq<Try>)
    requires h.Valid()
    requires AttemptsContract(solver)
    // an assertion fails exactly on a handler that construction refuses or whose edges have a cycle
    ensures result.Aborted? <==> !(Buildable(h) && Acyclic(h))
    ensures !result.Aborted? ==> Complete(h, g) && AreTries(h, g, tries, solver, balance)
    // the stages come from the balanced best cut of the last attempt
    ensures result.Split? ==> StagesSound(h, result.sinkOps, result.sinkValues)
    ensures result.Split? ==> var t := tries[|tries|-1];
      && t.outcome.Success? && BestCut(h, g, PinnedIn(g, t), t.outcome.sourceSet)
      && (forall r :: r in result.sinkOps <==> SinkOp(h, t.outcome.sourceSet, r))
      && (forall v :: v in result.sinkValues <==> SinkValue(h, t.outcome.sourceSet, v))
    // all attempts failed, and the code tells why the last one did
    ensures result.Failed? ==> |tries| == N_RAND_ITERS && var t := tries[N_RAND_ITERS - 1];
      && Fails(t.outcome) && 1 <= result.rc < 4
      && (result.rc == 1 <==> SaysNoFiniteCut(g, t))
      && (result.rc == 2 <==> SaysStuck(h, g, t, BalanceOf(balance, N_RAND_ITERS - 1), true))
      && (result.rc == 3 <==> SaysStuck(h, g, t, BalanceOf(balance, N_RAND_ITERS - 1), false))
  {
    var graph, ok := BuildGraph(h);
    g, tries := graph, [];
    if !ok {
      result := Aborted;
      return;
    }
    var outcome;
    outcome, tries := CutHandler(h, graph, solver, balance);
    if outcome.NotADag? {
      result := Aborted;
      return;
    }
    if !outcome.Success? {
      CodeTellsReason(h, graph, N_RAND_ITERS - 1, tries[N_RAND_ITERS - 1], solver, balance);
      result := Failed(ResultCode(outcome));
      return;
    }
    var s := outcome.sourceSet;
    var sinkOps, sinkValues := WalkStages(h, s);
    SplitIsSound(h, graph, s, sinkOps, sinkValues);
    result := Split(sinkOps, sinkValues);
  }

  method WalkStages(h: Handler, s: set<Vertex>) returns (sinkOps: set<OpRef>, sinkValues: set<Value>)
    ensures forall r :: r in sinkOps <==> SinkOp(h, s, r)
    ensures forall v :: v in sinkValues <==> SinkValue(h, s, v)
  {
    sinkOps, sinkValues := {}, {};
    for b := 0 to |h.blocks|
      invariant forall r :: r in sinkOps <==> SinkOp(h, s, r) && r.block < b
      invariant forall v :: v in sinkValues <==> SinkValue(h, s, v) && v.block < b
    {
      for i := 0 to |h.blocks[b].ops|
        invariant forall r :: r in sinkOps <==> SinkOp(h, s, r) && (r.block < b || (r.block == b && r.index < i))
        invariant forall v :: v in sinkValues <==> SinkValue(h, s, v) && (v.block < b || (v.block == b && v.op < i))
      {
        var all := set k: nat | k < |h.At(b, i).results| :: OpResult(b, i, k);
        if OpVertex(b, i) !in s {
          sinkOps := sinkOps + {OpRef(b, i)};
          sinkValues := sinkValues + all;
        } else {
          sinkValues := sinkValues + set v | v in all && ValueVertex(v) !in s;
        }
      }
    }
  }

  ghost predicate SinkOp(h: Handler, s: set<Vertex>, r: OpRef) {
    h.HasOp(r.block, r.index) && OpVertex(r.block, r.index) !in s
  }

  ghost predicate SinkValue(h: Handler, s: set<Vertex>, v: Value) {
    v.OpResult? && h.HasValue(v) && (OpVertex(v.block, v.op) !in s || ValueVertex(v) !in s)
  }

  lemma SplitIsSound(h: Handler, g: Graph, s: set<Vertex>, sinkOps: set<OpRef>, sinkValues: set<Value>)
    requires h.Valid() && Complete(h, g) && FiniteCut(g, s)
    requires forall r :: r in sinkOps <==> SinkOp(h, s, r)
    requires forall v :: v in sinkValues <==> SinkValue(h, s, v)
    ensures StagesSound(h, sinkOps, sinkValues)
  {
    forall r: OpRef, d: OpRef | Needs(h, r.block, r.index, d.block, d.index) && r !in sinkOps ensures d !in sinkOps {
      NeededIsInSourceStage(h, g, s, r.block, r.index, d.block, d.index);
    }
    forall r, t | AccessesTable(h, r, t) ensures r in sinkOps <==> t in sinkOps {
      TablesAreNotSplit(h, g, s, r.block, r.index, t.block, t.index, h.At(r.block, r.index).operands[0].result);
    }
    forall r | EmitsEvent(h, r) ensures r in sinkOps {
      ReturnsAreInSinkStage(h, g, s, r.block, r.index);
    }
    forall r: OpRef, v: Value | r in sinkOps && ReadsResult(h, r, v) ensures v in sinkValues {
      ReadIsSent(h, g, s, r, v);
    }
  }

  /** A result that a sink-stage operation reads crossed the cut, or was defined behind it. */
  lemma ReadIsSent(h: Handler, g: Graph, s: set<Vertex>, r: OpRef, v: Value)
    requires h.Valid() && Complete(h, g) && FiniteCut(g, s) && SinkOp(h, s, r) && ReadsResult(h, r, v)
    ensures SinkValue(h, s, v)
  {
    assert h.HasValue(v);
    assert OpDone(h, g, r.block, r.index) && OperandDone(h, g, r.block, r.index, v);
    var feeder := Feeder(h, v, r.block, h.At(r.block, r.index));
    assert g.adj[(feeder, OpVertex(r.block, r.index))] == INF_WT;
  }
}
