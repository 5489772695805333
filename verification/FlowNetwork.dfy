/** Capacitated networks, flows and cuts.

    The pipeline cutter hands its network to a push-relabel solver and then works with the
    residual graph. This module states what a maximum flow is (a valid flow that leaves the
    sink unreachable in the residual graph), shows that every such flow certifies a minimum
    cut, and shows that such a flow always exists, so that the contract is never vacuous.

    Every edge stands for the pair that the cutter inserts: a forward edge with the given
    capacity and a reverse edge with capacity zero. `flow[i]` is the net flow of pair `i`. */
module FlowNetwork {

  datatype Edge<V> = Edge(src: V, dst: V, cap: nat)

  /** A network: its vertices, its edge pairs (parallel edges allowed) and its terminals. */
  datatype Network<V> = Network(verts: set<V>, edges: seq<Edge<V>>, source: V, sink: V) {
    ghost predicate Valid() {
      && source in verts && sink in verts && source != sink
      && forall i :: 0 <= i < |edges| ==> edges[i].src in verts && edges[i].dst in verts
    }
  }

  /** The contribution of one edge to the net flow out of `s`. */
  function Term<V>(e: Edge<V>, x: int, s: set<V>): int {
    (if e.src in s then x else 0) - (if e.dst in s then x else 0)
  }

  /** Net flow that the first `n` edges carry out of the vertex set `s`. */
  function NetOut<V>(es: seq<Edge<V>>, f: seq<int>, s: set<V>, n: nat): int
    requires n <= |es| == |f|
  {
    if n == 0 then 0 else NetOut(es, f, s, n - 1) + Term(es[n-1], f[n-1], s)
  }

  /** Capacity of the first `n` edges that leave `s`. */
  function CutCapUpTo<V>(es: seq<Edge<V>>, s: set<V>, n: nat): nat
    requires n <= |es|
  {
    if n == 0 then 0
    else CutCapUpTo(es, s, n - 1) + if es[n-1].src in s && es[n-1].dst !in s then es[n-1].cap else 0
  }

  function CutCap<V>(es: seq<Edge<V>>, s: set<V>): nat {
    CutCapUpTo(es, s, |es|)
  }

  ghost predicate IsCut<V>(net: Network<V>, s: set<V>) {
    net.source in s && net.sink !in s && s <= net.verts
  }

  ghost predicate WithinCapacity<V>(es: seq<Edge<V>>, f: seq<int>) {
    |f| == |es| && forall i :: 0 <= i < |es| ==> 0 <= f[i] <= es[i].cap
  }

  ghost predicate IsFlow<V(!new)>(net: Network<V>, f: seq<int>) {
    && WithinCapacity(net.edges, f)
    && forall v :: v in net.verts && v != net.source && v != net.sink ==> NetOut(net.edges, f, {v}, |net.edges|) == 0
  }

  /** What the solver returns: the net flow that arrives in the sink. */
  function FlowValue<V>(net: Network<V>, f: seq<int>): int
    requires |f| == |net.edges|
  {
    -NetOut(net.edges, f, {net.sink}, |net.edges|)
  }

  /** `r` is closed under residual edges: unsaturated forwards, flow-carrying backwards. */
  ghost predicate ResidualClosed<V>(es: seq<Edge<V>>, f: seq<int>, r: set<V>)
    requires |f| == |es|
  {
    forall i :: 0 <= i < |es| ==>
      && (es[i].src in r && f[i] < es[i].cap ==> es[i].dst in r)
      && (es[i].dst in r && 0 < f[i] ==> es[i].src in r)
  }

  /** `r` is the set a search from the source visits in the residual graph. */
  ghost predicate IsResidualReach<V(!new)>(net: Network<V>, f: seq<int>, r: set<V>)
    requires |f| == |net.edges|
  {
    && net.source in r
    && ResidualClosed(net.edges, f, r)
    && forall q: set<V> :: net.source in q && ResidualClosed(net.edges, f, q) ==> r <= q
  }

  /** The solver's contract: a flow after which the sink is unreachable. */
  ghost predicate IsMaxFlow<V(!new)>(net: Network<V>, f: seq<int>) {
    IsFlow(net, f) && forall r :: IsResidualReach(net, f, r) ==> net.sink !in r
  }

  // ----- Net flow is additive over vertices -----

  lemma {:induction false} NetOutEmpty<V>(es: seq<Edge<V>>, f: seq<int>, n: nat)
    requires n <= |es| == |f|
    ensures NetOut(es, f, {}, n) == 0
  {
    if n > 0 { NetOutEmpty(es, f, n - 1); }
  }

  lemma {:induction false} NetOutInsert<V>(es: seq<Edge<V>>, f: seq<int>, s: set<V>, v: V, n: nat)
    requires n <= |es| == |f| && v !in s
    ensures NetOut(es, f, s + {v}, n) == NetOut(es, f, s, n) + NetOut(es, f, {v}, n)
  {
    if n > 0 { NetOutInsert(es, f, s, v, n - 1); }
  }

  lemma {:induction false} NetOutAll<V>(net: Network<V>, f: seq<int>, n: nat)
    requires net.Valid() && n <= |net.edges| == |f|
    ensures NetOut(net.edges, f, net.verts, n) == 0
  {
    if n > 0 { NetOutAll(net, f, n - 1); }
  }

  /** Conservation: a set without the sink passes on exactly what the source sends, and
      nothing when it does not hold the source. */
  lemma {:induction false} NetOutOfSet<V(!new)>(net: Network<V>, f: seq<int>, s: set<V>)
    requires IsFlow(net, f) && s <= net.verts && net.sink !in s
    ensures NetOut(net.edges, f, s, |net.edges|) ==
            if net.source in s then NetOut(net.edges, f, {net.source}, |net.edges|) else 0
    decreases |s|
  {
    var es, n := net.edges, |net.edges|;
    if s == {} {
      NetOutEmpty(es, f, n);
    } else {
      var v :| v in s;
      var rest := s - {v};
      assert rest + {v} == s;
      NetOutInsert(es, f, rest, v, n);
      NetOutOfSet(net, f, rest);
    }
  }

  /** What leaves the source arrives in the sink. */
  lemma FlowValueAtSource<V(!new)>(net: Network<V>, f: seq<int>)
    requires net.Valid() && IsFlow(net, f)
    ensures FlowValue(net, f) == NetOut(net.edges, f, {net.source}, |net.edges|)
  {
    var n := |net.edges|;
    var rest := net.verts - {net.sink};
    NetOutAll(net, f, n);
    assert rest + {net.sink} == net.verts;
    NetOutInsert(net.edges, f, rest, net.sink, n);
    NetOutOfSet(net, f, rest);
  }

  lemma FlowAcrossCut<V(!new)>(net: Network<V>, f: seq<int>, s: set<V>)
    requires net.Valid() && IsFlow(net, f) && IsCut(net, s)
    ensures FlowValue(net, f) == NetOut(net.edges, f, s, |net.edges|)
  {
    NetOutOfSet(net, f, s);
    FlowValueAtSource(net, f);
  }

  // ----- Duality -----

  lemma {:induction false} NetOutBounded<V>(es: seq<Edge<V>>, f: seq<int>, s: set<V>, n: nat)
    requires n <= |es| && WithinCapacity(es, f)
    ensures NetOut(es, f, s, n) <= CutCapUpTo(es, s, n)
  {
    if n > 0 { NetOutBounded(es, f, s, n - 1); }
  }

  lemma {:induction false} NetOutOfClosedSet<V>(es: seq<Edge<V>>, f: seq<int>, s: set<V>, n: nat)
    requires n <= |es| && WithinCapacity(es, f) && ResidualClosed(es, f, s)
    ensures NetOut(es, f, s, n) == CutCapUpTo(es, s, n)
  {
    if n > 0 { NetOutOfClosedSet(es, f, s, n - 1); }
  }

  /** No flow carries more than any cut admits. */
  lemma WeakDuality<V(!new)>(net: Network<V>, f: seq<int>, s: set<V>)
    requires net.Valid() && IsFlow(net, f) && IsCut(net, s)
    ensures FlowValue(net, f) <= CutCap(net.edges, s)
  {
    FlowAcrossCut(net, f, s);
    NetOutBounded(net.edges, f, s, |net.edges|);
  }

  lemma ReachIsWithinVertices<V(!new)>(net: Network<V>, f: seq<int>, r: set<V>)
    requires net.Valid() && |f| == |net.edges| && IsResidualReach(net, f, r)
    ensures r <= net.verts
  {
    assert ResidualClosed(net.edges, f, net.verts);
  }

  /** The residual-reachable set of a maximum flow is a cut that costs exactly the flow, and
      no cut is cheaper, whatever circulations the flow contains. */
  lemma MaxFlowMinCut<V(!new)>(net: Network<V>, f: seq<int>, r: set<V>)
    requires net.Valid() && IsMaxFlow(net, f) && IsResidualReach(net, f, r)
    ensures IsCut(net, r)
    ensures CutCap(net.edges, r) == FlowValue(net, f)
    ensures forall s :: IsCut(net, s) ==> CutCap(net.edges, r) <= CutCap(net.edges, s)
  {
    ReachIsWithinVertices(net, f, r);
    FlowAcrossCut(net, f, r);
    NetOutOfClosedSet(net.edges, f, r, |net.edges|);
    forall s | IsCut(net, s) ensures CutCap(net.edges, r) <= CutCap(net.edges, s) {
      WeakDuality(net, f, s);
    }
  }

  lemma {:induction false} CrossingEdgeBelowCut<V>(es: seq<Edge<V>>, s: set<V>, i: nat, n: nat)
    requires i < n <= |es| && es[i].src in s && es[i].dst !in s
    ensures es[i].cap <= CutCapUpTo(es, s, n)
  {
    if i < n - 1 { CrossingEdgeBelowCut(es, s, i, n - 1); }
  }

  // ----- A maximum flow exists -----

  /** `g` sends one unit more than `f` from the source to `v`, and differs from `f` only on
      edges inside `d`. */
  ghost predicate OneMoreUnit<V(!new)>(net: Network<V>, f: seq<int>, g: seq<int>, d: set<V>, v: V)
    requires |f| == |net.edges|
  {
    && WithinCapacity(net.edges, g)
    && (forall i :: 0 <= i < |f| && !(net.edges[i].src in d && net.edges[i].dst in d) ==> g[i] == f[i])
    && forall u :: u in net.verts ==>
         NetOut(net.edges, g, {u}, |f|) == NetOut(net.edges, f, {u}, |f|)
           + (if u == net.source then 1 else 0) - (if u == v then 1 else 0)
  }

  lemma {:induction false} NetOutChanged<V>(es: seq<Edge<V>>, f: seq<int>, i: nat, x: int, u: V, n: nat)
    requires n <= |es| == |f| && i < |f|
    ensures NetOut(es, f[i := x], {u}, n) ==
            NetOut(es, f, {u}, n) + if i < n then Term(es[i], x, {u}) - Term(es[i], f[i], {u}) else 0
  {
    if n > 0 { NetOutChanged(es, f, i, x, u, n - 1); }
  }

  /** One residual edge from `v` to an undiscovered `w` extends the extra unit to `w`. */
  lemma ExtendUnit<V(!new)>(net: Network<V>, f: seq<int>, g: seq<int>, d: set<V>, v: V, w: V, i: nat)
      returns (h: seq<int>)
    requires net.Valid() && WithinCapacity(net.edges, f) && i < |f|
    requires v in d && w !in d && OneMoreUnit(net, f, g, d, v)
    requires (net.edges[i].src == v && net.edges[i].dst == w && f[i] < net.edges[i].cap)
          || (net.edges[i].dst == v && net.edges[i].src == w && 0 < f[i])
    ensures OneMoreUnit(net, f, h, d + {w}, w)
  {
    var x := if net.edges[i].src == v && net.edges[i].dst == w && f[i] < net.edges[i].cap then f[i] + 1 else f[i] - 1;
    assert g[i] == f[i];
    h := g[i := x];
    forall u | u in net.verts
      ensures NetOut(net.edges, h, {u}, |f|) == NetOut(net.edges, f, {u}, |f|)
           + (if u == net.source then 1 else 0) - (if u == w then 1 else 0)
    {
      NetOutChanged(net.edges, g, i, x, u, |f|);
    }
  }

  /** Edge pair `i` leads out of `closed` in the residual graph, forwards or backwards. */
  ghost predicate Escapes<V>(net: Network<V>, f: seq<int>, closed: set<V>, i: nat, forward: bool)
    requires |f| == |net.edges| && i < |f|
  {
    var e := net.edges[i];
    if forward then e.src in closed && e.dst !in closed && f[i] < e.cap
    else e.dst in closed && e.src !in closed && 0 < f[i]
  }

  /** A set that is not closed has a residual edge leaving it. */
  lemma ResidualStep<V>(net: Network<V>, f: seq<int>, closed: set<V>) returns (i: nat, forward: bool)
    requires |f| == |net.edges| && !ResidualClosed(net.edges, f, closed)
    ensures i < |f| && Escapes(net, f, closed, i, forward)
  {
    i :| 0 <= i < |f| && !(&& (net.edges[i].src in closed && f[i] < net.edges[i].cap ==> net.edges[i].dst in closed)
                           && (net.edges[i].dst in closed && 0 < f[i] ==> net.edges[i].src in closed));
    forward := net.edges[i].src in closed && f[i] < net.edges[i].cap && net.edges[i].dst !in closed;
  }

  /** Search the residual graph of a flow: either the search closes without meeting the sink,
      or the flow can carry one unit more. */
  lemma AugmentOrClose<V(!new)>(net: Network<V>, f: seq<int>) returns (closed: set<V>, g: seq<int>)
    requires net.Valid() && IsFlow(net, f)
    ensures net.source in closed && closed <= net.verts
    ensures net.sink !in closed ==> ResidualClosed(net.edges, f, closed)
    ensures net.sink in closed ==> IsFlow(net, g) && FlowValue(net, g) == FlowValue(net, f) + 1
  {
    closed := {net.source};
    ghost var unit := map[net.source := f];
    assert OneMoreUnit(net, f, f, closed, net.source);
    g := f;
    while net.sink !in closed && !ResidualClosed(net.edges, f, closed)
      invariant net.source in closed && closed <= net.verts && unit.Keys == closed
      invariant forall v :: v in closed ==> OneMoreUnit(net, f, unit[v], closed, v)
      decreases net.verts - closed
    {
      var i, forward := ResidualStep(net, f, closed);
      var e := net.edges[i];
      var v, w := if forward then e.src else e.dst, if forward then e.dst else e.src;
      var h := ExtendUnit(net, f, unit[v], closed, v, w, i);
      closed := closed + {w};
      unit := unit[w := h];
    }
    if net.sink in closed {
      g := unit[net.sink];
    }
  }

  ghost function SourceBound<V>(net: Network<V>): nat {
    CutCap(net.edges, {net.source})
  }

  lemma {:induction false} ZeroFlowNet<V>(es: seq<Edge<V>>, f: seq<int>, s: set<V>, n: nat)
    requires n <= |es| == |f| && forall i :: 0 <= i < |f| ==> f[i] == 0
    ensures NetOut(es, f, s, n) == 0
  {
    if n > 0 { ZeroFlowNet(es, f, s, n - 1); }
  }

  /** Every network has a flow that satisfies the solver's contract. */
  lemma MaxFlowExists<V(!new)>(net: Network<V>) returns (f: seq<int>, closed: set<V>)
    requires net.Valid()
    ensures IsMaxFlow(net, f) && IsCut(net, closed) && ResidualClosed(net.edges, f, closed)
  {
    f := seq(|net.edges|, _ => 0);
    forall v ensures NetOut(net.edges, f, {v}, |net.edges|) == 0 {
      ZeroFlowNet(net.edges, f, {v}, |net.edges|);
    }
    var g;
    closed, g := AugmentOrClose(net, f);
    while net.sink in closed
      invariant IsFlow(net, f)
      invariant net.source in closed && closed <= net.verts
      invariant net.sink !in closed ==> ResidualClosed(net.edges, f, closed)
      invariant net.sink in closed ==> IsFlow(net, g) && FlowValue(net, g) == FlowValue(net, f) + 1
      decreases SourceBound(net) - FlowValue(net, f)
    {
      WeakDuality(net, g, {net.source});
      f := g;
      closed, g := AugmentOrClose(net, f);
    }
  }
}
