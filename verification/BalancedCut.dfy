/** The balanced minimum cut loop of the handler pipeliner (`runBalancedMinCut`).

    Each round solves max-flow on the current network, takes the residual-reachable set as the
    source stage, and then either stops, gives up, or pins one more vertex to the source or to
    the sink with an edge of infinite capacity. The solver and the floating-point balance test
    are parameters: any maximum flow and any decision may come back in any round, which also
    covers every shuffle of the vertex and edge lists. */
module BalancedCut {
  import opened FlowNetwork

  const INF_WT: nat := 1_000_000_000_000_000_000
  const INF_MIN: nat := 100_000_000_000_000_000

  /** How the weight of the source stage compares with the wanted fraction. */
  datatype Verdict = TooSmall | TooLarge | Balanced

  datatype Outcome<V> =
    | Success(sourceSet: set<V>)
    | InfFlow
    | SourceInfPath
    | SinkInfPath
    | NotPipelineable
    | NotADag

  // ----- Searching -----

  ghost predicate ArcClosed<V>(arcs: seq<(V, V)>, r: set<V>) {
    forall i :: 0 <= i < |arcs| ==> arcs[i].0 in r ==> arcs[i].1 in r
  }

  ghost predicate ArcsWithin<V>(arcs: seq<(V, V)>, verts: set<V>) {
    forall i :: 0 <= i < |arcs| ==> arcs[i].1 in verts
  }

  /** Depth-first visit from `start`: the least set that holds `start` and is closed under the
      arcs. */
  method DepthFirstVisit<V(==,!new)>(verts: set<V>, arcs: seq<(V, V)>, start: V) returns (seen: set<V>)
    requires start in verts && ArcsWithin(arcs, verts)
    ensures start in seen && seen <= verts && ArcClosed(arcs, seen)
    ensures forall q: set<V> :: start in q && ArcClosed(arcs, q) ==> seen <= q
  {
    seen := {start};
    var stack := [start];
    while stack != []
      invariant start in seen && seen <= verts
      invariant forall k :: 0 <= k < |stack| ==> stack[k] in seen
      invariant forall i :: 0 <= i < |arcs| && arcs[i].0 in seen && arcs[i].1 !in seen ==> arcs[i].0 in stack
      invariant forall q: set<V> :: start in q && ArcClosed(arcs, q) ==> seen <= q
      decreases |verts| - |seen|, |stack|
    {
      var u := stack[|stack| - 1];
      var below := stack[..|stack| - 1];
      assert forall w :: w in stack ==> w == u || w in below;
      stack := below;
      ghost var before := seen;
      CardinalityBound(seen, verts);
      for i := 0 to |arcs|
        invariant start in seen && before <= seen <= verts && u in seen
        invariant |before| <= |seen| <= |verts|
        invariant |seen| == |before| ==> stack == below
        invariant forall k :: 0 <= k < |stack| ==> stack[k] in seen
        invariant forall j :: 0 <= j < |arcs| && arcs[j].0 in seen && arcs[j].1 !in seen ==>
                    arcs[j].0 in stack || (arcs[j].0 == u && i <= j)
        invariant forall q: set<V> :: start in q && ArcClosed(arcs, q) ==> seen <= q
      {
        if arcs[i].0 == u && arcs[i].1 !in seen {
          CardinalityBound(seen + {arcs[i].1}, verts);
          seen := seen + {arcs[i].1};
          stack := stack + [arcs[i].1];
        }
      }
    }
  }

  lemma {:induction false} CardinalityBound<V>(a: set<V>, b: set<V>)
    requires a <= b
    ensures |a| <= |b|
  {
    if a != {} {
      var x :| x in a;
      CardinalityBound(a - {x}, b - {x});
    }
  }

  /** `arc` is an unsaturated half of the edge pair `e` that carries `x`. */
  ghost predicate IsHalf<V>(e: Edge<V>, x: int, arc: (V, V)) {
    (arc == (e.src, e.dst) && x < e.cap) || (arc == (e.dst, e.src) && 0 < x)
  }

  /** The arcs of the residual graph, as the cutter keeps them after it removes every saturated
      half of an edge pair. */
  method ResidualArcs<V(==,!new)>(es: seq<Edge<V>>, f: seq<int>) returns (arcs: seq<(V, V)>)
    requires |f| == |es|
    ensures forall r: set<V> :: ArcClosed(arcs, r) <==> ResidualClosed(es, f, r)
    ensures forall verts: set<V> :: EdgesWithin(es, verts) ==> ArcsWithin(arcs, verts)
  {
    arcs := [];
    ghost var origin: seq<int> := [];
    ghost var fwd: map<int, int>, bwd: map<int, int> := map[], map[];
    for i := 0 to |es|
      invariant |origin| == |arcs|
      invariant forall k :: 0 <= k < |arcs| ==> 0 <= origin[k] < i && IsHalf(es[origin[k]], f[origin[k]], arcs[k])
      invariant forall j :: 0 <= j < i && f[j] < es[j].cap ==>
                  j in fwd && 0 <= fwd[j] < |arcs| && arcs[fwd[j]] == (es[j].src, es[j].dst)
      invariant forall j :: 0 <= j < i && 0 < f[j] ==>
                  j in bwd && 0 <= bwd[j] < |arcs| && arcs[bwd[j]] == (es[j].dst, es[j].src)
    {
      if f[i] < es[i].cap {
        fwd := fwd[i := |arcs|];
        arcs, origin := arcs + [(es[i].src, es[i].dst)], origin + [i];
      }
      if 0 < f[i] {
        bwd := bwd[i := |arcs|];
        arcs, origin := arcs + [(es[i].dst, es[i].src)], origin + [i];
      }
    }
    forall r: set<V> ensures ArcClosed(arcs, r) <==> ResidualClosed(es, f, r) {
      if ArcClosed(arcs, r) {
        forall j | 0 <= j < |es|
          ensures es[j].src in r && f[j] < es[j].cap ==> es[j].dst in r
          ensures es[j].dst in r && 0 < f[j] ==> es[j].src in r
        {
          if f[j] < es[j].cap { assert arcs[fwd[j]].0 in r ==> arcs[fwd[j]].1 in r; }
          if 0 < f[j] { assert arcs[bwd[j]].0 in r ==> arcs[bwd[j]].1 in r; }
        }
      }
      if ResidualClosed(es, f, r) {
        forall k | 0 <= k < |arcs| ensures arcs[k].0 in r ==> arcs[k].1 in r {
          var j := origin[k];
          assert es[j].src in r && f[j] < es[j].cap ==> es[j].dst in r;
        }
      }
    }
  }

  function ArcOf<V>(e: Edge<V>, reversed: bool): (V, V) {
    if reversed then (e.dst, e.src) else (e.src, e.dst)
  }

  ghost predicate HasInfiniteArc<V>(es: seq<Edge<V>>, f: seq<int>, reversed: bool, arc: (V, V))
    requires |f| == |es|
  {
    exists i :: 0 <= i < |es| && es[i].cap == INF_WT && f[i] < INF_WT && arc == ArcOf(es[i], reversed)
  }

  /** The unsaturated edges of infinite capacity, forwards or reversed. */
  method InfiniteArcs<V(==)>(es: seq<Edge<V>>, f: seq<int>, reversed: bool) returns (arcs: seq<(V, V)>)
    requires |f| == |es|
    ensures forall k :: 0 <= k < |arcs| ==> HasInfiniteArc(es, f, reversed, arcs[k])
    ensures forall i :: 0 <= i < |es| && es[i].cap == INF_WT && f[i] < INF_WT ==> ArcOf(es[i], reversed) in arcs
  {
    arcs := [];
    for i := 0 to |es|
      invariant forall k :: 0 <= k < |arcs| ==> HasInfiniteArc(es, f, reversed, arcs[k])
      invariant forall j :: 0 <= j < i && es[j].cap == INF_WT && f[j] < INF_WT ==> ArcOf(es[j], reversed) in arcs
    {
      if es[i].cap == INF_WT && f[i] < INF_WT {
        assert HasInfiniteArc(es, f, reversed, ArcOf(es[i], reversed));
        arcs := arcs + [ArcOf(es[i], reversed)];
      }
    }
  }

  /** `q` is closed under the unsaturated edges of infinite capacity, forwards or reversed. */
  ghost predicate InfClosed<V>(es: seq<Edge<V>>, f: seq<int>, reversed: bool, q: set<V>)
    requires |f| == |es|
  {
    forall i :: 0 <= i < |es| && es[i].cap == INF_WT && f[i] < INF_WT ==>
      ArcOf(es[i], reversed).0 in q ==> ArcOf(es[i], reversed).1 in q
  }

  /** `r` is exactly what such edges reach from `start`. */
  ghost predicate InfReach<V(!new)>(es: seq<Edge<V>>, f: seq<int>, reversed: bool, start: V, r: set<V>)
    requires |f| == |es|
  {
    && start in r && InfClosed(es, f, reversed, r)
    && forall q: set<V> :: start in q && InfClosed(es, f, reversed, q) ==> r <= q
  }

  method InfiniteVisit<V(==,!new)>(net: Network<V>, flow: seq<int>, reversed: bool, start: V) returns (r: set<V>)
    requires net.Valid() && |flow| == |net.edges| && start in net.verts
    ensures InfReach(net.edges, flow, reversed, start, r) && r <= net.verts
  {
    var arcs := InfiniteArcs(net.edges, flow, reversed);
    r := DepthFirstVisit(net.verts, arcs, start);
    forall i | 0 <= i < |net.edges| && net.edges[i].cap == INF_WT && flow[i] < INF_WT
      ensures ArcOf(net.edges[i], reversed).0 in r ==> ArcOf(net.edges[i], reversed).1 in r
    {
      assert ArcOf(net.edges[i], reversed) in arcs;
    }
    forall q: set<V> | start in q && InfClosed(net.edges, flow, reversed, q) ensures r <= q {
      forall k | 0 <= k < |arcs| ensures arcs[k].0 in q ==> arcs[k].1 in q {
        assert HasInfiniteArc(net.edges, flow, reversed, arcs[k]);
      }
      assert ArcClosed(arcs, q);
    }
  }

  // ----- Topological order of the base graph -----

  ghost predicate Increasing<V>(adj: seq<Edge<V>>, rank: V -> int) {
    forall i :: 0 <= i < |adj| ==> rank(adj[i].src) < rank(adj[i].dst)
  }

  ghost predicate Rankable<V(!new)>(adj: seq<Edge<V>>) { exists rank: V -> int :: Increasing(adj, rank) }

  /** A rank that grows along every base edge, with the source below and the sink above
      everything else. It exists exactly when the base graph is acyclic, nothing enters the
      source and nothing leaves the sink. */
  ghost predicate Layered<V>(adj: seq<Edge<V>>, verts: set<V>, source: V, sink: V, rank: V -> int) {
    && Increasing(adj, rank)
    && (forall v :: v in verts && v != source ==> rank(source) < rank(v))
    && (forall v :: v in verts && v != sink ==> rank(v) < rank(sink))
  }

  predicate Ready<V(==)>(adj: seq<Edge<V>>, placed: set<V>, v: V) {
    forall i :: 0 <= i < |adj| && adj[i].src == v ==> adj[i].dst in placed
  }

  /** Positions in the order that `boost::topological_sort` appends to a list: successors come
      first. `Cyclic` models the exception it throws on a cyclic graph. */
  datatype Order<V> = Cyclic | Positions(pos: map<V, nat>)

  /** Distinct positions that fall along every edge. */
  ghost predicate IsOrder<V>(verts: set<V>, adj: seq<Edge<V>>, pos: map<V, nat>) {
    && pos.Keys == verts && EdgesWithin(adj, verts)
    && (forall u, v :: u in verts && v in verts && u != v ==> pos[u] != pos[v])
    && forall i :: 0 <= i < |adj| ==> pos[adj[i].dst] < pos[adj[i].src]
  }

  method TopologicalSort<V(==,!new)>(verts: set<V>, adj: seq<Edge<V>>) returns (order: Order<V>)
    requires forall i :: 0 <= i < |adj| ==> adj[i].src in verts && adj[i].dst in verts
    ensures order.Positions? ==> IsOrder(verts, adj, order.pos) && forall v :: v in verts ==> order.pos[v] < |verts|
    ensures order.Cyclic? ==> forall rank: V -> int :: !Increasing(adj, rank)
  {
    var placed: set<V> := {};
    var pos: map<V, nat> := map[];
    while placed != verts
      invariant placed <= verts && pos.Keys == placed && |placed| <= |verts|
      invariant forall v :: v in placed ==> pos[v] < |placed|
      invariant forall u, v :: u in placed && v in placed && u != v ==> pos[u] != pos[v]
      invariant forall i :: 0 <= i < |adj| && adj[i].src in placed ==>
        adj[i].dst in placed && pos[adj[i].dst] < pos[adj[i].src]
      decreases |verts| - |placed|
    {
      var ready := set v | v in verts - placed && Ready(adj, placed, v);
      if ready == {} {
        assert forall v :: v in verts - placed ==> v !in ready;
        forall rank: V -> int ensures !Increasing(adj, rank) {
          NoRankWithoutReady(verts, placed, adj, rank);
        }
        return Cyclic;
      }
      var v :| v in ready;
      CardinalityBound(placed + {v}, verts);
      pos := pos[v := |placed|];
      placed := placed + {v};
    }
    order := Positions(pos);
  }

  ghost predicate Highest<V>(s: set<V>, rank: V -> int, v: V) {
    v in s && forall u :: u in s ==> rank(u) <= rank(v)
  }

  lemma {:induction false} SomeHighest<V>(s: set<V>, rank: V -> int)
    requires s != {}
    ensures exists v :: v in s && Highest(s, rank, v)
    decreases |s|
  {
    var x :| x in s;
    if s == {x} {
      assert Highest(s, rank, x);
    } else {
      SomeHighest(s - {x}, rank);
      var y :| y in s - {x} && Highest(s - {x}, rank, y);
      assert Highest(s, rank, if rank(x) <= rank(y) then y else x);
    }
  }

  lemma NoRankWithoutReady<V>(verts: set<V>, placed: set<V>, adj: seq<Edge<V>>, rank: V -> int)
    requires placed <= verts && placed != verts
    requires forall i :: 0 <= i < |adj| ==> adj[i].src in verts && adj[i].dst in verts
    requires forall v :: v in verts - placed ==> !Ready(adj, placed, v)
    ensures !Increasing(adj, rank)
  {
    assert placed + (verts - placed) == verts;
    SomeHighest(verts - placed, rank);
    var v :| v in verts - placed && Highest(verts - placed, rank, v);
    assert !Ready(adj, placed, v);
  }

  function Height<V(==)>(pos: map<V, nat>, v: V): int { if v in pos then -(pos[v] as int) else 0 }

  /** A topological order of the raised edges ranks the edges as given. */
  lemma OrderRanksBase<V(!new)>(verts: set<V>, base: seq<Edge<V>>, adj: seq<Edge<V>>, falseEdges: seq<Edge<V>>,
      pos: map<V, nat>)
    requires pos.Keys == verts && EdgesWithin(adj, verts) && Raised(falseEdges + base, falseEdges + adj)
    requires forall i :: 0 <= i < |adj| ==> pos[adj[i].dst] < pos[adj[i].src]
    ensures Rankable(base)
  {
    var rank := (v: V) => Height(pos, v);
    forall i | 0 <= i < |base| ensures rank(base[i].src) < rank(base[i].dst) {
      assert (falseEdges + base)[|falseEdges| + i] == base[i] && (falseEdges + adj)[|falseEdges| + i] == adj[i];
    }
    assert Increasing(base, rank);
  }

  // ----- Which vertex is chosen -----

  /** The base edges lead from `a` to `b` in `n` steps. */
  ghost predicate Leads<V(!new)>(adj: seq<Edge<V>>, a: V, b: V, n: nat) {
    if n == 0 then a == b else exists i :: 0 <= i < |adj| && adj[i].src == a && Leads(adj, adj[i].dst, b, n - 1)
  }

  lemma {:induction false} PositionsFall<V(!new)>(adj: seq<Edge<V>>, pos: map<V, nat>, a: V, b: V, n: nat)
    requires forall i :: 0 <= i < |adj| ==> adj[i].src in pos && adj[i].dst in pos
    requires forall i :: 0 <= i < |adj| ==> pos[adj[i].dst] < pos[adj[i].src]
    requires a in pos && Leads(adj, a, b, n)
    ensures b in pos && pos[b] <= pos[a] && (n > 0 ==> pos[b] < pos[a])
    decreases n
  {
    if n > 0 {
      var i :| 0 <= i < |adj| && adj[i].src == a && Leads(adj, adj[i].dst, b, n - 1);
      PositionsFall(adj, pos, adj[i].dst, b, n - 1);
    }
  }

  /** Of the eligible heads the one pinned to the source comes last in program order: no other is
      behind it. Of the eligible tails the one pinned to the sink comes first. */
  lemma PinIsExtreme<V(!new)>(adj: seq<Edge<V>>, s: set<V>, pos: map<V, nat>, toSource: bool, terminal: V,
      blocked: set<V>, v: V, i: int, n: nat)
    requires forall i :: 0 <= i < |adj| ==> adj[i].src in pos && adj[i].dst in pos
    requires forall i :: 0 <= i < |adj| ==> pos[adj[i].dst] < pos[adj[i].src]
    requires v in pos && IsExtreme(adj, s, pos, toSource, terminal, blocked, v)
    requires 0 <= i < |adj| && Eligible(adj, s, adj[i], toSource, terminal, blocked)
    ensures toSource && Leads(adj, v, adj[i].dst, n) ==> n == 0
    ensures !toSource && Leads(adj, adj[i].src, v, n) ==> n == 0
  {
    if toSource && Leads(adj, v, adj[i].dst, n) {
      PositionsFall(adj, pos, v, adj[i].dst, n);
    }
    if !toSource && Leads(adj, adj[i].src, v, n) {
      PositionsFall(adj, pos, adj[i].src, v, n);
    }
  }

  // ----- Pinning -----

  ghost predicate EdgesWithin<V>(es: seq<Edge<V>>, verts: set<V>) {
    forall i :: 0 <= i < |es| ==> es[i].src in verts && es[i].dst in verts
  }

  ghost predicate CapacitiesValid<V>(es: seq<Edge<V>>) {
    forall i :: 0 <= i < |es| ==> 0 < es[i].cap <= INF_WT
  }

  ghost predicate DistinctPairs<V>(adj: seq<Edge<V>>) {
    forall i, j :: 0 <= i < j < |adj| ==> adj[i].src != adj[j].src || adj[i].dst != adj[j].dst
  }

  /** `more` is `es` with some capacities raised to infinity and some infinite edges added. */
  ghost predicate Raised<V>(es: seq<Edge<V>>, more: seq<Edge<V>>) {
    && |es| <= |more|
    && (forall i :: 0 <= i < |es| ==> more[i].src == es[i].src && more[i].dst == es[i].dst)
    && (forall i :: 0 <= i < |es| ==> more[i].cap == es[i].cap || (es[i].cap <= INF_WT && more[i].cap == INF_WT))
    && (forall i :: |es| <= i < |more| ==> more[i].cap == INF_WT)
  }

  /** No edge of infinite capacity leaves `s`. */
  ghost predicate NoInfiniteEdgeLeaves<V>(es: seq<Edge<V>>, s: set<V>) {
    forall i :: 0 <= i < |es| && es[i].src in s && es[i].dst !in s ==> es[i].cap < INF_MIN
  }

  ghost predicate Pinned<V>(adj: seq<Edge<V>>, a: V, b: V) {
    Edge(a, b, INF_WT) in adj
  }

  ghost function CollapsedCap<V>(e: Edge<V>, part: set<V>, a: V, b: V): nat {
    if (e.src in part && e.dst in part) || (e.src == a && e.dst == b) then INF_WT else e.cap
  }

  /** `r` is `adj` with the edges inside `part` and the edge `a -> b` raised to infinity. */
  ghost predicate Collapsed<V>(adj: seq<Edge<V>>, part: set<V>, a: V, b: V, r: seq<Edge<V>>) {
    && |adj| <= |r|
    && (forall i :: 0 <= i < |adj| ==> r[i].src == adj[i].src && r[i].dst == adj[i].dst)
    && (forall i :: 0 <= i < |adj| ==> r[i].cap == CollapsedCap(adj[i], part, a, b))
    && (forall i :: |adj| <= i < |r| ==> r[i] == Edge(a, b, INF_WT))
  }

  /** Raise every edge inside `part` to infinity and set the edge `a -> b` to infinity. */
  method Collapse<V(==,!new)>(adj: seq<Edge<V>>, part: set<V>, a: V, b: V) returns (r: seq<Edge<V>>)
    requires DistinctPairs(adj) && CapacitiesValid(adj)
    ensures Raised(adj, r) && DistinctPairs(r) && CapacitiesValid(r)
    ensures Pinned(r, a, b)
    ensures Collapsed(adj, part, a, b, r)
    ensures forall u, v :: Pinned(adj, u, v) ==> Pinned(r, u, v)
  {
    r := [];
    var found := false;
    for i := 0 to |adj|
      invariant |r| == i
      invariant forall k :: 0 <= k < i ==> r[k].src == adj[k].src && r[k].dst == adj[k].dst
      invariant forall k :: 0 <= k < i ==> r[k].cap == CollapsedCap(adj[k], part, a, b)
      invariant found <==> exists k :: 0 <= k < i && adj[k].src == a && adj[k].dst == b
    {
      var e := adj[i];
      if e.src in part && e.dst in part && e.cap < INF_WT {
        e := e.(cap := INF_WT);
      }
      if e.src == a && e.dst == b {
        e, found := e.(cap := INF_WT), true;
      }
      r := r + [e];
    }
    if found {
      var k :| 0 <= k < |adj| && adj[k].src == a && adj[k].dst == b;
      assert r[k] == Edge(a, b, INF_WT);
    } else {
      r := r + [Edge(a, b, INF_WT)];
      assert r[|adj|] == Edge(a, b, INF_WT);
    }
    forall u, v | Pinned(adj, u, v) ensures Pinned(r, u, v) {
      var k :| 0 <= k < |adj| && adj[k] == Edge(u, v, INF_WT);
      assert r[k] == Edge(u, v, INF_WT);
    }
  }

  function OutDegree<V(==)>(adj: seq<Edge<V>>, v: V): nat {
    if adj == [] then 0 else OutDegree(adj[1..], v) + if adj[0].src == v then 1 else 0
  }

  /** The cut edge `e` may be used to pin its head (`toSource`) or its tail. */
  predicate Eligible<V(==)>(adj: seq<Edge<V>>, s: set<V>, e: Edge<V>, toSource: bool, terminal: V, blocked: set<V>) {
    var v := if toSource then e.dst else e.src;
    e.src in s && e.dst !in s && v != terminal && OutDegree(adj, v) == 1 && v !in blocked
  }

  /** Exactly one edge leaves `v`. */
  ghost predicate OneLeaves<V>(adj: seq<Edge<V>>, v: V) {
    exists i :: 0 <= i < |adj| && adj[i].src == v && forall j :: 0 <= j < |adj| && adj[j].src == v ==> j == i
  }

  lemma {:induction false} OutDegreeNone<V>(adj: seq<Edge<V>>, v: V)
    ensures OutDegree(adj, v) == 0 <==> forall i :: 0 <= i < |adj| ==> adj[i].src != v
    decreases |adj|
  {
    if adj != [] {
      OutDegreeNone(adj[1..], v);
      assert forall i :: 1 <= i < |adj| ==> adj[i] == adj[1..][i-1];
    }
  }

  lemma {:induction false} OutDegreeOne<V>(adj: seq<Edge<V>>, v: V)
    ensures OutDegree(adj, v) == 1 <==> OneLeaves(adj, v)
    decreases |adj|
  {
    if adj != [] {
      var rest := adj[1..];
      OutDegreeOne(rest, v);
      OutDegreeNone(rest, v);
      assert forall i :: 1 <= i < |adj| ==> adj[i] == rest[i-1];
      if OneLeaves(rest, v) {
        var i :| 0 <= i < |rest| && rest[i].src == v && forall j :: 0 <= j < |rest| && rest[j].src == v ==> j == i;
        assert adj[i+1].src == v;
      }
    }
  }

  /** A cut edge may be used for pinning exactly when the end that would move is not the terminal,
      is on no infinite path, and has a single edge out. */
  lemma EligibleIff<V>(adj: seq<Edge<V>>, s: set<V>, e: Edge<V>, toSource: bool, terminal: V, blocked: set<V>)
    ensures Eligible(adj, s, e, toSource, terminal, blocked) <==>
      && e.src in s && e.dst !in s
      && if toSource then e.dst != terminal && e.dst !in blocked && OneLeaves(adj, e.dst)
         else e.src != terminal && e.src !in blocked && OneLeaves(adj, e.src)
  {
    OutDegreeOne(adj, if toSource then e.dst else e.src);
  }

  ghost predicate NoneEligible<V>(adj: seq<Edge<V>>, s: set<V>, toSource: bool, terminal: V, blocked: set<V>) {
    forall i :: 0 <= i < |adj| ==> !Eligible(adj, s, adj[i], toSource, terminal, blocked)
  }

  function PosOf<V(==)>(pos: map<V, nat>, v: V): nat { if v in pos then pos[v] else 0 }

  /** `v` has the smallest position of the eligible heads, or the largest of the eligible tails. */
  ghost predicate IsExtreme<V>(adj: seq<Edge<V>>, s: set<V>, pos: map<V, nat>, toSource: bool, terminal: V,
      blocked: set<V>, v: V)
  {
    forall i :: 0 <= i < |adj| && Eligible(adj, s, adj[i], toSource, terminal, blocked) ==>
      if toSource then PosOf(pos, v) <= PosOf(pos, adj[i].dst) else PosOf(pos, adj[i].src) <= PosOf(pos, v)
  }

  /** `v` is the eligible end of a cut edge that the scan settles on. */
  ghost predicate IsPin<V>(adj: seq<Edge<V>>, s: set<V>, pos: map<V, nat>, toSource: bool, terminal: V,
      blocked: set<V>, v: V)
  {
    && v in pos && v != terminal && v !in blocked
    && (exists i :: 0 <= i < |adj| && Eligible(adj, s, adj[i], toSource, terminal, blocked)
                    && v == if toSource then adj[i].dst else adj[i].src)
    && IsExtreme(adj, s, pos, toSource, terminal, blocked, v)
  }

  datatype Choice<V> = Nothing | Chosen(v: V)

  /** Scan the cut edges for the vertex to pin. Towards the source the smallest position wins,
      towards the sink the largest. */
  method ChoosePin<V(==)>(adj: seq<Edge<V>>, s: set<V>, pos: map<V, nat>, toSource: bool, terminal: V, blocked: set<V>)
      returns (c: Choice<V>)
    requires forall i :: 0 <= i < |adj| ==> adj[i].src in pos && adj[i].dst in pos
    ensures c.Nothing? ==> NoneEligible(adj, s, toSource, terminal, blocked)
    ensures c.Chosen? ==>
      IsPin(adj, s, pos, toSource, terminal, blocked, c.v) && if toSource then c.v !in s else c.v in s
  {
    c := Nothing;
    for k := 0 to |adj|
      invariant c.Nothing? ==> forall i :: 0 <= i < k ==> !Eligible(adj, s, adj[i], toSource, terminal, blocked)
      invariant c.Chosen? ==>
        && c.v in pos && c.v != terminal && c.v !in blocked
        && (if toSource then c.v !in s else c.v in s)
        && (exists i :: 0 <= i < k && Eligible(adj, s, adj[i], toSource, terminal, blocked)
                        && c.v == if toSource then adj[i].dst else adj[i].src)
        && forall i :: 0 <= i < k && Eligible(adj, s, adj[i], toSource, terminal, blocked) ==>
             if toSource then PosOf(pos, c.v) <= PosOf(pos, adj[i].dst) else PosOf(pos, adj[i].src) <= PosOf(pos, c.v)
    {
      if Eligible(adj, s, adj[k], toSource, terminal, blocked) {
        var v := if toSource then adj[k].dst else adj[k].src;
        if c.Nothing? || (if toSource then pos[v] < pos[c.v] else pos[c.v] < pos[v]) {
          c := Chosen(v);
        }
      }
    }
  }

  // ----- Cuts of raised networks -----

  lemma {:induction false} RaisedCutUpTo<V>(es: seq<Edge<V>>, more: seq<Edge<V>>, s: set<V>, n: nat)
    requires Raised(es, more) && n <= |es|
    ensures CutCapUpTo(es, s, n) <= CutCapUpTo(more, s, n)
    ensures NoInfiniteEdgeLeaves(more, s) ==> CutCapUpTo(es, s, n) == CutCapUpTo(more, s, n)
  {
    if n > 0 { RaisedCutUpTo(es, more, s, n - 1); }
  }

  lemma {:induction false} RaisedCutTail<V>(es: seq<Edge<V>>, more: seq<Edge<V>>, s: set<V>, n: nat)
    requires Raised(es, more) && |es| <= n <= |more|
    ensures CutCapUpTo(more, s, |es|) <= CutCapUpTo(more, s, n)
    ensures NoInfiniteEdgeLeaves(more, s) ==> CutCapUpTo(more, s, |es|) == CutCapUpTo(more, s, n)
  {
    if n > |es| { RaisedCutTail(es, more, s, n - 1); }
  }

  /** Pinning never makes a cut cheaper, and leaves the price of a cut alone when it crosses
      nothing infinite. */
  lemma RaisedCut<V>(es: seq<Edge<V>>, more: seq<Edge<V>>, s: set<V>)
    requires Raised(es, more)
    ensures CutCap(es, s) <= CutCap(more, s)
    ensures NoInfiniteEdgeLeaves(more, s) ==> CutCap(es, s) == CutCap(more, s)
  {
    RaisedCutUpTo(es, more, s, |es|);
    RaisedCutTail(es, more, s, |more|);
  }

  lemma FiniteCutHasNoInfiniteEdge<V>(es: seq<Edge<V>>, s: set<V>)
    requires CutCap(es, s) < INF_MIN
    ensures NoInfiniteEdgeLeaves(es, s)
  {
    forall i | 0 <= i < |es| && es[i].src in s && es[i].dst !in s ensures es[i].cap < INF_MIN {
      CrossingEdgeBelowCut(es, s, i, |es|);
    }
  }

  // ----- Termination -----

  ghost function UnpinnedSource<V>(adj: seq<Edge<V>>, verts: set<V>, source: V): set<V> {
    set v | v in verts && !Pinned(adj, source, v)
  }

  ghost function UnpinnedSink<V>(adj: seq<Edge<V>>, verts: set<V>, sink: V): set<V> {
    set v | v in verts && !Pinned(adj, v, sink)
  }

  ghost function Unpinned<V>(adj: seq<Edge<V>>, verts: set<V>, source: V, sink: V): nat {
    |UnpinnedSource(adj, verts, source)| + |UnpinnedSink(adj, verts, sink)|
  }

  lemma ProperSubsetSmaller<V>(a: set<V>, b: set<V>, x: V)
    requires a <= b && x in b && x !in a
    ensures |a| < |b|
  {
    CardinalityBound(a, b - {x});
  }

  /** Pinning a vertex that was not pinned before shrinks the number of unpinned vertices. */
  lemma PinningShrinks<V>(adj: seq<Edge<V>>, r: seq<Edge<V>>, verts: set<V>, source: V, sink: V, a: V, b: V)
    requires forall u, v :: Pinned(adj, u, v) ==> Pinned(r, u, v)
    requires Pinned(r, a, b) && !Pinned(adj, a, b) && a in verts && b in verts
    requires a == source || b == sink
    ensures Unpinned(r, verts, source, sink) < Unpinned(adj, verts, source, sink)
  {
    CardinalityBound(UnpinnedSource(r, verts, source), UnpinnedSource(adj, verts, source));
    CardinalityBound(UnpinnedSink(r, verts, sink), UnpinnedSink(adj, verts, sink));
    if a == source {
      ProperSubsetSmaller(UnpinnedSource(r, verts, source), UnpinnedSource(adj, verts, source), b);
    } else {
      ProperSubsetSmaller(UnpinnedSink(r, verts, sink), UnpinnedSink(adj, verts, sink), a);
    }
  }

  /** An edge that crosses a cheap cut is not pinned. */
  lemma CrossingIsUnpinned<V>(falseEdges: seq<Edge<V>>, adj: seq<Edge<V>>, s: set<V>, a: V, b: V)
    requires CutCap(falseEdges + adj, s) < INF_MIN && a in s && b !in s
    ensures !Pinned(adj, a, b)
  {
    FiniteCutHasNoInfiniteEdge(falseEdges + adj, s);
    forall k | 0 <= k < |adj| ensures adj[k] != Edge(a, b, INF_WT) {
      assert (falseEdges + adj)[|falseEdges| + k] == adj[k];
    }
  }

  // ----- The loop -----

  /** Every constraint "if the second is in the source stage, so is the first" is backed by an
      infinite false edge, or its second vertex is the sink. */
  ghost predicate ConstraintsBacked<V>(constraints: seq<(V, V)>, falseEdges: seq<Edge<V>>, sink: V) {
    forall k :: 0 <= k < |constraints| ==>
      constraints[k].1 == sink || Edge(constraints[k].1, constraints[k].0, INF_WT) in falseEdges
  }

  ghost predicate SolverContract<V(!new)>(solver: (nat, Network<V>) -> seq<int>) {
    forall k: nat, net: Network<V> {:trigger IsMaxFlow(net, solver(k, net))} ::
      net.Valid() ==> IsMaxFlow(net, solver(k, net))
  }

  /** A successful cut is cheapest in the original network among the cuts that respect the
      pins, and cheapest of all when nothing had to be pinned. */
  lemma CheapestAmongPinned<V(!new)>(outcome: Outcome<V>, verts: set<V>, base: seq<Edge<V>>, pinned: seq<Edge<V>>,
      source: V, sink: V, falseEdges: seq<Edge<V>>, constraints: seq<(V, V)>, other: set<V>)
    requires outcome.Success? && Raised(falseEdges + base, pinned)
    requires Explained(outcome, verts, base, pinned, source, sink, falseEdges, constraints)
    requires IsCut(Network(verts, pinned, source, sink), other)
    requires NoInfiniteEdgeLeaves(pinned, other) || pinned == falseEdges + base
    ensures CutCap(falseEdges + base, outcome.sourceSet) <= CutCap(falseEdges + base, other)
  {
    RaisedCut(falseEdges + base, pinned, other);
  }

  /** What holds of the base edges in every round. */
  ghost predicate Reached<V(!new)>(verts: set<V>, base: seq<Edge<V>>, adj: seq<Edge<V>>, source: V, sink: V,
      falseEdges: seq<Edge<V>>) {
    && DistinctPairs(adj) && CapacitiesValid(adj) && EdgesWithin(adj, verts)
    && Raised(falseEdges + base, falseEdges + adj)
    && forall rank: V -> int :: Layered(base, verts, source, sink, rank) ==> Layered(adj, verts, source, sink, rank)
  }

  lemma RaisedAgain<V>(fe: seq<Edge<V>>, base: seq<Edge<V>>, adj: seq<Edge<V>>, next: seq<Edge<V>>)
    requires Raised(fe + base, fe + adj) && Raised(adj, next)
    ensures Raised(fe + base, fe + next)
  {
    forall i | 0 <= i < |fe + adj|
      ensures (fe + next)[i].src == (fe + adj)[i].src && (fe + next)[i].dst == (fe + adj)[i].dst
    {}
  }

  /** Pin the head of a cut edge to the source, unless no head is eligible. */
  method PinToSource<V(==,!new)>(verts: set<V>, ghost base: seq<Edge<V>>, adj: seq<Edge<V>>, source: V, sink: V,
      ghost falseEdges: seq<Edge<V>>, stage: set<V>, pos: map<V, nat>, blocked: set<V>)
      returns (c: Choice<V>, next: seq<Edge<V>>)
    requires source in verts && sink in verts && source in stage && sink !in stage && pos.Keys == verts
    requires Reached(verts, base, adj, source, sink, falseEdges) && CutCap(falseEdges + adj, stage) < INF_MIN
    ensures c.Chosen? ==>
      && Reached(verts, base, next, source, sink, falseEdges)
      && Unpinned(next, verts, source, sink) < Unpinned(adj, verts, source, sink)
      && IsPin(adj, stage, pos, true, sink, blocked, c.v) && Collapsed(adj, stage, source, c.v, next)
    ensures c.Nothing? ==> NoneEligible(adj, stage, true, sink, blocked)
  {
    next := adj;
    c := ChoosePin(adj, stage, pos, true, sink, blocked);
    if c.Nothing? {
      return;
    }
    CrossingIsUnpinned(falseEdges, adj, stage, source, c.v);
    next := Collapse(adj, stage, source, c.v);
    PinningShrinks(adj, next, verts, source, sink, source, c.v);
    RaisedAgain(falseEdges, base, adj, next);
  }

  /** Pin the tail of a cut edge to the sink, unless no tail is eligible. */
  method PinToSink<V(==,!new)>(verts: set<V>, ghost base: seq<Edge<V>>, adj: seq<Edge<V>>, source: V, sink: V,
      ghost falseEdges: seq<Edge<V>>, stage: set<V>, pos: map<V, nat>, blocked: set<V>)
      returns (c: Choice<V>, next: seq<Edge<V>>)
    requires source in verts && sink in verts && source in stage && sink !in stage && pos.Keys == verts
    requires Reached(verts, base, adj, source, sink, falseEdges) && CutCap(falseEdges + adj, stage) < INF_MIN
    ensures c.Chosen? ==>
      && Reached(verts, base, next, source, sink, falseEdges)
      && Unpinned(next, verts, source, sink) < Unpinned(adj, verts, source, sink)
      && IsPin(adj, stage, pos, false, source, blocked, c.v) && Collapsed(adj, verts - stage, c.v, sink, next)
    ensures c.Nothing? ==> NoneEligible(adj, stage, false, source, blocked)
  {
    next := adj;
    c := ChoosePin(adj, stage, pos, false, source, blocked);
    if c.Nothing? {
      return;
    }
    CrossingIsUnpinned(falseEdges, adj, stage, c.v, sink);
    next := Collapse(adj, verts - stage, c.v, sink);
    PinningShrinks(adj, next, verts, source, sink, c.v, sink);
    RaisedAgain(falseEdges, base, adj, next);
  }

  /** The round found the source stage `s`, and no edge of its cut may be used for pinning:
      wherever the next vertex could go, an infinite path stands in the way, or it is the
      terminal, or it has other uses. */
  ghost predicate Stuck<V(!new)>(net: Network<V>, adj: seq<Edge<V>>, flow: seq<int>, s: set<V>, toSource: bool,
      blocked: set<V>) {
    && IsMaxFlow(net, flow) && IsCut(net, s) && IsResidualReach(net, flow, s) && CutCap(net.edges, s) < INF_MIN
    && InfReach(net.edges, flow, toSource, if toSource then net.sink else net.source, blocked)
    && NoneEligible(adj, s, toSource, if toSource then net.sink else net.source, blocked)
  }

  ghost predicate SomewhereStuck<V(!new)>(net: Network<V>, falseEdges: seq<Edge<V>>, toSource: bool) {
    && |falseEdges| <= |net.edges|
    && exists flow, s, blocked :: Stuck(net, net.edges[|falseEdges|..], flow, s, toSource, blocked)
  }

  /** Why a round stops: what each result says about the network `edges` of that round. */
  ghost predicate Explained<V(!new)>(outcome: Outcome<V>, verts: set<V>, base: seq<Edge<V>>, edges: seq<Edge<V>>,
      source: V, sink: V, falseEdges: seq<Edge<V>>, constraints: seq<(V, V)>)
  {
    match outcome
    case Success(s) =>
      // a cheapest cut of this network, at the price it has in the original one
      && IsCut(Network(verts, falseEdges + base, source, sink), s)
      && NoInfiniteEdgeLeaves(edges, s)
      && CutCap(edges, s) == CutCap(falseEdges + base, s) < INF_MIN
      && Cheapest(verts, edges, source, sink, CutCap(edges, s))
    case InfFlow => Cheapest(verts, edges, source, sink, INF_MIN)
    case NotPipelineable => !ConstraintsBacked(constraints, falseEdges, sink)
    case NotADag => forall rank: V -> int :: !Layered(base, verts, source, sink, rank)
    case SourceInfPath => SomewhereStuck(Network(verts, edges, source, sink), falseEdges, true)
    case SinkInfPath => SomewhereStuck(Network(verts, edges, source, sink), falseEdges, false)
  }

  lemma StuckSomewhere<V(!new)>(net: Network<V>, falseEdges: seq<Edge<V>>, adj: seq<Edge<V>>, flow: seq<int>, s: set<V>,
      toSource: bool, blocked: set<V>)
    requires net.edges == falseEdges + adj && Stuck(net, adj, flow, s, toSource, blocked)
    ensures SomewhereStuck(net, falseEdges, toSource)
  {
    assert net.edges[|falseEdges|..] == adj;
  }

  // ----- Pinning never makes the flow infinite -----

  /** Some cut of the network is left by no edge of infinite capacity. */
  ghost predicate StaysFinite<V(!new)>(verts: set<V>, edges: seq<Edge<V>>, source: V, sink: V) {
    exists s :: IsCut(Network(verts, edges, source, sink), s) && Uncrossed(edges, s)
  }

  ghost predicate Uncrossed<V>(es: seq<Edge<V>>, s: set<V>) {
    forall i :: 0 <= i < |es| && es[i].src in s && es[i].dst !in s ==> es[i].cap != INF_WT
  }

  /** A finite maximum flow fills no edge of infinite capacity: true of a solver that leaves no
      flow going round in circles. */
  ghost predicate AlwaysLeavesInfinite<V(!new)>(solver: (nat, Network<V>) -> seq<int>) {
    forall k: nat, net: Network<V> {:trigger IsMaxFlow(net, solver(k, net))} ::
      net.Valid() && IsMaxFlow(net, solver(k, net)) && FlowValue(net, solver(k, net)) < INF_MIN ==>
        FillsNoInfinite(net.edges, solver(k, net))
  }

  ghost predicate FillsNoInfinite<V>(es: seq<Edge<V>>, f: seq<int>) {
    |f| == |es| && forall i :: 0 <= i < |es| && es[i].cap == INF_WT ==> f[i] < INF_WT
  }

  /** What has an infinite path to the sink lies behind every residual cut. */
  lemma BlockedIsBehind<V(!new)>(net: Network<V>, flow: seq<int>, stage: set<V>, blocked: set<V>)
    requires net.Valid() && |flow| == |net.edges| && IsResidualReach(net, flow, stage) && net.sink !in stage
    requires InfReach(net.edges, flow, true, net.sink, blocked)
    ensures blocked <= net.verts - stage
  {
    var q := net.verts - stage;
    assert InfClosed(net.edges, flow, true, q);
  }

  /** What has an infinite path from the source lies before every residual cut. */
  lemma BlockedIsBefore<V(!new)>(net: Network<V>, flow: seq<int>, stage: set<V>, blocked: set<V>)
    requires net.Valid() && |flow| == |net.edges| && IsResidualReach(net, flow, stage)
    requires InfReach(net.edges, flow, false, net.source, blocked)
    ensures blocked <= stage
  {
    assert InfClosed(net.edges, flow, false, stage);
  }

  lemma SourcePinStaysFinite<V(!new)>(net: Network<V>, fe: seq<Edge<V>>, adj: seq<Edge<V>>, next: seq<Edge<V>>,
      flow: seq<int>, stage: set<V>, blocked: set<V>, v: V)
    requires net.Valid() && net.edges == fe + adj && FillsNoInfinite(net.edges, flow)
    requires IsResidualReach(net, flow, stage) && net.sink !in stage
    requires InfReach(net.edges, flow, true, net.sink, blocked)
    requires v !in blocked && v in net.verts && Collapsed(adj, stage, net.source, v, next)
    ensures StaysFinite(net.verts, fe + next, net.source, net.sink)
  {
    BlockedIsBehind(net, flow, stage, blocked);
    var s := net.verts - blocked;
    forall i | 0 <= i < |fe + next| && (fe + next)[i].src in s && (fe + next)[i].dst !in s &&
      (fe + next)[i].dst in blocked
      ensures (fe + next)[i].cap != INF_WT
    {
      if i < |fe| + |adj| {
        assert (fe + next)[i].src == net.edges[i].src && (fe + next)[i].dst == net.edges[i].dst;
        assert net.edges[i].cap != INF_WT;
      }
    }
    forall i | 0 <= i < |fe + next| && (fe + next)[i].src in s && (fe + next)[i].dst !in s
      ensures (fe + next)[i].dst in blocked
    {
      if i < |fe| + |adj| {
        assert (fe + next)[i].dst == net.edges[i].dst && net.edges[i].dst in net.verts;
      }
    }
    assert IsCut(Network(net.verts, fe + next, net.source, net.sink), s) && Uncrossed(fe + next, s);
  }

  lemma SinkPinStaysFinite<V(!new)>(net: Network<V>, fe: seq<Edge<V>>, adj: seq<Edge<V>>, next: seq<Edge<V>>,
      flow: seq<int>, stage: set<V>, blocked: set<V>, v: V)
    requires net.Valid() && net.edges == fe + adj && FillsNoInfinite(net.edges, flow)
    requires IsResidualReach(net, flow, stage) && IsCut(net, stage)
    requires InfReach(net.edges, flow, false, net.source, blocked)
    requires v !in blocked && v in net.verts && Collapsed(adj, net.verts - stage, v, net.sink, next)
    ensures StaysFinite(net.verts, fe + next, net.source, net.sink)
  {
    BlockedIsBefore(net, flow, stage, blocked);
    forall i | 0 <= i < |fe + next| && (fe + next)[i].src in blocked && (fe + next)[i].dst !in blocked
      ensures (fe + next)[i].cap != INF_WT
    {
      if i < |fe| + |adj| {
        assert (fe + next)[i].src == net.edges[i].src && (fe + next)[i].dst == net.edges[i].dst;
        assert net.edges[i].cap != INF_WT;
      }
    }
    assert IsCut(Network(net.verts, fe + next, net.source, net.sink), blocked) && Uncrossed(fe + next, blocked);
  }

  /** The capacities below infinity together. */
  ghost function FiniteTotal<V>(es: seq<Edge<V>>, n: nat): nat
    requires n <= |es|
  {
    if n == 0 then 0 else FiniteTotal(es, n - 1) + if es[n-1].cap == INF_WT then 0 else es[n-1].cap
  }

  lemma {:induction false} UncrossedIsCheap<V>(es: seq<Edge<V>>, s: set<V>, n: nat)
    requires Uncrossed(es, s) && n <= |es|
    ensures CutCapUpTo(es, s, n) <= FiniteTotal(es, n)
  {
    if n > 0 { UncrossedIsCheap(es, s, n - 1); }
  }

  lemma {:induction false} RaisedTotal<V>(es: seq<Edge<V>>, more: seq<Edge<V>>, n: nat)
    requires Raised(es, more) && n <= |more|
    ensures FiniteTotal(more, n) <= FiniteTotal(es, if n <= |es| then n else |es|)
  {
    if n > 0 { RaisedTotal(es, more, n - 1); }
  }

  /** Such a network has a finite cut, so its maximum flow is finite. */
  lemma StaysBelowInfinity<V(!new)>(verts: set<V>, es: seq<Edge<V>>, more: seq<Edge<V>>, source: V, sink: V)
    requires Raised(es, more) && FiniteTotal(es, |es|) < INF_MIN && StaysFinite(verts, more, source, sink)
    ensures !Cheapest(verts, more, source, sink, INF_MIN)
  {
    var s :| IsCut(Network(verts, more, source, sink), s) && Uncrossed(more, s);
    UncrossedIsCheap(more, s, |more|);
    RaisedTotal(es, more, |more|);
  }

  ghost function Capped<V>(es: seq<Edge<V>>): seq<Edge<V>> {
    seq(|es|, i requires 0 <= i < |es| => if es[i].cap == INF_WT then es[i].(cap := INF_MIN) else es[i])
  }

  lemma {:induction false} NetOutCapped<V>(es: seq<Edge<V>>, f: seq<int>, s: set<V>, n: nat)
    requires n <= |es| == |f|
    ensures NetOut(Capped(es), f, s, n) == NetOut(es, f, s, n)
  {
    if n > 0 { NetOutCapped(es, f, s, n - 1); }
  }

  lemma CappedFlow<V(!new)>(net: Network<V>, f: seq<int>)
    requires IsFlow(net.(edges := Capped(net.edges)), f)
    ensures IsFlow(net, f) && FlowValue(net, f) == FlowValue(net.(edges := Capped(net.edges)), f)
  {
    forall s: set<V> ensures NetOut(Capped(net.edges), f, s, |net.edges|) == NetOut(net.edges, f, s, |net.edges|) {
      NetOutCapped(net.edges, f, s, |net.edges|);
    }
  }

  lemma CappedClosed<V(!new)>(net: Network<V>, f: seq<int>, closed: set<V>)
    requires |f| == |net.edges| && CutCap(Capped(net.edges), closed) < INF_MIN
    requires ResidualClosed(Capped(net.edges), f, closed)
    ensures ResidualClosed(net.edges, f, closed)
  {
    var es := Capped(net.edges);
    FiniteCutHasNoInfiniteEdge(es, closed);
    forall i | 0 <= i < |es|
      ensures net.edges[i].src in closed && f[i] < net.edges[i].cap ==> net.edges[i].dst in closed
    {
      assert es[i].src in closed && es[i].dst !in closed ==> es[i].cap < INF_MIN;
    }
  }

  /** Some maximum flow fills no edge of infinite capacity unless the flow itself is infinite. */
  lemma GentleFlowExists<V(!new)>(net: Network<V>) returns (f: seq<int>)
    requires net.Valid()
    ensures IsMaxFlow(net, f)
    ensures FlowValue(net, f) < INF_MIN ==> FillsNoInfinite(net.edges, f)
  {
    var capped := net.(edges := Capped(net.edges));
    var g, closed := MaxFlowExists(capped);
    CappedFlow(net, g);
    if CutCap(capped.edges, closed) < INF_MIN {
      f := g;
      CappedClosed(net, g, closed);
    } else {
      FlowAcrossCut(capped, g, closed);
      NetOutOfClosedSet(capped.edges, g, closed, |g|);
      var cut;
      f, cut := MaxFlowExists(net);
      FlowAcrossCut(net, f, cut);
      NetOutOfClosedSet(net.edges, f, cut, |f|);
      WeakDuality(net, g, cut);
    }
  }

  ghost predicate Gentle<V(!new)>(net: Network<V>, f: seq<int>) {
    IsMaxFlow(net, f) && (FlowValue(net, f) < INF_MIN ==> FillsNoInfinite(net.edges, f))
  }

  ghost function SomeGentleFlow<V(!new)>(net: Network<V>): (f: seq<int>)
    ensures net.Valid() ==> Gentle(net, f)
  {
    if net.Valid() then
      assert exists f :: Gentle(net, f) by {
        var f := GentleFlowExists(net);
        assert Gentle(net, f);
      }
      var f :| Gentle(net, f); f
    else []
  }

  /** Both demands on the solver can be met together, so nothing here holds for want of one. */
  lemma SolverExists<V(!new)>() returns (solver: (nat, Network<V>) -> seq<int>)
    ensures SolverContract(solver) && AlwaysLeavesInfinite(solver)
  {
    solver := (k: nat, net: Network<V>) => SomeGentleFlow(net);
    forall k: nat, net: Network<V> | net.Valid() ensures Gentle(net, solver(k, net)) {
      assert Gentle(net, SomeGentleFlow(net));
    }
  }

  // ----- What a round sees and decides -----

  /** What the cutter is given. */
  datatype Problem<V> = Problem(verts: set<V>, base: seq<Edge<V>>, source: V, sink: V, falseEdges: seq<Edge<V>>,
                                weights: map<V, int>, constraints: seq<(V, V)>)
  {
    function Net(adj: seq<Edge<V>>): Network<V> { Network(verts, falseEdges + adj, source, sink) }

    function Terminal(toSource: bool): V { if toSource then sink else source }
  }

  /** The weights that the balance test is given: those of the stage, and zero for the rest. */
  function StageWeights<V(==)>(verts: set<V>, weights: map<V, int>, s: set<V>): map<V, int> {
    map v | v in verts :: if v in s && v in weights then weights[v] else 0
  }

  ghost predicate Violated<V>(constraints: seq<(V, V)>, s: set<V>) {
    exists k :: 0 <= k < |constraints| && constraints[k].0 !in s && constraints[k].1 in s
  }

  /** One round: the edges it runs on, the flow that the solver finds, and the stage; the order of
      the vertices, those that infinite paths bar, and the one it pins. */
  datatype Round<V> = Round(adj: seq<Edge<V>>, flow: seq<int>, stage: set<V>, pos: map<V, nat>, barred: set<V>,
                            pin: Choice<V>)

  /** The stage is what the flow leaves reachable, and the flow is finite. */
  ghost predicate SeesStage<V(!new)>(p: Problem<V>, r: Round<V>) {
    && |r.flow| == |p.Net(r.adj).edges|
    && IsResidualReach(p.Net(r.adj), r.flow, r.stage) && FlowValue(p.Net(r.adj), r.flow) < INF_MIN
  }

  /** Only a stage without violated constraint gets to the balance test; this is its answer. */
  ghost predicate Judged<V(!new)>(p: Problem<V>, r: Round<V>, k: nat, balance: (nat, map<V, int>) -> Verdict,
      verdict: Verdict) {
    && SeesStage(p, r) && !Violated(p.constraints, r.stage)
    && balance(k, StageWeights(p.verts, p.weights, r.stage)) == verdict
  }

  /** The barred vertices are those with an infinite path to the sink, or from the source. */
  ghost predicate Bars<V(!new)>(p: Problem<V>, r: Round<V>, toSource: bool) {
    |r.flow| == |p.Net(r.adj).edges| && InfReach(p.Net(r.adj).edges, r.flow, toSource, p.Terminal(toSource), r.barred)
  }

  /** No vertex can be pinned towards the source, or towards the sink. */
  ghost predicate CannotPin<V(!new)>(p: Problem<V>, r: Round<V>, toSource: bool) {
    Bars(p, r, toSource) && NoneEligible(r.adj, r.stage, toSource, p.Terminal(toSource), r.barred)
  }

  /** `next` is the network after the vertex is pinned and its side of the cut collapsed. */
  ghost predicate Pins<V(!new)>(p: Problem<V>, r: Round<V>, toSource: bool, next: seq<Edge<V>>) {
    && Bars(p, r, toSource) && IsOrder(p.verts, r.adj, r.pos) && r.pin.Chosen?
    && IsPin(r.adj, r.stage, r.pos, toSource, p.Terminal(toSource), r.barred, r.pin.v)
    && if toSource then Collapsed(r.adj, r.stage, p.source, r.pin.v, next)
       else Collapsed(r.adj, p.verts - r.stage, r.pin.v, p.sink, next)
  }

  /** Why the loop goes on from this round to one on `next`: a stage that is too small is pinned
      to the source, one that is too large to the sink. */
  ghost predicate GoesOn<V(!new)>(p: Problem<V>, r: Round<V>, k: nat, balance: (nat, map<V, int>) -> Verdict,
      next: seq<Edge<V>>)
  {
    || (Judged(p, r, k, balance, TooSmall) && Pins(p, r, true, next))
    || (Judged(p, r, k, balance, TooLarge) && Pins(p, r, false, next))
  }

  /** Why the loop ends in this round. */
  ghost predicate EndsIn<V(!new)>(p: Problem<V>, r: Round<V>, k: nat, balance: (nat, map<V, int>) -> Verdict,
      outcome: Outcome<V>)
  {
    match outcome
    case Success(s) => s == r.stage && Judged(p, r, k, balance, Balanced)
    case InfFlow => |r.flow| == |p.Net(r.adj).edges| && FlowValue(p.Net(r.adj), r.flow) >= INF_MIN
    case SourceInfPath => Judged(p, r, k, balance, TooSmall) && CannotPin(p, r, true)
    case SinkInfPath => Judged(p, r, k, balance, TooLarge) && CannotPin(p, r, false)
    case NotPipelineable => SeesStage(p, r) && Violated(p.constraints, r.stage)
    case NotADag => !Rankable(r.adj)
  }

  /** When a round may be followed by one on other edges, and when it may be the last. */
  type Next<!V> = (nat, Round<V>, seq<Edge<V>>) -> bool
  type Last<!V> = (nat, Round<V>, Outcome<V>) -> bool

  ghost function NextRule<V(!new)>(p: Problem<V>, balance: (nat, map<V, int>) -> Verdict): Next<V> {
    (k: nat, r, next) => GoesOn(p, r, k, balance, next)
  }

  ghost function LastRule<V(!new)>(p: Problem<V>, balance: (nat, map<V, int>) -> Verdict): Last<V> {
    (k: nat, r, outcome) => EndsIn(p, r, k, balance, outcome)
  }

  /** Round `i` uses the solver for round `i + 1`, and leads to the next one. */
  ghost predicate RunStep<V(!new)>(p: Problem<V>, run: seq<Round<V>>, i: nat, solver: (nat, Network<V>) -> seq<int>,
      next: Next<V>)
    requires i < |run|
  {
    && run[i].flow == solver(i + 1, p.Net(run[i].adj))
    && (i + 1 < |run| ==> next(i + 1, run[i], run[i + 1].adj))
  }

  /** The rounds of a run, each on the network that the one before leaves. */
  ghost predicate Linked<V(!new)>(p: Problem<V>, run: seq<Round<V>>, solver: (nat, Network<V>) -> seq<int>,
      next: Next<V>)
  {
    run != [] && run[0].adj == p.base && forall i :: 0 <= i < |run| ==> RunStep(p, run, i, solver, next)
  }

  /** A whole run. */
  ghost predicate IsRun<V(!new)>(p: Problem<V>, run: seq<Round<V>>, solver: (nat, Network<V>) -> seq<int>,
      balance: (nat, map<V, int>) -> Verdict, outcome: Outcome<V>)
  {
    && Linked(p, run, solver, NextRule(p, balance))
    && LastRule(p, balance)(|run|, run[|run|-1], outcome)
  }

  datatype Step<V> = Stop(outcome: Outcome<V>) | Again(adj: seq<Edge<V>>)

  /** What the cutter expects of its input, and of the solver. */
  ghost predicate Given<V(!new)>(p: Problem<V>, solver: (nat, Network<V>) -> seq<int>) {
    && p.source in p.verts && p.sink in p.verts && p.source != p.sink
    && EdgesWithin(p.base, p.verts) && EdgesWithin(p.falseEdges, p.verts)
    && DistinctPairs(p.base) && CapacitiesValid(p.base)
    && (forall v :: v in p.verts ==> v in p.weights && 0 < p.weights[v])
    && (forall k :: 0 <= k < |p.constraints| ==> p.constraints[k].0 in p.verts && p.constraints[k].1 in p.verts)
    && SolverContract(solver)
  }

  /** What holds of the base edges in every round. */
  ghost predicate Sound<V(!new)>(p: Problem<V>, adj: seq<Edge<V>>) {
    Reached(p.verts, p.base, adj, p.source, p.sink, p.falseEdges)
  }

  ghost function Left<V>(p: Problem<V>, adj: seq<Edge<V>>): nat { Unpinned(adj, p.verts, p.source, p.sink) }

  ghost predicate Finite<V(!new)>(p: Problem<V>, adj: seq<Edge<V>>) {
    StaysFinite(p.verts, p.Net(adj).edges, p.source, p.sink)
  }

  ghost predicate Justified<V(!new)>(p: Problem<V>, adj: seq<Edge<V>>, outcome: Outcome<V>) {
    Explained(outcome, p.verts, p.base, p.Net(adj).edges, p.source, p.sink, p.falseEdges, p.constraints)
  }

  /** What a round leaves to its successor. */
  ghost predicate Leaves<V(!new)>(p: Problem<V>, r: Round<V>, n: nat, balance: (nat, map<V, int>) -> Verdict,
      step: Step<V>)
  {
    if step.Stop? then EndsIn(p, r, n, balance, step.outcome) else GoesOn(p, r, n, balance, step.adj)
  }

  /** The end has its reason, or there is one more pin. */
  ghost predicate Onward<V(!new)>(p: Problem<V>, r: Round<V>, step: Step<V>) {
    && (step.Stop? ==> Justified(p, r.adj, step.outcome))
    && (step.Again? ==> Sound(p, step.adj) && Left(p, step.adj) < Left(p, r.adj))
    && (step.Again? && FillsNoInfinite(p.Net(r.adj).edges, r.flow) ==> Finite(p, step.adj))
  }

  /** The stage of a round that the balance test did not accept, and what the round knows of it. */
  ghost predicate Unbalanced<V(!new)>(p: Problem<V>, r: Round<V>, k: nat, balance: (nat, map<V, int>) -> Verdict,
      toSource: bool)
  {
    && p.Net(r.adj).Valid() && IsMaxFlow(p.Net(r.adj), r.flow) && Sound(p, r.adj) && IsOrder(p.verts, r.adj, r.pos)
    && Judged(p, r, k, balance, if toSource then TooSmall else TooLarge) && IsCut(p.Net(r.adj), r.stage)
    && CutCap(p.Net(r.adj).edges, r.stage) < INF_MIN && Bars(p, r, toSource)
  }

  /** A stage that is too small: pin to the source, or give up. */
  method GrowStage<V(==,!new)>(p: Problem<V>, r: Round<V>, ghost k: nat, ghost balance: (nat, map<V, int>) -> Verdict)
      returns (step: Step<V>, ghost seen: Round<V>)
    requires Unbalanced(p, r, k, balance, true)
    ensures seen == r.(pin := seen.pin) && Leaves(p, seen, k, balance, step) && Onward(p, r, step)
    ensures step.Stop? ==> step.outcome.SourceInfPath?
  {
    var c, next := PinToSource(p.verts, p.base, r.adj, p.source, p.sink, p.falseEdges, r.stage, r.pos, r.barred);
    seen := r.(pin := c);
    if c.Nothing? {
      StuckSomewhere(p.Net(r.adj), p.falseEdges, r.adj, r.flow, r.stage, true, r.barred);
      step := Stop(SourceInfPath);
      return;
    }
    if FillsNoInfinite(p.Net(r.adj).edges, r.flow) {
      SourcePinStaysFinite(p.Net(r.adj), p.falseEdges, r.adj, next, r.flow, r.stage, r.barred, c.v);
    }
    step := Again(next);
  }

  /** A stage that is too large: pin to the sink, or give up. */
  method ShrinkStage<V(==,!new)>(p: Problem<V>, r: Round<V>, ghost k: nat, ghost balance: (nat, map<V, int>) -> Verdict)
      returns (step: Step<V>, ghost seen: Round<V>)
    requires Unbalanced(p, r, k, balance, false)
    ensures seen == r.(pin := seen.pin) && Leaves(p, seen, k, balance, step) && Onward(p, r, step)
    ensures step.Stop? ==> step.outcome.SinkInfPath?
  {
    var c, next := PinToSink(p.verts, p.base, r.adj, p.source, p.sink, p.falseEdges, r.stage, r.pos, r.barred);
    seen := r.(pin := c);
    if c.Nothing? {
      StuckSomewhere(p.Net(r.adj), p.falseEdges, r.adj, r.flow, r.stage, false, r.barred);
      step := Stop(SinkInfPath);
      return;
    }
    if FillsNoInfinite(p.Net(r.adj).edges, r.flow) {
      SinkPinStaysFinite(p.Net(r.adj), p.falseEdges, r.adj, next, r.flow, r.stage, r.barred, c.v);
    }
    step := Again(next);
  }

  /** One round on the base edges `adj`. */
  method CutRound<V(==,!new)>(p: Problem<V>, adj: seq<Edge<V>>, k: nat,
      solver: (nat, Network<V>) -> seq<int>, balance: (nat, map<V, int>) -> Verdict)
      returns (step: Step<V>, ghost seen: Round<V>)
    requires Given(p, solver) && Sound(p, adj)
    ensures seen.adj == adj && seen.flow == solver(k, p.Net(adj)) && Leaves(p, seen, k, balance, step)
    ensures Keeps(p, adj, solver, step) && (step.Again? ==> Sound(p, step.adj))
  {
    var net := Network(p.verts, p.falseEdges + adj, p.source, p.sink);
    seen := Round(adj, solver(k, net), {}, map[], {}, Nothing);
    var order := TopologicalSort(p.verts, adj);
    if order.Cyclic? {
      step := Stop(NotADag);
      return;
    }
    OrderRanksBase(p.verts, p.base, adj, p.falseEdges, order.pos);
    var flow := solver(k, net);
    var wmap, stage := SourceStage(net, flow, p.weights);
    seen := Round(adj, flow, stage, order.pos, {}, Nothing);
    if FlowValue(net, flow) >= INF_MIN {
      step := Stop(InfFlow);
      return;
    }
    var violated := ViolatesConstraint(net, stage, p.falseEdges, adj, p.constraints, wmap);
    if violated {
      step := Stop(NotPipelineable);
      return;
    }
    var infFromSource, infToSink := InfinitePaths(net, flow);
    var r := Round(adj, flow, stage, order.pos, infToSink, Nothing);
    step, seen := Judge(p, r, infFromSource, balance(k, wmap), k, balance);
  }

  /** Act on the verdict: accept the stage, or pin a vertex that no infinite path bars. */
  method Judge<V(==,!new)>(p: Problem<V>, r: Round<V>, fromSource: set<V>, verdict: Verdict, ghost k: nat,
      ghost balance: (nat, map<V, int>) -> Verdict) returns (step: Step<V>, ghost seen: Round<V>)
    requires p.Net(r.adj).Valid() && IsMaxFlow(p.Net(r.adj), r.flow) && Sound(p, r.adj)
    requires IsOrder(p.verts, r.adj, r.pos)
    requires Judged(p, r, k, balance, verdict) && IsCut(p.Net(r.adj), r.stage)
    requires CutCap(p.Net(r.adj).edges, r.stage) < INF_MIN
    requires Bars(p, r, true) && Bars(p, r.(barred := fromSource), false)
    requires Cheapest(p.verts, p.Net(r.adj).edges, p.source, p.sink, CutCap(p.Net(r.adj).edges, r.stage))
    ensures seen.adj == r.adj && seen.flow == r.flow && Leaves(p, seen, k, balance, step) && Onward(p, r, step)
    ensures step.Stop? ==> !step.outcome.NotADag?
  {
    match verdict
    case Balanced =>
      FiniteCutHasNoInfiniteEdge(p.Net(r.adj).edges, r.stage);
      RaisedCut(p.falseEdges + p.base, p.Net(r.adj).edges, r.stage);
      step, seen := Stop(Success(r.stage)), r;
    case TooSmall =>
      step, seen := GrowStage(p, r, k, balance);
    case TooLarge =>
      step, seen := ShrinkStage(p, r.(barred := fromSource), k, balance);
  }

  /** The whole loop. `rounds` counts the max-flow runs and `pinned` is the network of the last
      round. */
  method RunBalancedMinCut<V(==,!new)>(
      verts: set<V>, base: seq<Edge<V>>, source: V, sink: V, falseEdges: seq<Edge<V>>,
      weights: map<V, int>, constraints: seq<(V, V)>,
      solver: (nat, Network<V>) -> seq<int>, balance: (nat, map<V, int>) -> Verdict)
      returns (outcome: Outcome<V>, rounds: nat, ghost pinned: seq<Edge<V>>, ghost run: seq<Round<V>>)
    requires Given(Problem(verts, base, source, sink, falseEdges, weights, constraints), solver)
    // Every round judges its stage by the weights in it, and pins as the verdict asks.
    ensures IsRun(Problem(verts, base, source, sink, falseEdges, weights, constraints), run, solver, balance, outcome)
    ensures |run| == rounds && pinned == falseEdges + run[rounds - 1].adj
    // The loop ends, within two rounds for every vertex.
    ensures 1 <= rounds <= 2 * |verts| + 1
    // The last network differs from the first only by raised capacities.
    ensures Raised(falseEdges + base, pinned)
    ensures rounds == 1 ==> pinned == falseEdges + base
    ensures Explained(outcome, verts, base, pinned, source, sink, falseEdges, constraints)
    // Only the network as given can carry an infinite flow: pinning never creates one.
    ensures FiniteTotal(falseEdges + base, |falseEdges + base|) < INF_MIN && AlwaysLeavesInfinite(solver) ==>
      outcome.InfFlow? ==> rounds == 1
    // A cycle is reported exactly when the base graph has one.
    ensures !outcome.NotADag? ==> Rankable(base)
    // The error exit for violated constraints is dead when infinite false edges back them.
    ensures ConstraintsBacked(constraints, falseEdges, sink) ==> !outcome.NotPipelineable?
  {
    var p := Problem(verts, base, source, sink, falseEdges, weights, constraints);
    RulesAdmit(p, balance);
    var step, adj;
    step, rounds, adj, run := CutLoop(p, solver, balance, NextRule(p, balance), LastRule(p, balance));
    outcome, pinned := step.outcome, falseEdges + adj;
    if FiniteTotal(falseEdges + base, |falseEdges + base|) < INF_MIN && AlwaysLeavesInfinite(solver) && rounds > 1 {
      StaysBelowInfinity(verts, falseEdges + base, pinned, source, sink);
    }
  }

  /** What a round keeps for the ones that follow, or says at the end. */
  ghost predicate Keeps<V(!new)>(p: Problem<V>, adj: seq<Edge<V>>, solver: (nat, Network<V>) -> seq<int>,
      step: Step<V>)
  {
    && ((step.Stop? && step.outcome.NotADag?) || Rankable(p.base))
    && (step.Stop? ==> Justified(p, adj, step.outcome))
    && (step.Again? ==> Left(p, step.adj) < Left(p, adj) && (AlwaysLeavesInfinite(solver) ==> Finite(p, step.adj)))
  }

  /** The rules allow what a round does. */
  ghost predicate Admits<V(!new)>(p: Problem<V>, balance: (nat, map<V, int>) -> Verdict, next: Next<V>, last: Last<V>) {
    && (forall k: nat, r, adj {:trigger GoesOn(p, r, k, balance, adj)} ::
          GoesOn(p, r, k, balance, adj) ==> next(k, r, adj))
    && (forall k: nat, r, outcome {:trigger EndsIn(p, r, k, balance, outcome)} ::
          EndsIn(p, r, k, balance, outcome) ==> last(k, r, outcome))
  }

  lemma RulesAdmit<V(!new)>(p: Problem<V>, balance: (nat, map<V, int>) -> Verdict)
    ensures Admits(p, balance, NextRule(p, balance), LastRule(p, balance))
  {}

  ghost predicate Allowed<V(!new)>(next: Next<V>, last: Last<V>, n: nat, r: Round<V>, step: Step<V>) {
    if step.Stop? then last(n, r, step.outcome) else next(n, r, step.adj)
  }

  /** What round `k` on `adj` gives to the loop. */
  ghost predicate Gives<V(!new)>(p: Problem<V>, adj: seq<Edge<V>>, k: nat, solver: (nat, Network<V>) -> seq<int>,
      next: Next<V>, last: Last<V>, seen: Round<V>, step: Step<V>)
  {
    && seen.adj == adj && seen.flow == solver(k, p.Net(adj)) && Allowed(next, last, k, seen, step)
    && Keeps(p, adj, solver, step) && (step.Again? ==> Sound(p, step.adj))
  }

  /** What holds after round `n`, on `adj`. */
  ghost predicate Stands<V(!new)>(p: Problem<V>, solver: (nat, Network<V>) -> seq<int>, n: nat, adj: seq<Edge<V>>,
      step: Step<V>)
  {
    && 1 <= n && n + Left(p, adj) <= 2 * |p.verts| + 1 && (n == 1 ==> adj == p.base)
    && Sound(p, adj) && Keeps(p, adj, solver, step) && (step.Again? ==> Sound(p, step.adj))
    && (AlwaysLeavesInfinite(solver) && n > 1 ==> Finite(p, adj))
  }

  method RuledRound<V(==,!new)>(p: Problem<V>, adj: seq<Edge<V>>, k: nat, solver: (nat, Network<V>) -> seq<int>,
      balance: (nat, map<V, int>) -> Verdict, ghost next: Next<V>, ghost last: Last<V>)
      returns (step: Step<V>, ghost seen: Round<V>)
    requires Given(p, solver) && Sound(p, adj) && Admits(p, balance, next, last)
    ensures Gives(p, adj, k, solver, next, last, seen, step)
  {
    step, seen := CutRound(p, adj, k, solver, balance);
  }

  method FirstRound<V(==,!new)>(p: Problem<V>, solver: (nat, Network<V>) -> seq<int>,
      balance: (nat, map<V, int>) -> Verdict, ghost next: Next<V>, ghost last: Last<V>)
      returns (step: Step<V>, ghost run: seq<Round<V>>)
    requires Given(p, solver) && Admits(p, balance, next, last)
    ensures Stands(p, solver, 1, p.base, step) && Traced(p, run, 1, p.base, solver, next, last, step)
  {
    ghost var seen;
    step, seen := RuledRound(p, p.base, 1, solver, balance, next, last);
    run := [seen];
    CardinalityBound(UnpinnedSource(p.base, p.verts, p.source), p.verts);
    CardinalityBound(UnpinnedSink(p.base, p.verts, p.sink), p.verts);
  }

  /** The round after round `n`, which ran on `was`. */
  method NextRound<V(==,!new)>(p: Problem<V>, ghost was: seq<Edge<V>>, n: nat, before: Step<V>,
      solver: (nat, Network<V>) -> seq<int>, balance: (nat, map<V, int>) -> Verdict, ghost next: Next<V>,
      ghost last: Last<V>, ghost run: seq<Round<V>>) returns (step: Step<V>, ghost run': seq<Round<V>>)
    requires Given(p, solver) && Admits(p, balance, next, last) && before.Again?
    requires Stands(p, solver, n, was, before) && Traced(p, run, n, was, solver, next, last, before)
    ensures Stands(p, solver, n + 1, before.adj, step) && Left(p, before.adj) < Left(p, was)
    ensures Traced(p, run', n + 1, before.adj, solver, next, last, step)
  {
    ghost var seen;
    step, seen := RuledRound(p, before.adj, n + 1, solver, balance, next, last);
    run' := run + [seen];
    RoundAdds(p, was, n, before, solver, next, last, run, seen, step);
  }

  lemma RoundAdds<V(!new)>(p: Problem<V>, was: seq<Edge<V>>, n: nat, before: Step<V>,
      solver: (nat, Network<V>) -> seq<int>, next: Next<V>, last: Last<V>, run: seq<Round<V>>, seen: Round<V>,
      step: Step<V>)
    requires before.Again? && Gives(p, before.adj, n + 1, solver, next, last, seen, step)
    requires Stands(p, solver, n, was, before) && Traced(p, run, n, was, solver, next, last, before)
    ensures Stands(p, solver, n + 1, before.adj, step) && Left(p, before.adj) < Left(p, was)
    ensures Traced(p, run + [seen], n + 1, before.adj, solver, next, last, step)
  {
    TraceGrows(p, run, n, was, solver, next, last, before, seen, step);
  }

  lemma TraceGrows<V(!new)>(p: Problem<V>, run: seq<Round<V>>, n: nat, was: seq<Edge<V>>,
      solver: (nat, Network<V>) -> seq<int>, next: Next<V>, last: Last<V>, before: Step<V>, r: Round<V>, step: Step<V>)
    requires Traced(p, run, n, was, solver, next, last, before) && before.Again? && r.adj == before.adj
    requires r.flow == solver(n + 1, p.Net(r.adj)) && Allowed(next, last, n + 1, r, step)
    ensures Traced(p, run + [r], n + 1, r.adj, solver, next, last, step)
  {
    RunGrows(p, solver, next, run, r);
  }

  /** The rounds so far, and what the last of them leaves. */
  ghost predicate Traced<V(!new)>(p: Problem<V>, run: seq<Round<V>>, n: nat, adj: seq<Edge<V>>,
      solver: (nat, Network<V>) -> seq<int>, next: Next<V>, last: Last<V>, step: Step<V>)
  {
    |run| == n >= 1 && run[n - 1].adj == adj && Linked(p, run, solver, next) && Allowed(next, last, n, run[n - 1], step)
  }

  method CutLoop<V(==,!new)>(p: Problem<V>, solver: (nat, Network<V>) -> seq<int>,
      balance: (nat, map<V, int>) -> Verdict, ghost next: Next<V>, ghost last: Last<V>)
      returns (step: Step<V>, rounds: nat, adj: seq<Edge<V>>, ghost run: seq<Round<V>>)
    requires Given(p, solver) && Admits(p, balance, next, last)
    ensures step.Stop? && Stands(p, solver, rounds, adj, step) && Traced(p, run, rounds, adj, solver, next, last, step)
  {
    adj, rounds := p.base, 1;
    step, run := FirstRound(p, solver, balance, next, last);
    while step.Again?
      invariant Stands(p, solver, rounds, adj, step)
      invariant Traced(p, run, rounds, adj, solver, next, last, step)
      decreases Left(p, adj)
    {
      var before := step;
      step, run := NextRound(p, adj, rounds, before, solver, balance, next, last, run);
      adj, rounds := before.adj, rounds + 1;
    }
  }

  lemma RunGrows<V(!new)>(p: Problem<V>, solver: (nat, Network<V>) -> seq<int>, next: Next<V>, run: seq<Round<V>>,
      r: Round<V>)
    requires Linked(p, run, solver, next) && next(|run|, run[|run|-1], r.adj)
    requires r.flow == solver(|run| + 1, p.Net(r.adj))
    ensures Linked(p, run + [r], solver, next)
  {
    var more := run + [r];
    forall i | 0 <= i < |more| ensures RunStep(p, more, i, solver, next) {
      if i < |run| {
        assert RunStep(p, run, i, solver, next) && more[i] == run[i];
      }
    }
  }

  /** No cut of the network costs less than `price`. */
  ghost predicate Cheapest<V(!new)>(verts: set<V>, edges: seq<Edge<V>>, source: V, sink: V, price: nat) {
    forall s :: IsCut(Network(verts, edges, source, sink), s) ==> price <= CutCap(edges, s)
  }

  /** The scan for a constraint whose second vertex is in the source stage without its first. */
  method ViolatesConstraint<V(==,!new)>(net: Network<V>, ghost reach: set<V>, ghost falseEdges: seq<Edge<V>>,
      ghost adj: seq<Edge<V>>, constraints: seq<(V, V)>, wmap: map<V, int>) returns (violated: bool)
    requires net.edges == falseEdges + adj && IsCut(net, reach) && CutCap(net.edges, reach) < INF_MIN
    requires forall k :: 0 <= k < |constraints| ==> constraints[k].0 in wmap && constraints[k].1 in wmap
    requires forall v :: v in wmap ==> (wmap[v] > 0 <==> v in reach) && (wmap[v] == 0 <==> v !in reach)
    ensures violated <==> exists k :: 0 <= k < |constraints| && constraints[k].0 !in reach && constraints[k].1 in reach
    ensures violated ==> !ConstraintsBacked(constraints, falseEdges, net.sink)
  {
    for k := 0 to |constraints|
      invariant forall i :: 0 <= i < k ==> constraints[i].0 in reach || constraints[i].1 !in reach
    {
      if wmap[constraints[k].0] == 0 && wmap[constraints[k].1] > 0 {
        FiniteCutHasNoInfiniteEdge(net.edges, reach);
        ViolationIsUnbacked(falseEdges, adj, reach, constraints, k, net.sink);
        return true;
      }
    }
    return false;
  }

  /** The vertices with an unsaturated infinite path from the source, and to the sink. */
  method InfinitePaths<V(==,!new)>(net: Network<V>, flow: seq<int>) returns (fromSource: set<V>, toSink: set<V>)
    requires net.Valid() && |flow| == |net.edges|
    ensures InfReach(net.edges, flow, false, net.source, fromSource) && fromSource <= net.verts
    ensures InfReach(net.edges, flow, true, net.sink, toSink) && toSink <= net.verts
  {
    fromSource := InfiniteVisit(net, flow, false, net.source);
    toSink := InfiniteVisit(net, flow, true, net.sink);
  }

  /** The vertices the residual search visits, and the weight map the search fills in. */
  method SourceStage<V(==,!new)>(net: Network<V>, flow: seq<int>, weights: map<V, int>)
      returns (wmap: map<V, int>, stage: set<V>)
    requires net.Valid() && IsMaxFlow(net, flow)
    requires forall v :: v in net.verts ==> v in weights && 0 < weights[v]
    ensures IsResidualReach(net, flow, stage) && IsCut(net, stage)
    ensures CutCap(net.edges, stage) == FlowValue(net, flow)
    ensures Cheapest(net.verts, net.edges, net.source, net.sink, CutCap(net.edges, stage))
    ensures wmap == StageWeights(net.verts, weights, stage)
  {
    var arcs := ResidualArcs(net.edges, flow);
    assert EdgesWithin(net.edges, net.verts);
    stage := DepthFirstVisit(net.verts, arcs, net.source);
    assert ResidualClosed(net.edges, flow, stage);
    MaxFlowMinCut(net, flow, stage);
    wmap := map v | v in net.verts :: if v in stage then weights[v] else 0;
  }

  lemma ViolationIsUnbacked<V>(falseEdges: seq<Edge<V>>, adj: seq<Edge<V>>, s: set<V>, constraints: seq<(V, V)>, k: nat,
      sink: V)
    requires NoInfiniteEdgeLeaves(falseEdges + adj, s) && sink !in s
    requires k < |constraints| && constraints[k].0 !in s && constraints[k].1 in s
    ensures !ConstraintsBacked(constraints, falseEdges, sink)
  {
    forall j | 0 <= j < |falseEdges| ensures falseEdges[j] != Edge(constraints[k].1, constraints[k].0, INF_WT) {
      assert (falseEdges + adj)[j] == falseEdges[j];
    }
  }
}
