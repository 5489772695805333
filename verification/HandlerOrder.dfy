/** The order of the handlers in a component (second half of
    `HandlerDependencyAnalysis::getConnectedComponents`): handlers are taken from a queue, and a
    target joins it when its count of incoming edges drops to zero. */
module HandlerOrder {
  import opened Components
  import Revisits

  datatype Kahn = Kahn(degree: seq<int>, queue: seq<nat>, order: seq<nat>)

  /** Count down the first `j` targets of a handler. */
  function Relax(degree: seq<int>, queue: seq<nat>, ts: seq<nat>, j: nat): (seq<int>, seq<nat>)
    requires j <= |ts|
  {
    if j == 0 then (degree, queue)
    else
      var (d, q) := Relax(degree, queue, ts, j - 1);
      var t := ts[j-1];
      if t >= |d| then (d, q)
      else (d[t := d[t] - 1], if d[t] == 1 then q + [t] else q)
  }

  // ----- It always ends -----

  function Positive(degree: seq<int>, n: nat): nat
    requires n <= |degree|
  {
    if n == 0 then 0 else Positive(degree, n - 1) + if degree[n-1] > 0 then 1 else 0
  }

  lemma {:induction false} PositiveDrops(degree: seq<int>, t: nat, n: nat)
    requires t < |degree| && n <= |degree|
    ensures Positive(degree[t := degree[t] - 1], n) == Positive(degree, n) - if t < n && degree[t] == 1 then 1 else 0
    decreases n
  {
    if n > 0 { PositiveDrops(degree, t, n - 1); }
  }

  /** Every push uses up a handler with edges still to count. */
  lemma {:induction false} RelaxBalance(degree: seq<int>, queue: seq<nat>, ts: seq<nat>, j: nat)
    requires j <= |ts|
    ensures var (d, q) := Relax(degree, queue, ts, j);
      |d| == |degree| && Positive(d, |d|) + |q| == Positive(degree, |degree|) + |queue| && queue <= q
    decreases j
  {
    if j > 0 {
      RelaxBalance(degree, queue, ts, j - 1);
      var (d, q) := Relax(degree, queue, ts, j - 1);
      if ts[j-1] < |d| {
        PositiveDrops(d, ts[j-1], |d|);
      }
    }
  }

  function Take(g: Adj, k: Kahn): Kahn
    requires k.queue != []
  {
    var cur := k.queue[0];
    var ts := if cur < |g| then g[cur] else [];
    var (d, q) := Relax(k.degree, k.queue[1..], ts, |ts|);
    Kahn(d, q, k.order + [cur])
  }

  // ----- A component -----

  /** The members of one component, and the count of edges into each. */
  ghost predicate IsComponent(g: Adj, c: set<nat>) {
    (forall v :: v in c ==> v < |g|) && forall a: nat, b: nat :: Edge(g, a, b) ==> (a in c <==> b in c)
  }

  ghost predicate AcyclicOn(g: Adj, c: set<nat>, rank: nat -> nat) {
    forall a: nat, b: nat :: a in c && b in c && Edge(g, a, b) ==> rank(a) < rank(b)
  }

  /** Every predecessor comes before. */
  ghost predicate Topological(g: Adj, order: seq<nat>) {
    forall i, a: nat :: 0 <= i < |order| && Edge(g, a, order[i]) ==> a in order[..i]
  }

  ghost predicate Lists(order: seq<nat>, c: set<nat>) { Distinct(order) && forall v: nat :: v in order <==> v in c }

  function Done(order: seq<nat>): set<nat> { set v | v in order }

  /** What holds between turns when no handler was queued twice at the start. */
  ghost predicate Ordering(g: Adj, c: set<nat>, k: Kahn) {
    && |k.degree| == |g|
    && Distinct(k.order + k.queue)
    && (forall v: nat :: v in k.order || v in k.queue ==> v in c)
    && (forall b: nat :: b in c ==> Counted(g, k, b))
    && Topological(g, k.order)
  }

  ghost predicate Counted(g: Adj, k: Kahn, b: nat)
    requires |k.degree| == |g|
  {
    && b < |g| && k.degree[b] == Incoming(g, Done(k.order), b, |g|)
    && (k.degree[b] == 0 <==> b in k.order || b in k.queue)
  }

  // ----- Counting -----

  lemma {:induction false} TimesMono(ts: seq<nat>, b: nat, i: nat, j: nat)
    requires i <= j <= |ts|
    ensures Times(ts, b, i) <= Times(ts, b, j)
    decreases j
  {
    if i < j { TimesMono(ts, b, i, j - 1); }
  }

  lemma {:induction false} IncomingDrops(g: Adj, done: set<nat>, cur: nat, b: nat, h: nat)
    requires h <= |g| && cur < |g| && cur !in done
    ensures Incoming(g, done + {cur}, b, h) + (if cur < h then Times(g[cur], b, |g[cur]|) else 0) ==
      Incoming(g, done, b, h)
    decreases h
  {
    if h > 0 { IncomingDrops(g, done, cur, b, h - 1); }
  }

  lemma {:induction false} IncomingAtLeast(g: Adj, done: set<nat>, a: nat, b: nat, h: nat)
    requires a < h <= |g| && a !in done
    ensures Times(g[a], b, |g[a]|) <= Incoming(g, done, b, h)
    decreases h
  {
    if a < h - 1 { IncomingAtLeast(g, done, a, b, h - 1); }
  }

  lemma NoIncoming(g: Adj, done: set<nat>, a: nat, b: nat)
    requires Incoming(g, done, b, |g|) == 0 && Edge(g, a, b)
    ensures a in done
  {
    TimesPositive(g[a], b, |g[a]|);
    assert g[a][..|g[a]|] == g[a];
    if a !in done {
      IncomingAtLeast(g, done, a, b, |g|);
    }
  }

  lemma {:induction false} SomeIncoming(g: Adj, done: set<nat>, b: nat, h: nat) returns (a: nat)
    requires h <= |g| && Incoming(g, done, b, h) > 0
    ensures a < |g| && a !in done && Edge(g, a, b)
    decreases h
  {
    if h - 1 !in done && Times(g[h-1], b, |g[h-1]|) > 0 {
      a := h - 1;
      TimesPositive(g[a], b, |g[a]|);
      assert g[a][..|g[a]|] == g[a];
    } else {
      a := SomeIncoming(g, done, b, h - 1);
    }
  }

  // ----- One turn -----

  /** In the middle of a turn: `cur` is in the order, and `j` of its targets are counted down. */
  ghost predicate Relaxing(g: Adj, c: set<nat>, order: seq<nat>, ts: seq<nat>, j: nat, d: seq<int>, q: seq<nat>)
    requires j <= |ts|
  {
    && |d| == |g| && Distinct(order + q)
    && (forall v: nat :: v in order || v in q ==> v in c)
    && forall b: nat :: b in c ==> CountedTo(g, order, ts, j, d, q, b)
  }

  ghost predicate CountedTo(g: Adj, order: seq<nat>, ts: seq<nat>, j: nat, d: seq<int>, q: seq<nat>, b: nat)
    requires j <= |ts| && |d| == |g|
  {
    && b < |g| && d[b] == Incoming(g, Done(order), b, |g|) + Times(ts, b, |ts|) - Times(ts, b, j)
    && (d[b] == 0 <==> b in order || b in q)
  }

  lemma DoneSnoc(order: seq<nat>, v: nat)
    ensures Done(order + [v]) == Done(order) + {v}
  {}

  lemma MoveToOrder(order: seq<nat>, queue: seq<nat>)
    requires queue != []
    ensures order + queue == (order + [queue[0]]) + queue[1..]
    ensures forall v: nat :: v in order + [queue[0]] || v in queue[1..] <==> v in order || v in queue
  {
    assert queue == [queue[0]] + queue[1..];
  }

  lemma RelaxBegins(g: Adj, c: set<nat>, k: Kahn)
    requires IsComponent(g, c) && Ordering(g, c, k) && k.queue != []
    ensures k.queue[0] < |g| && Relaxing(g, c, k.order + [k.queue[0]], g[k.queue[0]], 0, k.degree, k.queue[1..])
  {
    var cur := k.queue[0];
    assert cur in k.queue && cur in c;
    MoveToOrder(k.order, k.queue);
    HeadIsNew(k.order, k.queue);
    DoneSnoc(k.order, cur);
    forall b: nat | b in c ensures CountedTo(g, k.order + [cur], g[cur], 0, k.degree, k.queue[1..], b) {
      assert Counted(g, k, b);
      IncomingDrops(g, Done(k.order), cur, b, |g|);
    }
  }

  lemma HeadIsNew(order: seq<nat>, queue: seq<nat>)
    requires queue != [] && Distinct(order + queue)
    ensures queue[0] !in order
  {
    forall i | 0 <= i < |order| ensures order[i] != queue[0] {
      assert (order + queue)[i] != (order + queue)[|order|];
    }
  }

  lemma RelaxOne(g: Adj, c: set<nat>, order: seq<nat>, ts: seq<nat>, j: nat, d: seq<int>, q: seq<nat>)
    requires j < |ts| && ts[j] in c && Relaxing(g, c, order, ts, j, d, q)
    ensures var t := ts[j];
      t < |d| && Relaxing(g, c, order, ts, j + 1, d[t := d[t] - 1], if d[t] == 1 then q + [t] else q)
  {
    var t := ts[j];
    assert CountedTo(g, order, ts, j, d, q, t);
    TimesMono(ts, t, j + 1, |ts|);
    var d', q' := d[t := d[t] - 1], if d[t] == 1 then q + [t] else q;
    forall b: nat | b in c ensures CountedTo(g, order, ts, j + 1, d', q', b) {
      assert CountedTo(g, order, ts, j, d, q, b);
    }
    if d[t] == 1 {
      assert order + (q + [t]) == (order + q) + [t];
      DistinctConcat(order + q, [t]);
    }
  }

  lemma {:induction false} RelaxAll(g: Adj, c: set<nat>, order: seq<nat>, ts: seq<nat>, j: nat, d: seq<int>,
      q: seq<nat>)
    requires j <= |ts| && (forall i :: 0 <= i < |ts| ==> ts[i] in c) && Relaxing(g, c, order, ts, 0, d, q)
    ensures var (d', q') := Relax(d, q, ts, j); Relaxing(g, c, order, ts, j, d', q')
    decreases j
  {
    if j > 0 {
      RelaxAll(g, c, order, ts, j - 1, d, q);
      var (d', q') := Relax(d, q, ts, j - 1);
      RelaxOne(g, c, order, ts, j - 1, d', q');
    }
  }

  lemma TopologicalSnoc(g: Adj, c: set<nat>, k: Kahn)
    requires Ordering(g, c, k) && k.queue != []
    ensures Topological(g, k.order + [k.queue[0]])
  {
    var cur, order := k.queue[0], k.order + [k.queue[0]];
    assert cur in k.queue && cur in c;
    assert Counted(g, k, cur);
    forall i, a: nat | 0 <= i < |order| && Edge(g, a, order[i]) ensures a in order[..i] {
      if i == |k.order| {
        NoIncoming(g, Done(k.order), a, cur);
        assert order[..i] == k.order;
      } else {
        assert order[i] == k.order[i] && order[..i] == k.order[..i];
      }
    }
  }

  lemma TurnKeeps(g: Adj, c: set<nat>, k: Kahn)
    requires IsComponent(g, c) && Ordering(g, c, k) && k.queue != []
    ensures Ordering(g, c, Take(g, k))
  {
    var cur := k.queue[0];
    RelaxBegins(g, c, k);
    var ts, order := g[cur], k.order + [cur];
    assert cur in k.queue && cur in c;
    forall i | 0 <= i < |ts| ensures ts[i] in c {
      assert Edge(g, cur, ts[i]);
    }
    RelaxAll(g, c, order, ts, |ts|, k.degree, k.queue[1..]);
    TopologicalSnoc(g, c, k);
    RelaxedIsOrdering(g, c, ts, Take(g, k));
  }

  lemma RelaxedIsOrdering(g: Adj, c: set<nat>, ts: seq<nat>, k: Kahn)
    requires Relaxing(g, c, k.order, ts, |ts|, k.degree, k.queue) && Topological(g, k.order)
    ensures Ordering(g, c, k)
  {
    forall b: nat | b in c ensures Counted(g, k, b) {
      assert CountedTo(g, k.order, ts, |ts|, k.degree, k.queue, b);
    }
  }

  // ----- The end -----

  lemma {:induction false} AllTaken(g: Adj, c: set<nat>, k: Kahn, rank: nat -> nat, b: nat)
    requires IsComponent(g, c) && Ordering(g, c, k) && k.queue == [] && AcyclicOn(g, c, rank) && b in c
    ensures b in k.order
    decreases rank(b)
  {
    assert Counted(g, k, b);
    if b !in k.order {
      var a := SomeIncoming(g, Done(k.order), b, |g|);
      AllTaken(g, c, k, rank, a);
      assert false;
    }
  }

  /** A topological order that lists the component is a rank without cycles. */
  lemma OrderIsRank(g: Adj, c: set<nat>, order: seq<nat>) returns (rank: nat -> nat)
    requires Lists(order, c) && Topological(g, order)
    ensures AcyclicOn(g, c, rank)
  {
    rank := v => Place(order, v);
    forall a: nat, b: nat | a in c && b in c && Edge(g, a, b) ensures rank(a) < rank(b) {
      PlaceOf(order, b);
      var i := Place(order, b);
      assert a in order[..i];
      EarlierPlace(order, a, i);
    }
  }

  /** The first place of `v`, or the end. */
  function Place(order: seq<nat>, v: nat): nat {
    if order == [] || order[0] == v then 0 else 1 + Place(order[1..], v)
  }

  lemma {:induction false} PlaceOf(order: seq<nat>, v: nat)
    requires v in order
    ensures Place(order, v) < |order| && order[Place(order, v)] == v
    decreases |order|
  {
    if order[0] != v { PlaceOf(order[1..], v); }
  }

  lemma {:induction false} EarlierPlace(order: seq<nat>, v: nat, i: nat)
    requires i <= |order| && v in order[..i]
    ensures Place(order, v) < i
    decreases |order|
  {
    if order[0] != v {
      assert order[1..][..i-1] == order[..i][1..];
      EarlierPlace(order[1..], v, i - 1);
    }
  }

  // ----- The loop -----

  /** The counts and the queue at the start of a component. */
  ghost predicate Ready(g: Adj, c: set<nat>, degree: seq<int>, starts: seq<nat>) {
    && IsComponent(g, c) && |degree| == |g|
    && (forall b: nat :: b in c ==> degree[b] == Incoming(g, {}, b, |g|))
    && (forall v: nat :: v in starts <==> v in c && degree[v] == 0)
  }

  lemma OrderingBegins(g: Adj, c: set<nat>, degree: seq<int>, starts: seq<nat>)
    requires Ready(g, c, degree, starts) && Distinct(starts)
    ensures Ordering(g, c, Kahn(degree, starts, []))
  {
    assert [] + starts == starts;
    assert Done([]) == {};
  }

  /** Only members of the component are touched, and the queue only grows at its end. */
  ghost predicate Within(c: set<nat>, degree: seq<int>, starts: seq<nat>, k: Kahn) {
    && |k.degree| == |degree| && starts <= k.order + k.queue
    && (forall v: nat :: v in k.queue ==> v in c)
    && (forall v: nat :: v < |degree| && v !in c ==> k.degree[v] == degree[v])
  }

  lemma {:induction false} RelaxWithin(c: set<nat>, d: seq<int>, q: seq<nat>, ts: seq<nat>, j: nat)
    requires j <= |ts| && (forall i :: 0 <= i < |ts| ==> ts[i] in c) && forall v: nat :: v in q ==> v in c
    ensures var (d', q') := Relax(d, q, ts, j);
      |d'| == |d| && (forall v: nat :: v in q' ==> v in c) && forall v: nat :: v < |d| && v !in c ==> d'[v] == d[v]
    decreases j
  {
    if j > 0 { RelaxWithin(c, d, q, ts, j - 1); }
  }

  lemma TakeWithin(g: Adj, c: set<nat>, degree: seq<int>, starts: seq<nat>, k: Kahn)
    requires IsComponent(g, c) && Within(c, degree, starts, k) && k.queue != []
    ensures Within(c, degree, starts, Take(g, k))
  {
    var cur := k.queue[0];
    assert cur in k.queue;
    var ts := g[cur];
    forall i | 0 <= i < |ts| ensures ts[i] in c {
      assert Edge(g, cur, ts[i]);
    }
    RelaxWithin(c, k.degree, k.queue[1..], ts, |ts|);
    RelaxBalance(k.degree, k.queue[1..], ts, |ts|);
    MoveToOrder(k.order, k.queue);
  }

  lemma Outcome(g: Adj, c: set<nat>, degree: seq<int>, starts: seq<nat>, k: Kahn)
    requires IsComponent(g, c) && k.queue == [] && Within(c, degree, starts, k)
    requires Distinct(starts) ==> Ordering(g, c, k)
    ensures Lists(k.order, c) && Topological(g, k.order) <==>
      Distinct(starts) && exists rank: nat -> nat :: AcyclicOn(g, c, rank)
  {
    assert k.order + [] == k.order;
    if Lists(k.order, c) && Topological(g, k.order) {
      var rank := OrderIsRank(g, c, k.order);
    }
    if Distinct(starts) && exists rank: nat -> nat :: AcyclicOn(g, c, rank) {
      var rank: nat -> nat :| AcyclicOn(g, c, rank);
      forall b: nat | b in c ensures b in k.order {
        AllTaken(g, c, k, rank, b);
      }
    }
  }

  /** The sorting loop. It ends for every input, and gives a topological order of the component
      exactly when there is no cycle and no starting handler was queued twice. */
  method SortComponent(g: Adj, degree: seq<int>, starts: seq<nat>, ghost c: set<nat>)
      returns (order: seq<nat>, degree': seq<int>)
    requires Ready(g, c, degree, starts)
    ensures Lists(order, c) && Topological(g, order) <==>
      Distinct(starts) && exists rank: nat -> nat :: AcyclicOn(g, c, rank)
    ensures |degree'| == |degree| && forall v: nat :: v < |degree| && v !in c ==> degree'[v] == degree[v]
  {
    var k := Kahn(degree, starts, []);
    if Distinct(starts) { OrderingBegins(g, c, degree, starts); }
    assert [] + starts == starts;
    while k.queue != []
      invariant Within(c, degree, starts, k) && (Distinct(starts) ==> Ordering(g, c, k))
      decreases Positive(k.degree, |k.degree|) + |k.queue|
    {
      var cur := k.queue[0];
      assert cur in k.queue;
      TakeWithin(g, c, degree, starts, k);
      if Distinct(starts) { TurnKeeps(g, c, k); }
      RelaxBalance(k.degree, k.queue[1..], g[cur], |g[cur]|);
      var d, q := CountDown(k.degree, k.queue[1..], g[cur]);
      k := Kahn(d, q, k.order + [cur]);
    }
    Outcome(g, c, degree, starts, k);
    order, degree' := k.order, k.degree;
  }

  /** The inner loop over a handler's targets. */
  method CountDown(degree: seq<int>, queue: seq<nat>, ts: seq<nat>) returns (d: seq<int>, q: seq<nat>)
    ensures (d, q) == Relax(degree, queue, ts, |ts|)
  {
    d, q := degree, queue;
    for j := 0 to |ts|
      invariant (d, q) == Relax(degree, queue, ts, j)
    {
      var t := ts[j];
      if t < |d| {
        d := d[t := d[t] - 1];
        if d[t] == 0 { q := q + [t]; }
      }
    }
  }

  // ----- All components -----

  function Members(colour: seq<nat>, c: nat): set<nat> { set v: nat | v < |colour| && colour[v] == c }

  lemma MembersAreComponents(g: Adj, u: Adj, colour: seq<nat>, next: nat, c: nat)
    requires Closed(g) && Symmetrized(g, u) && Separates(u, colour, next) && forall v :: 0 <= v < |g| ==> colour[v] > 0
    ensures IsComponent(g, Members(colour, c))
  {
    forall a: nat, b: nat | Edge(g, a, b) ensures a in Members(colour, c) <==> b in Members(colour, c) {
      assert Edge(u, a, b);
      assert Path(u, 0, a, a);
      assert Path(u, 1, a, b);
      assert SameIff(u, colour, a, b);
    }
  }

  /** The result for one component, which `starts` begin. */
  ghost predicate Sorted(g: Adj, c: set<nat>, starts: seq<nat>, order: seq<nat>) {
    Lists(order, c) && Topological(g, order) <==> Distinct(starts) && exists rank: nat -> nat :: AcyclicOn(g, c, rank)
  }

  function HuntOf(u: Adj, inDegree: seq<nat>, c: nat, t: Tour): Revisits.Hunt {
    Revisits.Hunt(u, inDegree, t.was, t.root, c)
  }

  /** The search of the component listed every start once before its visit. */
  ghost predicate OfferedOnce(u: Adj, inDegree: seq<nat>, c: nat, t: Tour) {
    |inDegree| == |u| && Revisits.StartsOfferedOnce(HuntOf(u, inDegree, c, t), t.turns)
  }

  ghost predicate TreeFrom(u: Adj, root: nat) {
    exists parent: nat -> nat, depth: nat -> nat :: IsTree(u, root, parent, depth)
  }

  /** The result for one component, from its graph and its search alone. */
  ghost predicate InOrder(g: Adj, c: set<nat>, order: seq<nat>, u: Adj, inDegree: seq<nat>, k: nat, t: Tour) {
    && Collects(u, inDegree, k, t, Toured(u, inDegree, k, t).nodes)
    && (Lists(order, c) && Topological(g, order) <==>
          OfferedOnce(u, inDegree, k, t) && exists rank: nat -> nat :: AcyclicOn(g, c, rank))
    && (TreeFrom(u, t.root) ==> OfferedOnce(u, inDegree, k, t))
  }

  lemma StartsAreOffered(u: Adj, inDegree: seq<nat>, c: nat, t: Tour, starts: seq<nat>)
    requires Closed(u) && Symmetric(u) && |inDegree| == |u| && c > 0 && Collects(u, inDegree, c, t, starts)
    ensures Distinct(starts) <==> OfferedOnce(u, inDegree, c, t)
    ensures TreeFrom(u, t.root) ==> OfferedOnce(u, inDegree, c, t)
  {
    Revisits.CollectedOnceIff(HuntOf(u, inDegree, c, t), t.turns);
    if TreeFrom(u, t.root) {
      var parent: nat -> nat, depth: nat -> nat :| IsTree(u, t.root, parent, depth);
      TreeVisitsOnce(u, inDegree, t.was, t.root, c, parent, depth, t.turns);
    }
  }

  /** Counts of the components that are still to be sorted. */
  ghost predicate Untouched(g: Adj, colour: seq<nat>, degree: seq<int>, from: nat) {
    |degree| == |colour| == |g| && forall b: nat :: b < |g| && colour[b] > from ==> degree[b] == Incoming(g, {}, b, |g|)
  }

  /** `getConnectedComponents`: the components, and for each an order that is topological exactly
      when the component has no cycle and its search listed every start once. */
  method ConnectedComponents(g: Adj)
      returns (colour: seq<nat>, orders: seq<seq<nat>>, ghost u: Adj, ghost inDegree: seq<nat>, ghost tours: seq<Tour>)
    requires Closed(g)
    ensures Symmetrized(g, u) && Separates(u, colour, |orders| + 1) && forall v :: 0 <= v < |g| ==> colour[v] > 0
    ensures |inDegree| == |g| && forall b :: 0 <= b < |g| ==> inDegree[b] == Incoming(g, {}, b, |g|)
    ensures |tours| == |orders|
    ensures forall i :: 0 <= i < |orders| ==> tours[i].root < |g| && colour[tours[i].root] == i + 1
    ensures forall i :: 0 <= i < |orders| ==>
      InOrder(g, Members(colour, i + 1), orders[i], u, inDegree, i + 1, tours[i])
  {
    var queues, und, degrees;
    colour, queues, und, degrees, tours := FindComponents(g);
    u, inDegree := und, degrees;
    SymmetrizedIs(g, u);
    orders := SortAll(g, und, colour, queues, degrees, tours);
    forall i | 0 <= i < |orders| ensures InOrder(g, Members(colour, i + 1), orders[i], u, inDegree, i + 1, tours[i]) {
      assert Sorted(g, Members(colour, i + 1), queues[i], orders[i]);
      StartsAreOffered(u, inDegree, i + 1, tours[i], queues[i]);
    }
  }

  method SortAll(g: Adj, ghost u: Adj, colour: seq<nat>, queues: seq<seq<nat>>, inDegree: seq<nat>,
      ghost tours: seq<Tour>)
      returns (orders: seq<seq<nat>>)
    requires Closed(g) && Symmetrized(g, u) && Found(u, inDegree, colour, queues, tours)
    requires |inDegree| == |g| && forall b :: 0 <= b < |g| ==> inDegree[b] == Incoming(g, {}, b, |g|)
    requires forall v :: 0 <= v < |g| ==> colour[v] > 0
    ensures |orders| == |queues|
    ensures forall i :: 0 <= i < |orders| ==> Sorted(g, Members(colour, i + 1), queues[i], orders[i])
  {
    var degree: seq<int> := inDegree;
    orders := [];
    for i := 0 to |queues|
      invariant |orders| == i && Untouched(g, colour, degree, i)
      invariant forall j :: 0 <= j < i ==> Sorted(g, Members(colour, j + 1), queues[j], orders[j])
    {
      ghost var c := Members(colour, i + 1);
      MembersAreComponents(g, u, colour, |queues| + 1, i + 1);
      StartsAreReady(g, colour, inDegree, degree, i, queues[i]);
      var order;
      order, degree := SortComponent(g, degree, queues[i], c);
      orders := orders + [order];
    }
  }

  lemma StartsAreReady(g: Adj, colour: seq<nat>, inDegree: seq<nat>, degree: seq<int>, i: nat, starts: seq<nat>)
    requires |inDegree| == |g| && forall b :: 0 <= b < |g| ==> inDegree[b] == Incoming(g, {}, b, |g|)
    requires Untouched(g, colour, degree, i) && StartsOf(inDegree, colour, i + 1, starts)
    requires IsComponent(g, Members(colour, i + 1))
    ensures Ready(g, Members(colour, i + 1), degree, starts)
  {}
}
