/** Connected components of the handler graph (first half of
    `HandlerDependencyAnalysis::getConnectedComponents`).

    Handlers are numbered in the order in which the maps list them. The search colours a handler
    when it leaves the queue, so the same handler may be queued and visited several times. */
module Components {

  /** The targets of each handler. */
  type Adj = seq<seq<nat>>

  predicate Edge(g: Adj, a: nat, b: nat) { a < |g| && b in g[a] }

  ghost predicate Closed(g: Adj) { forall a: nat, b: nat :: Edge(g, a, b) ==> b < |g| }

  // ----- Counting edges -----

  /** How often `b` is among the first `j` targets. */
  function Times(ts: seq<nat>, b: nat, j: nat): nat
    requires j <= |ts|
  {
    if j == 0 then 0 else Times(ts, b, j - 1) + if ts[j-1] == b then 1 else 0
  }

  lemma {:induction false} TimesPositive(ts: seq<nat>, b: nat, j: nat)
    requires j <= |ts|
    ensures Times(ts, b, j) > 0 <==> b in ts[..j]
    decreases j
  {
    if j > 0 {
      TimesPositive(ts, b, j - 1);
      assert ts[..j] == ts[..j-1] + [ts[j-1]];
    }
  }

  /** The edges into `b` from handlers below `h` that are not in `done`. */
  function Incoming(g: Adj, done: set<nat>, b: nat, h: nat): nat
    requires h <= |g|
  {
    if h == 0 then 0
    else Incoming(g, done, b, h - 1) + if h - 1 in done then 0 else Times(g[h-1], b, |g[h-1]|)
  }

  // ----- The undirected graph -----

  ghost predicate Symmetrized(g: Adj, u: Adj) {
    |u| == |g| && forall a: nat, b: nat :: Edge(u, a, b) <==> Edge(g, a, b) || (Edge(g, b, a) && a < |g|)
  }

  /** The reverse edges added so far: from handlers below `h`, and for the first `j` targets of `h`. */
  ghost predicate Reversed(g: Adj, u: Adj, h: nat, j: nat) {
    && |u| == |g| && (h < |g| ==> j <= |g[h]|)
    && forall a: nat, b: nat :: Edge(u, a, b) <==>
      Edge(g, a, b) || (a < |g| && ((b < h && Edge(g, b, a)) || (b == h < |g| && a in g[h][..j])))
  }

  lemma ReversedMore(g: Adj, u: Adj, h: nat, j: nat, u': Adj)
    requires Reversed(g, u, h, j) && h < |g| && j < |g[h]| && g[h][j] < |g|
    requires var t := g[h][j]; u' == if h in u[t] then u else u[t := u[t] + [h]]
    ensures Reversed(g, u', h, j + 1)
  {
    var t := g[h][j];
    assert g[h][..j + 1] == g[h][..j] + [t];
    forall a: nat, b: nat ensures Edge(u', a, b) <==> Edge(u, a, b) || (a == t && b == h) {
      if a == t && h !in u[t] {
        assert u'[a] == u[t] + [h];
      }
    }
    forall a: nat ensures a in g[h][..j + 1] <==> a in g[h][..j] || a == t {
    }
  }

  method BuildUndirected(g: Adj) returns (u: Adj, inDegree: seq<nat>)
    requires Closed(g)
    ensures Symmetrized(g, u)
    ensures |inDegree| == |g| && forall b :: 0 <= b < |g| ==> inDegree[b] == Incoming(g, {}, b, |g|)
  {
    u, inDegree := g, seq(|g|, _ => 0);
    for h := 0 to |g|
      invariant Reversed(g, u, h, 0)
      invariant |inDegree| == |g| && forall b :: 0 <= b < |g| ==> inDegree[b] == Incoming(g, {}, b, h)
    {
      var ts := g[h];
      for j := 0 to |ts|
        invariant Reversed(g, u, h, j)
        invariant |inDegree| == |g|
        invariant forall b :: 0 <= b < |g| ==> inDegree[b] == Incoming(g, {}, b, h) + Times(ts, b, j)
      {
        var t := ts[j];
        assert Edge(g, h, t);
        inDegree := inDegree[t := inDegree[t] + 1];
        ghost var was := u;
        if h !in u[t] {
          u := u[t := u[t] + [h]];
        }
        ReversedMore(g, was, h, j, u);
      }
      assert g[h][..|g[h]|] == g[h];
    }
  }

  // ----- The search -----

  /** Colour 0 means not visited. */
  datatype Search = Search(colour: seq<nat>, queue: seq<nat>, nodes: seq<nat>)

  function Uncoloured(ts: seq<nat>, colour: seq<nat>, j: nat): seq<nat>
    requires j <= |ts|
  {
    if j == 0 then []
    else Uncoloured(ts, colour, j - 1) + if ts[j-1] < |colour| && colour[ts[j-1]] == 0 then [ts[j-1]] else []
  }

  ghost predicate Fits(u: Adj, inDegree: seq<nat>, s: Search) {
    && |s.colour| == |inDegree| == |u|
    && forall i :: 0 <= i < |s.queue| ==> s.queue[i] < |u|
  }

  /** One turn: take a handler, colour it, queue its uncoloured neighbours. */
  function Visit(u: Adj, inDegree: seq<nat>, c: nat, s: Search): Search {
    if s.queue == [] || s.queue[0] >= |u| || |s.colour| != |u| || |inDegree| != |u| then s
    else
      var cur := s.queue[0];
      var colour := s.colour[cur := c];
      Search(colour, s.queue[1..] + Uncoloured(u[cur], colour, |u[cur]|),
             if inDegree[cur] == 0 then s.nodes + [cur] else s.nodes)
  }

  lemma {:induction false} UncolouredIn(ts: seq<nat>, colour: seq<nat>, j: nat, v: nat)
    requires j <= |ts|
    ensures v in Uncoloured(ts, colour, j) <==> v in ts[..j] && v < |colour| && colour[v] == 0
    decreases j
  {
    if j > 0 {
      UncolouredIn(ts, colour, j - 1, v);
      assert ts[..j] == ts[..j-1] + [ts[j-1]];
    }
  }

  /** The handler is in the queue. */
  ghost predicate Waiting(s: Search, v: nat) { v in s.queue }

  /** A path of `k` edges. */
  ghost predicate Path(u: Adj, k: nat, a: nat, b: nat) {
    if k == 0 then a == b else exists p: nat :: Path(u, k - 1, a, p) && Edge(u, p, b)
  }

  ghost predicate Connected(u: Adj, a: nat, b: nat) { exists k :: Path(u, k, a, b) }

  /** What holds during the search from `start` with colour `c`. */
  ghost predicate Searching(u: Adj, was: seq<nat>, start: nat, c: nat, s: Search) {
    && |s.colour| == |was| == |u| && start < |u| && was[start] == 0 && c > 0
    && (forall v :: 0 <= v < |u| ==> s.colour[v] == was[v] || (was[v] == 0 && s.colour[v] == c))
    && (forall v :: v in s.queue ==> v < |u| && was[v] == 0 && Connected(u, start, v))
    && (forall v :: 0 <= v < |u| && s.colour[v] != was[v] ==> Connected(u, start, v))
    && (forall a: nat, b: nat :: a < |u| && s.colour[a] != was[a] && Edge(u, a, b) && b < |u| && s.colour[b] == 0 ==>
      Waiting(s, b))
    && (s.colour[start] == 0 ==> Waiting(s, start))
  }

  /** Colours do not stop halfway: neighbours are both coloured or both not. */
  ghost predicate Settled(u: Adj, colour: seq<nat>) {
    |colour| == |u| && forall a: nat, b: nat :: a < |u| && Edge(u, a, b) && b < |u| ==>
      (colour[a] == 0 <==> colour[b] == 0)
  }

  lemma ConnectedStep(u: Adj, start: nat, a: nat, b: nat)
    requires Connected(u, start, a) && Edge(u, a, b)
    ensures Connected(u, start, b)
  {
    var k: nat :| Path(u, k, start, a);
    assert Path(u, k + 1, start, b);
  }

  /** After a turn, what is in the queue. */
  lemma QueueAfter(u: Adj, inDegree: seq<nat>, c: nat, s: Search, v: nat)
    requires Fits(u, inDegree, s) && s.queue != [] && c > 0
    ensures var cur, t := s.queue[0], Visit(u, inDegree, c, s);
      v in t.queue <==> v in s.queue[1..] || (Edge(u, cur, v) && v < |u| && t.colour[v] == 0)
  {
    var cur := s.queue[0];
    UncolouredIn(u[cur], s.colour[cur := c], |u[cur]|, v);
    assert u[cur][..|u[cur]|] == u[cur];
  }

  lemma VisitKeeps(u: Adj, inDegree: seq<nat>, was: seq<nat>, start: nat, c: nat, s: Search)
    requires Fits(u, inDegree, s) && s.queue != [] && Searching(u, was, start, c, s) && Settled(u, was)
    ensures Fits(u, inDegree, Visit(u, inDegree, c, s)) && Searching(u, was, start, c, Visit(u, inDegree, c, s))
  {
    var cur, t := s.queue[0], Visit(u, inDegree, c, s);
    assert cur in s.queue;
    forall v | v in t.queue ensures v < |u| && was[v] == 0 && Connected(u, start, v) {
      QueueAfter(u, inDegree, c, s, v);
      if v !in s.queue[1..] {
        ConnectedStep(u, start, cur, v);
      }
    }
    forall a: nat, b: nat | a < |u| && t.colour[a] != was[a] && Edge(u, a, b) && b < |u| && t.colour[b] == 0
      ensures Waiting(t, b)
    {
      QueueAfter(u, inDegree, c, s, b);
      if a != cur {
        assert Waiting(s, b);
        assert s.queue == [cur] + s.queue[1..];
      }
    }
    if t.colour[start] == 0 {
      QueueAfter(u, inDegree, c, s, start);
      assert s.queue == [cur] + s.queue[1..];
    }
    assert forall i :: 0 <= i < |t.queue| ==> t.queue[i] in t.queue;
  }

  // ----- Why it ends -----

  function UncolouredCount(colour: seq<nat>, n: nat): nat
    requires n <= |colour|
  {
    if n == 0 then 0 else UncolouredCount(colour, n - 1) + if colour[n-1] == 0 then 1 else 0
  }

  lemma {:induction false} ColouringCounts(colour: seq<nat>, v: nat, c: nat, n: nat)
    requires v < |colour| && n <= |colour| && c > 0
    ensures UncolouredCount(colour[v := c], n) == UncolouredCount(colour, n) - if v < n && colour[v] == 0 then 1 else 0
    decreases n
  {
    if n > 0 { ColouringCounts(colour, v, c, n - 1); }
  }

  /** The place of the first uncoloured handler in the queue, or its end. */
  function FirstUncoloured(queue: seq<nat>, colour: seq<nat>): (r: nat)
    ensures r <= |queue|
    ensures forall i :: 0 <= i < r ==> !(queue[i] < |colour| && colour[queue[i]] == 0)
    ensures r < |queue| ==> queue[r] < |colour| && colour[queue[r]] == 0
  {
    if queue == [] then 0
    else if queue[0] < |colour| && colour[queue[0]] == 0 then 0
    else 1 + FirstUncoloured(queue[1..], colour)
  }

  /** Visiting a coloured handler brings the next uncoloured one nearer, or shortens the queue. */
  lemma RevisitAdvances(u: Adj, inDegree: seq<nat>, was: seq<nat>, start: nat, c: nat, s: Search)
    requires Fits(u, inDegree, s) && s.queue != [] && Searching(u, was, start, c, s) && Settled(u, was)
    requires s.colour[s.queue[0]] != 0
    ensures var t := Visit(u, inDegree, c, s);
      FirstUncoloured(t.queue, t.colour) < FirstUncoloured(s.queue, s.colour) && t.colour == s.colour
  {
    var cur, t := s.queue[0], Visit(u, inDegree, c, s);
    assert cur in s.queue;
    assert s.colour[cur] == c;
    assert t.colour == s.colour;
    var r := FirstUncoloured(s.queue, s.colour);
    if r < |s.queue| {
      assert t.queue[r-1] == s.queue[r];
    } else {
      forall i | 0 <= i < |u[cur]| && u[cur][i] < |u| ensures s.colour[u[cur][i]] != 0 {
        var v := u[cur][i];
        assert Edge(u, cur, v);
        assert s.colour[v] == 0 ==> Waiting(s, v);
        assert v in s.queue ==> s.colour[v] != 0;
      }
      NothingUncoloured(u[cur], t.colour, |u[cur]|);
    }
  }

  lemma {:induction false} NothingUncoloured(ts: seq<nat>, colour: seq<nat>, j: nat)
    requires j <= |ts| && forall i :: 0 <= i < |ts| && ts[i] < |colour| ==> colour[ts[i]] != 0
    ensures Uncoloured(ts, colour, j) == []
    decreases j
  {
    if j > 0 { NothingUncoloured(ts, colour, j - 1); }
  }

  // ----- One component -----

  /** The component of `start`, and nothing else, has colour `c`. */
  ghost predicate Coloured(u: Adj, was: seq<nat>, start: nat, c: nat, colour: seq<nat>) {
    && |colour| == |was| == |u|
    && forall v :: 0 <= v < |u| ==> colour[v] == if was[v] == 0 && Connected(u, start, v) then c else was[v]
  }

  lemma {:induction false} DoneCoversPath(u: Adj, was: seq<nat>, start: nat, c: nat, s: Search, k: nat, v: nat)
    requires Searching(u, was, start, c, s) && s.queue == [] && Settled(u, was) && Path(u, k, start, v) && Closed(u)
    ensures v < |u| && was[v] == 0 && s.colour[v] == c
    decreases k
  {
    if k > 0 {
      var p: nat :| Path(u, k - 1, start, p) && Edge(u, p, v);
      DoneCoversPath(u, was, start, c, s, k - 1, p);
      assert s.colour[v] == 0 ==> Waiting(s, v);
      assert !Waiting(s, v);
    }
  }

  lemma Finished(u: Adj, was: seq<nat>, start: nat, c: nat, s: Search)
    requires Searching(u, was, start, c, s) && s.queue == [] && Settled(u, was) && Closed(u)
    ensures Coloured(u, was, start, c, s.colour)
  {
    forall v | 0 <= v < |u| ensures s.colour[v] == if was[v] == 0 && Connected(u, start, v) then c else was[v] {
      if Connected(u, start, v) {
        var k: nat :| Path(u, k, start, v);
        DoneCoversPath(u, was, start, c, s, k, v);
      }
    }
  }

  lemma Begins(u: Adj, inDegree: seq<nat>, was: seq<nat>, start: nat, c: nat)
    requires |was| == |inDegree| == |u| && start < |u| && was[start] == 0 && c > 0
    ensures var s := Search(was, [start], []); Fits(u, inDegree, s) && Searching(u, was, start, c, s)
  {
    assert Path(u, 0, start, start);
  }

  /** A turn colours one more handler, or brings the next uncoloured one nearer. */
  lemma TurnProgress(u: Adj, inDegree: seq<nat>, was: seq<nat>, start: nat, c: nat, s: Search)
    requires Fits(u, inDegree, s) && s.queue != [] && Searching(u, was, start, c, s) && Settled(u, was)
    ensures var t := Visit(u, inDegree, c, s);
      var before, after := UncolouredCount(s.colour, |u|), UncolouredCount(t.colour, |u|);
      after < before || (after == before && FirstUncoloured(t.queue, t.colour) < FirstUncoloured(s.queue, s.colour))
  {
    if s.colour[s.queue[0]] != 0 {
      RevisitAdvances(u, inDegree, was, start, c, s);
    } else {
      ColouringCounts(s.colour, s.queue[0], c, |u|);
    }
  }

  /** Search from an uncoloured handler. `nodes` collects the visited ones without predecessor. */
  method Explore(u: Adj, inDegree: seq<nat>, was: seq<nat>, start: nat, c: nat)
      returns (colour: seq<nat>, nodes: seq<nat>, ghost turns: nat)
    requires Closed(u) && |inDegree| == |u| && Settled(u, was) && start < |u| && was[start] == 0 && c > 0
    ensures Coloured(u, was, start, c, colour)
    ensures Search(colour, [], nodes) == Turns(u, inDegree, c, Search(was, [start], []), turns)
  {
    var s := Search(was, [start], []);
    turns := 0;
    Begins(u, inDegree, was, start, c);
    while s.queue != []
      invariant Fits(u, inDegree, s) && Searching(u, was, start, c, s)
      invariant s == Turns(u, inDegree, c, Search(was, [start], []), turns)
      decreases UncolouredCount(s.colour, |u|), FirstUncoloured(s.queue, s.colour)
    {
      VisitKeeps(u, inDegree, was, start, c, s);
      TurnProgress(u, inDegree, was, start, c, s);
      s := Visit(u, inDegree, c, s);
      turns := turns + 1;
    }
    Finished(u, was, start, c, s);
    colour, nodes := s.colour, s.nodes;
  }

  /** The state after so many turns. */
  function Turns(u: Adj, inDegree: seq<nat>, c: nat, s: Search, n: nat): Search {
    if n == 0 then s else Visit(u, inDegree, c, Turns(u, inDegree, c, s, n - 1))
  }

  // ----- Handlers without predecessor -----

  /** The collected handlers are the visited ones without incoming edge. */
  ghost predicate Collected(inDegree: seq<nat>, was: seq<nat>, s: Search)
    requires |s.colour| == |was| == |inDegree|
  {
    forall v: nat :: v in s.nodes <==> v < |was| && s.colour[v] != was[v] && inDegree[v] == 0
  }

  lemma VisitCollects(u: Adj, inDegree: seq<nat>, was: seq<nat>, start: nat, c: nat, s: Search)
    requires Fits(u, inDegree, s) && s.queue != [] && Searching(u, was, start, c, s) && Collected(inDegree, was, s)
    ensures Collected(inDegree, was, Visit(u, inDegree, c, s))
  {
    var cur := s.queue[0];
    assert cur in s.queue;
  }

  lemma {:induction false} TurnsKeep(u: Adj, inDegree: seq<nat>, was: seq<nat>, start: nat, c: nat, n: nat)
    requires |was| == |inDegree| == |u| && start < |u| && was[start] == 0 && c > 0 && Settled(u, was)
    ensures var s := Turns(u, inDegree, c, Search(was, [start], []), n);
      Fits(u, inDegree, s) && Searching(u, was, start, c, s) && Collected(inDegree, was, s)
    decreases n
  {
    if n == 0 {
      Begins(u, inDegree, was, start, c);
    } else {
      TurnsKeep(u, inDegree, was, start, c, n - 1);
      var s := Turns(u, inDegree, c, Search(was, [start], []), n - 1);
      if s.queue != [] {
        VisitKeeps(u, inDegree, was, start, c, s);
        VisitCollects(u, inDegree, was, start, c, s);
      }
    }
  }

  // ----- All components -----

  ghost predicate Symmetric(u: Adj) { forall a: nat, b: nat :: Edge(u, a, b) && b < |u| ==> Edge(u, b, a) }

  lemma {:induction false} PathConcat(u: Adj, k: nat, l: nat, a: nat, b: nat, c: nat)
    requires Path(u, k, a, b) && Path(u, l, b, c)
    ensures Path(u, k + l, a, c)
    decreases l
  {
    if l > 0 {
      var p: nat :| Path(u, l - 1, b, p) && Edge(u, p, c);
      PathConcat(u, k, l - 1, a, b, p);
    }
  }

  lemma {:induction false} PathBack(u: Adj, k: nat, a: nat, b: nat)
    requires Closed(u) && Symmetric(u) && Path(u, k, a, b)
    ensures Path(u, k, b, a)
    decreases k
  {
    if k > 0 {
      var p: nat :| Path(u, k - 1, a, p) && Edge(u, p, b);
      PathBack(u, k - 1, a, p);
      assert Edge(u, b, p);
      assert Path(u, 0, b, b);
      assert Path(u, 1, b, p);
      PathConcat(u, 1, k - 1, b, p, a);
    }
  }

  lemma ConnectedBoth(u: Adj, start: nat, a: nat, b: nat)
    requires Closed(u) && Symmetric(u) && Connected(u, start, a) && Connected(u, start, b)
    ensures Connected(u, a, b)
  {
    var k: nat :| Path(u, k, start, a);
    var l: nat :| Path(u, l, start, b);
    PathBack(u, k, start, a);
    PathConcat(u, k, l, a, start, b);
  }

  lemma {:induction false} SettledPath(u: Adj, was: seq<nat>, k: nat, a: nat, b: nat)
    requires Closed(u) && Settled(u, was) && Path(u, k, a, b) && a < |u|
    ensures b < |u| && (was[a] == 0 <==> was[b] == 0)
    decreases k
  {
    if k > 0 {
      var p: nat :| Path(u, k - 1, a, p) && Edge(u, p, b);
      SettledPath(u, was, k - 1, a, p);
    }
  }

  /** Coloured handlers share a colour exactly when they are connected. */
  ghost predicate Separates(u: Adj, colour: seq<nat>, next: nat) {
    && |colour| == |u|
    && (forall v :: 0 <= v < |u| ==> colour[v] < next)
    && forall v, w :: 0 <= v < |u| && 0 <= w < |u| && colour[v] != 0 && colour[w] != 0 ==> SameIff(u, colour, v, w)
  }

  ghost predicate SameIff(u: Adj, colour: seq<nat>, v: nat, w: nat)
    requires v < |colour| && w < |colour|
  {
    colour[v] == colour[w] <==> Connected(u, v, w)
  }

  lemma PairSeparated(u: Adj, was: seq<nat>, start: nat, c: nat, colour: seq<nat>, v: nat, w: nat)
    requires Closed(u) && Symmetric(u) && Settled(u, was) && Separates(u, was, c) && Coloured(u, was, start, c, colour)
    requires start < |u| && was[start] == 0 && c > 0 && v < |u| && w < |u| && colour[v] != 0 && colour[w] != 0
    ensures SameIff(u, colour, v, w)
  {
    if was[v] != 0 && was[w] != 0 {
      assert SameIff(u, was, v, w);
    } else if was[v] == 0 && was[w] == 0 {
      ConnectedBoth(u, start, v, w);
    } else if Connected(u, v, w) {
      var k: nat :| Path(u, k, v, w);
      SettledPath(u, was, k, v, w);
    }
  }

  lemma StaysSettled(u: Adj, was: seq<nat>, start: nat, c: nat, colour: seq<nat>)
    requires Closed(u) && Symmetric(u) && Settled(u, was) && Coloured(u, was, start, c, colour) && c > 0
    ensures Settled(u, colour)
  {
    forall a: nat, b: nat | a < |u| && Edge(u, a, b) && b < |u| ensures colour[a] == 0 <==> colour[b] == 0 {
      assert Edge(u, b, a);
      if Connected(u, start, a) { ConnectedStep(u, start, a, b); }
      if Connected(u, start, b) { ConnectedStep(u, start, b, a); }
    }
  }

  lemma SymmetrizedIs(g: Adj, u: Adj)
    requires Closed(g) && Symmetrized(g, u)
    ensures Closed(u) && Symmetric(u)
  {}

  /** What the search of one component leaves for the ordering. */
  ghost predicate StartsOf(inDegree: seq<nat>, colour: seq<nat>, c: nat, nodes: seq<nat>)
    requires |colour| == |inDegree|
  {
    forall v: nat :: v in nodes <==> v < |colour| && colour[v] == c && inDegree[v] == 0
  }

  lemma StartsCollected(u: Adj, inDegree: seq<nat>, was: seq<nat>, start: nat, c: nat, colour: seq<nat>,
      nodes: seq<nat>, turns: nat)
    requires |was| == |inDegree| == |u| && start < |u| && was[start] == 0 && c > 0 && Settled(u, was)
    requires Separates(u, was, c)
    requires Coloured(u, was, start, c, colour)
    requires Search(colour, [], nodes) == Turns(u, inDegree, c, Search(was, [start], []), turns)
    ensures StartsOf(inDegree, colour, c, nodes)
  {
    TurnsKeep(u, inDegree, was, start, c, turns);
  }

  lemma StartsStay(u: Adj, inDegree: seq<nat>, was: seq<nat>, start: nat, c: nat, colour: seq<nat>, d: nat,
      nodes: seq<nat>)
    requires |was| == |inDegree| == |u| && Coloured(u, was, start, c, colour) && 0 < d < c
    requires StartsOf(inDegree, was, d, nodes)
    ensures StartsOf(inDegree, colour, d, nodes)
  {
    forall v: nat ensures v in nodes <==> v < |colour| && colour[v] == d && inDegree[v] == 0 {
    }
  }

  // ----- When no handler is visited twice -----

  /** The component of `start` is a tree: every other member has one parent, one step nearer to
      `start`; every edge, self-edges aside, joins a parent and its child; and no parent lists a
      child twice. */
  ghost predicate IsTree(u: Adj, start: nat, parent: nat -> nat, depth: nat -> nat) {
    && (forall a: nat, b: nat :: Edge(u, a, b) && a != b && Connected(u, start, a) ==>
      ParentChild(start, parent, depth, a, b))
    && (forall a: nat :: a < |u| && Connected(u, start, a) ==> ListsChildrenOnce(u, start, parent, a))
  }

  ghost predicate ParentChild(start: nat, parent: nat -> nat, depth: nat -> nat, a: nat, b: nat) {
    || (b != start && parent(b) == a && depth(b) == depth(a) + 1)
    || (a != start && parent(a) == b && depth(a) == depth(b) + 1)
  }

  ghost predicate ListsChildrenOnce(u: Adj, start: nat, parent: nat -> nat, a: nat)
    requires a < |u|
  {
    forall i, j :: 0 <= i < j < |u[a]| && u[a][i] == u[a][j] ==>
      u[a][i] == a || u[a][i] == start || parent(u[a][i]) != a
  }

  ghost predicate Distinct(q: seq<nat>) { forall i, j :: 0 <= i < j < |q| ==> q[i] != q[j] }

  /** The queue holds uncoloured handlers, each once, whose parents are coloured, and no handler
      was collected twice. */
  ghost predicate Once(u: Adj, start: nat, parent: nat -> nat, s: Search) {
    && Distinct(s.queue) && Distinct(s.nodes)
    && (forall v :: v in s.queue ==>
      v < |s.colour| && s.colour[v] == 0 && (v != start ==> parent(v) < |s.colour| && s.colour[parent(v)] != 0))
    && (forall v :: v in s.nodes ==> v < |s.colour| && s.colour[v] != 0)
    && (start < |s.colour| && s.colour[start] == 0 ==> s.queue == [start])
  }

  lemma {:induction false} UncolouredDistinct(ts: seq<nat>, colour: seq<nat>, j: nat)
    requires j <= |ts|
    requires forall p, q :: 0 <= p < q < |ts| && ts[p] == ts[q] ==> !(ts[p] < |colour| && colour[ts[p]] == 0)
    ensures Distinct(Uncoloured(ts, colour, j))
    decreases j
  {
    if j > 0 {
      UncolouredDistinct(ts, colour, j - 1);
      UncolouredIn(ts, colour, j - 1, ts[j-1]);
    }
  }

  lemma DistinctConcat(a: seq<nat>, b: seq<nat>)
    requires Distinct(a) && Distinct(b) && forall v :: v in a ==> v !in b
    ensures Distinct(a + b)
  {
    forall i, j | 0 <= i < j < |a + b| ensures (a + b)[i] != (a + b)[j] {
      if i < |a| <= j {
        assert a[i] in a && b[j - |a|] in b;
      }
    }
  }

  /** The neighbours that a handler of the tree queues are its children, and new in the queue. */
  lemma ChildIsNew(u: Adj, inDegree: seq<nat>, was: seq<nat>, start: nat, c: nat, parent: nat -> nat, depth: nat -> nat,
      s: Search, v: nat)
    requires Fits(u, inDegree, s) && s.queue != [] && Searching(u, was, start, c, s)
    requires IsTree(u, start, parent, depth) && Once(u, start, parent, s)
    requires var cur := s.queue[0]; Edge(u, cur, v) && v < |u| && s.colour[cur := c][v] == 0
    ensures v !in s.queue && v != start && parent(v) == s.queue[0]
  {
    var cur := s.queue[0];
    assert cur in s.queue;
    assert ParentChild(start, parent, depth, cur, v);
  }

  lemma ChildrenAreNew(u: Adj, inDegree: seq<nat>, was: seq<nat>, start: nat, c: nat, parent: nat -> nat,
      depth: nat -> nat, s: Search)
    requires Fits(u, inDegree, s) && s.queue != [] && Searching(u, was, start, c, s)
    requires IsTree(u, start, parent, depth) && Once(u, start, parent, s)
    ensures var cur, colour := s.queue[0], s.colour[s.queue[0] := c];
      var more := Uncoloured(u[cur], colour, |u[cur]|);
      Distinct(more) && forall v :: v in more ==>
        v !in s.queue && v != start && parent(v) == cur && v < |u| && colour[v] == 0
  {
    var cur, colour := s.queue[0], s.colour[s.queue[0] := c];
    var more := Uncoloured(u[cur], colour, |u[cur]|);
    assert cur in s.queue;
    assert ListsChildrenOnce(u, start, parent, cur);
    forall p, q | 0 <= p < q < |u[cur]| && u[cur][p] == u[cur][q]
      ensures !(u[cur][p] < |colour| && colour[u[cur][p]] == 0)
    {
      var v := u[cur][p];
      if v < |colour| && colour[v] == 0 {
        assert Edge(u, cur, v);
        ChildIsNew(u, inDegree, was, start, c, parent, depth, s, v);
        assert false;
      }
    }
    UncolouredDistinct(u[cur], colour, |u[cur]|);
    forall v | v in more ensures v !in s.queue && v != start && parent(v) == cur && v < |u| && colour[v] == 0 {
      UncolouredIn(u[cur], colour, |u[cur]|, v);
      assert u[cur][..|u[cur]|] == u[cur];
      ChildIsNew(u, inDegree, was, start, c, parent, depth, s, v);
    }
  }

  lemma QueueOnce(u: Adj, start: nat, parent: nat -> nat, c: nat, s: Search, more: seq<nat>)
    requires s.queue != [] && s.queue[0] < |s.colour| && Once(u, start, parent, s) && c > 0 && Distinct(more)
    requires forall v :: v in more ==>
      v !in s.queue && v != start && parent(v) == s.queue[0] && v < |s.colour| && s.colour[s.queue[0] := c][v] == 0
    ensures Once(u, start, parent, Search(s.colour[s.queue[0] := c], s.queue[1..] + more, s.nodes + [s.queue[0]]))
    ensures Once(u, start, parent, Search(s.colour[s.queue[0] := c], s.queue[1..] + more, s.nodes))
  {
    var cur, rest := s.queue[0], s.queue[1..];
    assert cur in s.queue;
    assert forall v :: v in rest ==> v in s.queue && v != cur;
    DistinctConcat(rest, more);
    DistinctConcat(s.nodes, [cur]);
  }

  ghost predicate TreeSearch(u: Adj, inDegree: seq<nat>, was: seq<nat>, start: nat, c: nat, parent: nat -> nat,
      s: Search) {
    Fits(u, inDegree, s) && Searching(u, was, start, c, s) && Once(u, start, parent, s)
  }

  lemma TreeTurn(u: Adj, inDegree: seq<nat>, was: seq<nat>, start: nat, c: nat, parent: nat -> nat, depth: nat -> nat,
      s: Search)
    requires Settled(u, was) && IsTree(u, start, parent, depth) && TreeSearch(u, inDegree, was, start, c, parent, s)
    ensures TreeSearch(u, inDegree, was, start, c, parent, Visit(u, inDegree, c, s))
  {
    if s.queue != [] {
      VisitKeeps(u, inDegree, was, start, c, s);
      ChildrenAreNew(u, inDegree, was, start, c, parent, depth, s);
      var cur := s.queue[0];
      QueueOnce(u, start, parent, c, s, Uncoloured(u[cur], s.colour[cur := c], |u[cur]|));
    }
  }

  lemma TreeBegins(u: Adj, inDegree: seq<nat>, was: seq<nat>, start: nat, c: nat, parent: nat -> nat)
    requires |was| == |inDegree| == |u| && start < |u| && was[start] == 0 && c > 0
    ensures TreeSearch(u, inDegree, was, start, c, parent, Search(was, [start], []))
  {
    Begins(u, inDegree, was, start, c);
  }

  /** In a tree, no turn visits a handler again, so none is collected twice. */
  lemma {:induction false} TreeVisitsOnce(u: Adj, inDegree: seq<nat>, was: seq<nat>, start: nat, c: nat,
      parent: nat -> nat, depth: nat -> nat, n: nat)
    requires |was| == |inDegree| == |u| && start < |u| && was[start] == 0 && c > 0 && Settled(u, was)
    requires IsTree(u, start, parent, depth)
    ensures TreeSearch(u, inDegree, was, start, c, parent, Turns(u, inDegree, c, Search(was, [start], []), n))
    decreases n
  {
    if n == 0 {
      TreeBegins(u, inDegree, was, start, c, parent);
    } else {
      TreeVisitsOnce(u, inDegree, was, start, c, parent, depth, n - 1);
      TreeTurn(u, inDegree, was, start, c, parent, depth, Turns(u, inDegree, c, Search(was, [start], []), n - 1));
    }
  }

  // ----- All of them -----

  /** One search: the colours at its start, the handler it starts from, and its turns. */
  datatype Tour = Tour(was: seq<nat>, root: nat, turns: nat)

  function Toured(u: Adj, inDegree: seq<nat>, c: nat, t: Tour): Search {
    Turns(u, inDegree, c, Search(t.was, [t.root], []), t.turns)
  }

  /** The search was over after its turns, and had collected `nodes`. */
  ghost predicate Collects(u: Adj, inDegree: seq<nat>, c: nat, t: Tour, nodes: seq<nat>) {
    && |t.was| == |u| && t.root < |u| && t.was[t.root] == 0 && Settled(u, t.was)
    && Toured(u, inDegree, c, t).queue == [] && Toured(u, inDegree, c, t).nodes == nodes
  }

  /** What holds between the searches. */
  ghost predicate Found(u: Adj, inDegree: seq<nat>, colour: seq<nat>, starts: seq<seq<nat>>, tours: seq<Tour>) {
    && |inDegree| == |u| && |tours| == |starts|
    && (forall c :: 0 <= c < |starts| ==> Collects(u, inDegree, c + 1, tours[c], starts[c]))
    && Settled(u, colour) && Separates(u, colour, |starts| + 1)
    && (forall c :: 0 <= c < |starts| ==> colour[tours[c].root] == c + 1)
    && forall c :: 0 <= c < |starts| ==> StartsOf(inDegree, colour, c + 1, starts[c])
  }

  lemma FoundNone(u: Adj, inDegree: seq<nat>, colour: seq<nat>)
    requires |inDegree| == |colour| == |u| && forall v :: 0 <= v < |colour| ==> colour[v] == 0
    ensures Found(u, inDegree, colour, [], [])
  {}

  lemma FoundMore(u: Adj, inDegree: seq<nat>, was: seq<nat>, starts: seq<seq<nat>>, tours: seq<Tour>, h: nat,
      colour: seq<nat>, nodes: seq<nat>, turns: nat)
    requires Closed(u) && Symmetric(u) && Found(u, inDegree, was, starts, tours) && h < |u| && was[h] == 0
    requires Coloured(u, was, h, |starts| + 1, colour)
    requires Search(colour, [], nodes) == Turns(u, inDegree, |starts| + 1, Search(was, [h], []), turns)
    ensures Found(u, inDegree, colour, starts + [nodes], tours + [Tour(was, h, turns)])
    ensures colour[h] > 0 && forall v :: 0 <= v < |u| && was[v] > 0 ==> colour[v] > 0
  {
    var c := |starts| + 1;
    assert Path(u, 0, h, h);
    StaysSettled(u, was, h, c, colour);
    forall v, w | 0 <= v < |u| && 0 <= w < |u| && colour[v] != 0 && colour[w] != 0 ensures SameIff(u, colour, v, w) {
      PairSeparated(u, was, h, c, colour, v, w);
    }
    StartsCollected(u, inDegree, was, h, c, colour, nodes, turns);
    forall d | 0 <= d < |starts| ensures StartsOf(inDegree, colour, d + 1, starts[d]) {
      StartsStay(u, inDegree, was, h, c, colour, d + 1, starts[d]);
    }
  }

  /** Give a new colour to the component of an uncoloured handler. */
  method ExploreNext(u: Adj, inDegree: seq<nat>, was: seq<nat>, starts: seq<seq<nat>>, ghost tours: seq<Tour>, h: nat)
      returns (colour: seq<nat>, starts': seq<seq<nat>>, ghost tours': seq<Tour>)
    requires Closed(u) && Symmetric(u) && Found(u, inDegree, was, starts, tours) && h < |u| && was[h] == 0
    ensures Found(u, inDegree, colour, starts', tours')
    ensures colour[h] > 0 && forall v :: 0 <= v < |u| && was[v] > 0 ==> colour[v] > 0
  {
    var nodes;
    ghost var turns;
    colour, nodes, turns := Explore(u, inDegree, was, h, |starts| + 1);
    FoundMore(u, inDegree, was, starts, tours, h, colour, nodes, turns);
    starts', tours' := starts + [nodes], tours + [Tour(was, h, turns)];
  }

  /** Every handler gets a colour; two share one exactly when they are connected. The starting
      handlers of each colour are its members without incoming edge. */
  method FindComponents(g: Adj)
      returns (colour: seq<nat>, starts: seq<seq<nat>>, u: Adj, inDegree: seq<nat>, ghost tours: seq<Tour>)
    requires Closed(g)
    ensures Symmetrized(g, u) && Found(u, inDegree, colour, starts, tours) && forall v :: 0 <= v < |g| ==> colour[v] > 0
    ensures |inDegree| == |g| && forall b :: 0 <= b < |g| ==> inDegree[b] == Incoming(g, {}, b, |g|)
  {
    u, inDegree := BuildUndirected(g);
    colour, starts, tours := seq(|g|, _ => 0), [], [];
    FoundNone(u, inDegree, colour);
    colour, starts, tours := ExploreAll(g, u, inDegree, colour);
  }

  method ExploreAll(ghost g: Adj, u: Adj, inDegree: seq<nat>, none: seq<nat>)
      returns (colour: seq<nat>, starts: seq<seq<nat>>, ghost tours: seq<Tour>)
    requires Closed(g) && Symmetrized(g, u) && Found(u, inDegree, none, [], [])
    ensures Found(u, inDegree, colour, starts, tours) && forall v :: 0 <= v < |u| ==> colour[v] > 0
  {
    SymmetrizedIs(g, u);
    colour, starts, tours := none, [], [];
    for h := 0 to |u|
      invariant Found(u, inDegree, colour, starts, tours)
      invariant forall v :: 0 <= v < h ==> colour[v] > 0
    {
      if colour[h] == 0 {
        colour, starts, tours := ExploreNext(u, inDegree, colour, starts, tours, h);
      }
    }
  }

  // ----- A handler visited twice -----

  /** Edges from 0 and from 3 to both 1 and 2. */
  const DIAMOND: Adj := [[1, 2], [], [], [1, 2]]
  const DIAMOND_BOTH_WAYS: Adj := [[1, 2], [0, 3], [0, 3], [1, 2]]
  const DIAMOND_DEGREES: seq<nat> := [0, 2, 2, 0]

  lemma DiamondIsSymmetrized()
    ensures Symmetrized(DIAMOND, DIAMOND_BOTH_WAYS)
  {}

  lemma DiamondHasDegrees(b: nat)
    requires b < 4
    ensures DIAMOND_DEGREES[b] == Incoming(DIAMOND, {}, b, 4)
  {
    assert Times([1, 2], b, 2) == Times([1, 2], b, 1) + if b == 2 then 1 else 0;
    assert Times([1, 2], b, 1) == if b == 1 then 1 else 0;
    assert Incoming(DIAMOND, {}, b, 1) == Times([1, 2], b, 2);
    assert Incoming(DIAMOND, {}, b, 3) == Incoming(DIAMOND, {}, b, 2) == Incoming(DIAMOND, {}, b, 1);
  }

  function DiamondTurns(n: nat): Search {
    Turns(DIAMOND_BOTH_WAYS, DIAMOND_DEGREES, 1, Search([0, 0, 0, 0], [0], []), n)
  }

  lemma Pair(a: nat, b: nat, colour: seq<nat>)
    requires a < |colour| && b < |colour|
    ensures Uncoloured([a, b], colour, 2) == (if colour[a] == 0 then [a] else []) + (if colour[b] == 0 then [b] else [])
  {
    var ts := [a, b];
    assert Uncoloured(ts, colour, 0) == [];
    assert Uncoloured(ts, colour, 1) == [] + if colour[a] == 0 then [a] else [];
    assert Uncoloured(ts, colour, 2) == Uncoloured(ts, colour, 1) + if colour[b] == 0 then [b] else [];
  }

  lemma VisitPair(s: Search, cur: nat, a: nat, b: nat)
    requires |s.colour| == 4 && s.queue != [] && s.queue[0] == cur < 4
    requires DIAMOND_BOTH_WAYS[cur] == [a, b] && a < 4 && b < 4
    ensures var colour := s.colour[cur := 1];
      var more := (if colour[a] == 0 then [a] else []) + (if colour[b] == 0 then [b] else []);
      Visit(DIAMOND_BOTH_WAYS, DIAMOND_DEGREES, 1, s)
        == Search(colour, s.queue[1..] + more, if DIAMOND_DEGREES[cur] == 0 then s.nodes + [cur] else s.nodes)
  {
    Pair(a, b, s.colour[cur := 1]);
  }

  lemma DiamondTwoTurns()
    ensures DiamondTurns(2) == Search([1, 1, 0, 0], [2, 3], [0])
  {
    VisitPair(Search([0, 0, 0, 0], [0], []), 0, 1, 2);
    assert DiamondTurns(1) == Search([1, 0, 0, 0], [1, 2], [0]);
    VisitPair(Search([1, 0, 0, 0], [1, 2], [0]), 1, 0, 3);
  }

  lemma DiamondThirdTurn()
    ensures Visit(DIAMOND_BOTH_WAYS, DIAMOND_DEGREES, 1, Search([1, 1, 0, 0], [2, 3], [0])) ==
      Search([1, 1, 1, 0], [3, 3], [0])
  {
    VisitPair(Search([1, 1, 0, 0], [2, 3], [0]), 2, 0, 3);
  }

  lemma DiamondFourthTurn()
    ensures Visit(DIAMOND_BOTH_WAYS, DIAMOND_DEGREES, 1, Search([1, 1, 1, 0], [3, 3], [0])) ==
      Search([1, 1, 1, 1], [3], [0, 3])
  {
    VisitPair(Search([1, 1, 1, 0], [3, 3], [0]), 3, 1, 2);
  }

  lemma DiamondFifthTurn()
    ensures Visit(DIAMOND_BOTH_WAYS, DIAMOND_DEGREES, 1, Search([1, 1, 1, 1], [3], [0, 3])) ==
      Search([1, 1, 1, 1], [], [0, 3, 3])
  {
    VisitPair(Search([1, 1, 1, 1], [3], [0, 3]), 3, 1, 2);
  }

  /** Handler 3 is queued by 1 and by 2, visited twice, and collected twice. */
  lemma DiamondCollectsTwice()
    ensures Symmetrized(DIAMOND, DIAMOND_BOTH_WAYS)
    ensures forall b: nat :: b < 4 ==> DIAMOND_DEGREES[b] == Incoming(DIAMOND, {}, b, 4)
    ensures DiamondTurns(5) == Search([1, 1, 1, 1], [], [0, 3, 3])
  {
    DiamondIsSymmetrized();
    forall b: nat | b < 4 ensures DIAMOND_DEGREES[b] == Incoming(DIAMOND, {}, b, 4) {
      DiamondHasDegrees(b);
    }
    DiamondRun();
  }

  lemma DiamondRun()
    ensures DiamondTurns(5) == Search([1, 1, 1, 1], [], [0, 3, 3])
  {
    DiamondTwoTurns();
    DiamondThirdTurn();
    DiamondFourthTurn();
    DiamondFifthTurn();
    assert DiamondTurns(3) == Visit(DIAMOND_BOTH_WAYS, DIAMOND_DEGREES, 1, DiamondTurns(2));
    assert DiamondTurns(4) == Visit(DIAMOND_BOTH_WAYS, DIAMOND_DEGREES, 1, DiamondTurns(3));
  }
}
