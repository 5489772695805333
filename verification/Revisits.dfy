/** How often the component search visits a handler.

    A handler is coloured only when it leaves the queue, so every turn that takes one of its
    neighbours before that queues it once more. This module counts the visits exactly, and shows
    that no handler is visited twice exactly when the component is a tree. */
module Revisits {
  import opened Components

  /** A search from `start`, which is not coloured yet. */
  datatype Hunt = Hunt(u: Adj, inDegree: seq<nat>, was: seq<nat>, start: nat, c: nat)

  ghost predicate Ready(h: Hunt) {
    && Closed(h.u) && Symmetric(h.u) && |h.was| == |h.inDegree| == |h.u|
    && h.start < |h.u| && h.was[h.start] == 0 && h.c > 0 && Settled(h.u, h.was)
  }

  function At(h: Hunt, n: nat): Search { Turns(h.u, h.inDegree, h.c, Search(h.was, [h.start], []), n) }

  predicate Busy(h: Hunt, n: nat) { At(h, n).queue != [] }

  /** The handler that turn `n` takes. */
  function Head(h: Hunt, n: nat): nat { if Busy(h, n) then At(h, n).queue[0] else 0 }

  /** The handlers that turn `n` queues. */
  function Pushed(h: Hunt, n: nat): seq<nat> {
    if Busy(h, n) && Head(h, n) < |h.u| then Uncoloured(h.u[Head(h, n)], At(h, n + 1).colour, |h.u[Head(h, n)]|) else []
  }

  /** The handlers visited in the first `n` turns, in order. */
  function Taken(h: Hunt, n: nat): seq<nat> {
    if n == 0 then [] else Taken(h, n - 1) + if Busy(h, n - 1) then [Head(h, n - 1)] else []
  }

  /** All that was in the queue during the first `n` turns, in order. */
  function Entered(h: Hunt, n: nat): seq<nat> {
    if n == 0 then [h.start] else Entered(h, n - 1) + Pushed(h, n - 1)
  }

  function Count(s: seq<nat>, v: nat): nat { Times(s, v, |s|) }

  // ----- The state of the search -----

  ghost predicate Good(h: Hunt, n: nat) {
    Fits(h.u, h.inDegree, At(h, n)) && Searching(h.u, h.was, h.start, h.c, At(h, n))
  }

  lemma AlwaysGood(h: Hunt, n: nat)
    requires Ready(h)
    ensures Good(h, n)
  {
    TurnsKeep(h.u, h.inDegree, h.was, h.start, h.c, n);
  }

  lemma TurnTakes(h: Hunt, n: nat)
    requires Ready(h) && Busy(h, n)
    ensures var s := At(h, n);
      && s.queue[0] < |h.u| && |s.colour| == |h.u| == |h.was| && h.was[s.queue[0]] == 0
      && At(h, n + 1).colour == s.colour[s.queue[0] := h.c]
      && At(h, n + 1).queue == s.queue[1..] + Pushed(h, n)
      && At(h, n + 1).nodes == if h.inDegree[s.queue[0]] == 0 then s.nodes + [s.queue[0]] else s.nodes
  {
    AlwaysGood(h, n);
    assert At(h, n).queue[0] in At(h, n).queue;
  }

  lemma IdleStays(h: Hunt, n: nat)
    requires !Busy(h, n)
    ensures At(h, n + 1) == At(h, n) && Pushed(h, n) == [] && Taken(h, n + 1) == Taken(h, n)
  {}

  lemma MoveHead(taken: seq<nat>, q: seq<nat>, entered: seq<nat>, pushed: seq<nat>)
    requires taken + q == entered && q != []
    ensures (taken + [q[0]]) + (q[1..] + pushed) == entered + pushed
  {
    assert q == [q[0]] + q[1..];
  }

  /** Nothing is lost: what was queued has been visited, or is still in the queue. */
  ghost predicate Conserved(h: Hunt, n: nat) { Taken(h, n) + At(h, n).queue == Entered(h, n) }

  lemma {:induction false} QueueIsConserved(h: Hunt, n: nat)
    requires Ready(h)
    ensures Conserved(h, n)
  {
    if n == 0 {
      ConservedFirst(h);
    } else {
      var m: nat := n - 1;
      QueueIsConserved(h, m);
      ConservedStep(h, m);
    }
  }

  lemma ConservedFirst(h: Hunt)
    ensures Conserved(h, 0)
  {}

  lemma ConservedStep(h: Hunt, n: nat)
    requires Ready(h) && Conserved(h, n)
    ensures Conserved(h, n + 1)
  {
    if Busy(h, n) {
      TurnTakes(h, n);
      MoveHead(Taken(h, n), At(h, n).queue, Entered(h, n), Pushed(h, n));
    } else {
      IdleStays(h, n);
      assert Entered(h, n) + [] == Entered(h, n);
    }
  }

  /** A handler has the colour of the search exactly when it has been visited. */
  ghost predicate ColourTells(h: Hunt, n: nat, v: nat)
    requires v < |h.was|
  {
    && |At(h, n).colour| == |h.was| && At(h, n).colour[v] == (if v in Taken(h, n) then h.c else h.was[v])
    && (v in Taken(h, n) ==> h.was[v] == 0)
  }

  lemma {:induction false} ColouredIsTaken(h: Hunt, n: nat, v: nat)
    requires Ready(h) && v < |h.u|
    ensures ColourTells(h, n, v)
  {
    if n > 0 {
      ColouredIsTaken(h, n - 1, v);
      ColouredStep(h, n - 1, v);
    }
  }

  lemma ColouredStep(h: Hunt, n: nat, v: nat)
    requires Ready(h) && v < |h.u| && ColourTells(h, n, v)
    ensures ColourTells(h, n + 1, v)
  {
    if Busy(h, n) {
      TurnTakes(h, n);
      assert Taken(h, n + 1) == Taken(h, n) + [Head(h, n)];
    } else {
      IdleStays(h, n);
    }
  }

  // ----- Counting -----

  lemma {:induction false} CountConcat(a: seq<nat>, b: seq<nat>, v: nat, j: nat)
    requires j <= |b|
    ensures Times(a + b, v, |a| + j) == Count(a, v) + Times(b, v, j)
    decreases j
  {
    if j == 0 {
      TimesPrefix(a, a + b, v, |a|);
    } else {
      CountConcat(a, b, v, j - 1);
    }
  }

  lemma {:induction false} TimesPrefix(a: seq<nat>, b: seq<nat>, v: nat, j: nat)
    requires j <= |a| <= |b| && a == b[..|a|]
    ensures Times(a, v, j) == Times(b, v, j)
    decreases j
  {
    if j > 0 {
      TimesPrefix(a, b, v, j - 1);
      assert a[j-1] == b[j-1];
    }
  }

  lemma CountSum(a: seq<nat>, b: seq<nat>, v: nat)
    ensures Count(a + b, v) == Count(a, v) + Count(b, v)
  {
    CountConcat(a, b, v, |b|);
  }

  lemma CountOne(w: nat, v: nat)
    ensures Count([w], v) == if w == v then 1 else 0
  {
    assert Times([w], v, 1) == Times([w], v, 0) + if w == v then 1 else 0;
  }

  lemma {:induction false} CountUncoloured(ts: seq<nat>, colour: seq<nat>, j: nat, v: nat)
    requires j <= |ts| && v < |colour|
    ensures Count(Uncoloured(ts, colour, j), v) == if colour[v] == 0 then Times(ts, v, j) else 0
    decreases j
  {
    if j > 0 {
      CountUncoloured(ts, colour, j - 1, v);
      var more: seq<nat> := if ts[j-1] < |colour| && colour[ts[j-1]] == 0 then [ts[j-1]] else [];
      CountSum(Uncoloured(ts, colour, j - 1), more, v);
      CountOne(ts[j-1], v);
    }
  }

  /** How often turn `n` queues `v`: once for each time its handler lists `v`, as long as `v`
      itself is not visited. */
  function Offer(h: Hunt, v: nat, n: nat): nat {
    if Busy(h, n) && Head(h, n) < |h.u| && v !in Taken(h, n + 1) then Count(h.u[Head(h, n)], v) else 0
  }

  function Offers(h: Hunt, v: nat, n: nat): nat { if n == 0 then 0 else Offers(h, v, n - 1) + Offer(h, v, n - 1) }

  lemma PushedCount(h: Hunt, n: nat, v: nat)
    requires Ready(h) && v < |h.u| && h.was[v] == 0
    ensures Count(Pushed(h, n), v) == Offer(h, v, n)
  {
    if Busy(h, n) {
      TurnTakes(h, n);
      ColouredIsTaken(h, n + 1, v);
      CountUncoloured(h.u[Head(h, n)], At(h, n + 1).colour, |h.u[Head(h, n)]|, v);
    } else {
      assert Count([], v) == 0;
    }
  }

  lemma EnteredFirst(h: Hunt, v: nat)
    ensures Count(Entered(h, 0), v) == if v == h.start then 1 else 0
  {
    CountOne(h.start, v);
  }

  lemma OffersStep(h: Hunt, v: nat, n: nat)
    ensures Offers(h, v, 0) == 0 && Offers(h, v, n + 1) == Offers(h, v, n) + Offer(h, v, n)
  {}

  lemma {:induction false} EnteredCount(h: Hunt, n: nat, v: nat)
    requires Ready(h) && v < |h.u| && h.was[v] == 0
    ensures Count(Entered(h, n), v) == (if v == h.start then 1 else 0) + Offers(h, v, n)
  {
    if n == 0 {
      EnteredFirst(h, v);
      OffersStep(h, v, 0);
    } else {
      var m: nat := n - 1;
      EnteredCount(h, m, v);
      EnteredStep(h, m, v);
      OffersStep(h, v, m);
    }
  }

  lemma EnteredStep(h: Hunt, n: nat, v: nat)
    requires Ready(h) && v < |h.u| && h.was[v] == 0
    ensures Count(Entered(h, n + 1), v) == Count(Entered(h, n), v) + Offer(h, v, n)
  {
    PushedCount(h, n, v);
    CountSum(Entered(h, n), Pushed(h, n), v);
  }

  lemma {:induction false} CollectedCount(h: Hunt, n: nat, v: nat)
    requires Ready(h) && v < |h.u|
    ensures Count(At(h, n).nodes, v) == if h.inDegree[v] == 0 then Count(Taken(h, n), v) else 0
  {
    if n > 0 {
      CollectedCount(h, n - 1, v);
      if Busy(h, n - 1) {
        TurnTakes(h, n - 1);
        var cur := Head(h, n - 1);
        CountOne(cur, v);
        CountSum(At(h, n - 1).nodes, [cur], v);
        CountSum(Taken(h, n - 1), [cur], v);
      } else {
        IdleStays(h, n - 1);
      }
    }
  }

  /** When the search is over, a handler has been visited once for each time that a handler taken
      before it lists it, and the start once more. A handler without incoming edge is collected
      as often. */
  lemma VisitsAreCounted(h: Hunt, n: nat, v: nat)
    requires Ready(h) && !Busy(h, n) && v < |h.u| && h.was[v] == 0
    ensures Count(Taken(h, n), v) == (if v == h.start then 1 else 0) + Offers(h, v, n)
    ensures Count(At(h, n).nodes, v) ==
      if h.inDegree[v] == 0 then (if v == h.start then 1 else 0) + Offers(h, v, n) else 0
  {
    QueueIsConserved(h, n);
    assert Taken(h, n) + [] == Taken(h, n);
    EnteredCount(h, n, v);
    CollectedCount(h, n, v);
  }

  lemma CountIn(s: seq<nat>, v: nat)
    ensures Count(s, v) > 0 <==> v in s
  {
    TimesPositive(s, v, |s|);
    assert s[..|s|] == s;
  }

  lemma CountSnoc(s: seq<nat>, w: nat, v: nat)
    ensures Count(s + [w], v) == Count(s, v) + if w == v then 1 else 0
  {
    CountSum(s, [w], v);
    CountOne(w, v);
  }

  ghost predicate OnceEach(s: seq<nat>) { forall v: nat :: Count(s, v) <= 1 }

  lemma {:induction false} DistinctIffOnceEach(s: seq<nat>)
    ensures Distinct(s) <==> OnceEach(s)
    decreases |s|
  {
    if s != [] {
      var k := |s| - 1;
      var r, w := s[..k], s[k];
      assert s == r + [w];
      DistinctIffOnceEach(r);
      CountIn(r, w);
      CountSnoc(r, w, w);
      forall v: nat ensures Count(s, v) == Count(r, v) + if w == v then 1 else 0 {
        CountSnoc(r, w, v);
      }
      assert Distinct(s) <==> Distinct(r) && w !in r by {
        if Distinct(r) && w !in r { DistinctConcat(r, [w]); }
        if Distinct(s) {
          forall i | 0 <= i < k ensures r[i] != w { assert s[i] != s[k]; }
        }
      }
      if OnceEach(s) {
        assert Count(s, w) <= 1;
      }
    }
  }

  // ----- The search ends -----

  function Left(h: Hunt, n: nat): nat { UncolouredCount(At(h, n).colour, |At(h, n).colour|) }

  function Near(h: Hunt, n: nat): nat { FirstUncoloured(At(h, n).queue, At(h, n).colour) }

  lemma Progress(h: Hunt, n: nat)
    requires Ready(h) && Busy(h, n)
    ensures Left(h, n + 1) < Left(h, n) || (Left(h, n + 1) == Left(h, n) && Near(h, n + 1) < Near(h, n))
  {
    AlwaysGood(h, n);
    AlwaysGood(h, n + 1);
    TurnProgress(h.u, h.inDegree, h.was, h.start, h.c, At(h, n));
  }

  lemma {:induction false} SearchEndsFrom(h: Hunt, m: nat) returns (n: nat)
    requires Ready(h)
    ensures m <= n && !Busy(h, n)
    decreases Left(h, m), Near(h, m)
  {
    if Busy(h, m) {
      Progress(h, m);
      n := SearchEndsFrom(h, m + 1);
    } else {
      n := m;
    }
  }

  /** The whole component is visited. */
  lemma AllTaken(h: Hunt, n: nat, v: nat)
    requires Ready(h) && !Busy(h, n) && Connected(h.u, h.start, v)
    ensures v < |h.u| && v in Taken(h, n)
  {
    AlwaysGood(h, n);
    var k: nat :| Path(h.u, k, h.start, v);
    DoneCoversPath(h.u, h.was, h.start, h.c, At(h, n), k, v);
    ColouredIsTaken(h, n, v);
  }

  lemma TakenIsConnected(h: Hunt, n: nat, v: nat)
    requires Ready(h) && v in Taken(h, n)
    ensures v < |h.u| && Connected(h.u, h.start, v)
  {
    var i := TurnOf(h, v, n);
    AlwaysGood(h, i);
    assert v in At(h, i).queue;
  }

  // ----- A tree is visited once -----

  ghost predicate NoRevisit(h: Hunt) { forall n: nat :: Distinct(Taken(h, n)) }

  lemma {:induction false} TreeTaken(h: Hunt, parent: nat -> nat, depth: nat -> nat, n: nat)
    requires Ready(h) && IsTree(h.u, h.start, parent, depth)
    ensures Distinct(Taken(h, n))
  {
    if n > 0 {
      TreeTaken(h, parent, depth, n - 1);
      TreeTakenStep(h, parent, depth, n - 1);
    }
  }

  lemma TreeTakenStep(h: Hunt, parent: nat -> nat, depth: nat -> nat, n: nat)
    requires Ready(h) && IsTree(h.u, h.start, parent, depth) && Distinct(Taken(h, n))
    ensures Distinct(Taken(h, n + 1))
  {
    if Busy(h, n) {
      TreeIsOnce(h, parent, depth, n);
      HeadIsNew(h, parent, n);
      DistinctConcat(Taken(h, n), [Head(h, n)]);
    } else {
      IdleStays(h, n);
    }
  }

  lemma TreeIsOnce(h: Hunt, parent: nat -> nat, depth: nat -> nat, n: nat)
    requires Ready(h) && IsTree(h.u, h.start, parent, depth)
    ensures Once(h.u, h.start, parent, At(h, n))
  {
    TreeVisitsOnce(h.u, h.inDegree, h.was, h.start, h.c, parent, depth, n);
  }

  lemma HeadIsNew(h: Hunt, parent: nat -> nat, n: nat)
    requires Ready(h) && Busy(h, n) && Once(h.u, h.start, parent, At(h, n))
    ensures Head(h, n) !in Taken(h, n)
  {
    var v := Head(h, n);
    TurnTakes(h, n);
    assert v in At(h, n).queue;
    ColouredIsTaken(h, n, v);
  }

  // ----- What is visited once is a tree -----

  /** What the turns of a search did: the handler each took, and those it queued. */
  datatype Log = Log(start: nat, heads: seq<nat>, pushes: seq<seq<nat>>)

  ghost predicate Turn(g: Log, n: nat) { n <= |g.heads| == |g.pushes| }

  function EnteredBy(g: Log, n: nat): seq<nat>
    requires Turn(g, n)
  {
    if n == 0 then [g.start] else EnteredBy(g, n - 1) + g.pushes[n-1]
  }

  /** Who queued `v` last in the first `n` turns. */
  function Parent(g: Log, v: nat, n: nat): nat
    requires Turn(g, n)
  {
    if n == 0 then g.start else if v in g.pushes[n-1] then g.heads[n-1] else Parent(g, v, n - 1)
  }

  function Depth(g: Log, v: nat, n: nat): nat
    requires Turn(g, n)
    decreases n
  {
    if n == 0 then 0 else if v in g.pushes[n-1] then 1 + Depth(g, g.heads[n-1], n - 1) else Depth(g, v, n - 1)
  }

  lemma {:induction false} EnteredGrows(g: Log, m: nat, n: nat)
    requires Turn(g, n) && m <= n
    ensures EnteredBy(g, m) <= EnteredBy(g, n)
    decreases n
  {
    if m < n { EnteredGrows(g, m, n - 1); }
  }

  lemma DistinctPrefix(a: seq<nat>, b: seq<nat>)
    requires a <= b && Distinct(b)
    ensures Distinct(a)
  {
    forall i, j | 0 <= i < j < |a| ensures a[i] != a[j] {
      assert a[i] == b[i] && a[j] == b[j];
    }
  }

  lemma DistinctSuffix(a: seq<nat>, b: seq<nat>, v: nat)
    requires Distinct(a + b) && v in a
    ensures v !in b
  {
    var i :| 0 <= i < |a| && a[i] == v;
    forall j | 0 <= j < |b| ensures b[j] != v {
      assert (a + b)[i] != (a + b)[|a| + j];
    }
  }

  lemma DistinctTail(a: seq<nat>, b: seq<nat>)
    requires Distinct(a + b)
    ensures Distinct(b)
  {
    forall i, j | 0 <= i < j < |b| ensures b[i] != b[j] {
      assert (a + b)[|a| + i] == b[i] && (a + b)[|a| + j] == b[j];
    }
  }

  /** When all entries are distinct, what has entered is not queued again. */
  lemma {:induction false} NotAgain(g: Log, v: nat, m: nat, n: nat)
    requires Turn(g, n) && m <= n && Distinct(EnteredBy(g, n)) && v in EnteredBy(g, m)
    ensures Parent(g, v, n) == Parent(g, v, m) && Depth(g, v, n) == Depth(g, v, m)
    decreases n
  {
    if m < n {
      EnteredGrows(g, m, n - 1);
      DistinctPrefix(EnteredBy(g, n - 1), EnteredBy(g, n));
      NotAgain(g, v, m, n - 1);
      InPrefix(EnteredBy(g, m), EnteredBy(g, n - 1), v);
      DistinctSuffix(EnteredBy(g, n - 1), g.pushes[n-1], v);
    }
  }

  lemma InPrefix(a: seq<nat>, b: seq<nat>, v: nat)
    requires a <= b && v in a
    ensures v in b
  {
    var i :| 0 <= i < |a| && a[i] == v;
    assert b[i] == v;
  }

  /** A handler queued by `a` is a child of `a`. */
  lemma QueuedIsChild(g: Log, a: nat, b: nat, i: nat, n: nat)
    requires Turn(g, n) && i < n && Distinct(EnteredBy(g, n)) && g.heads[i] == a && b in g.pushes[i]
    requires a in EnteredBy(g, i)
    ensures Parent(g, b, n) == a && Depth(g, b, n) == Depth(g, a, n) + 1 && b != g.start
  {
    NotAgain(g, b, i + 1, n);
    NotAgain(g, a, i, n);
    EnteredGrows(g, i + 1, n);
    EnteredGrows(g, 0, i);
    DistinctPrefix(EnteredBy(g, i + 1), EnteredBy(g, n));
    InPrefix(EnteredBy(g, 0), EnteredBy(g, i), g.start);
    DistinctSuffix(EnteredBy(g, i), g.pushes[i], g.start);
  }

  /** A child was queued by its parent. */
  lemma {:induction false} ChildWasQueued(g: Log, b: nat, n: nat) returns (i: nat)
    requires Turn(g, n) && b in EnteredBy(g, n) && b != g.start
    ensures i < n && b in g.pushes[i] && Parent(g, b, n) == g.heads[i]
    decreases n
  {
    if b in g.pushes[n-1] {
      i := n - 1;
    } else {
      i := ChildWasQueued(g, b, n - 1);
    }
  }

  // ----- The log of a search -----

  ghost predicate IsLog(h: Hunt, g: Log, n: nat) {
    && g.start == h.start && |g.heads| == |g.pushes| == n
    && (forall i :: 0 <= i < n ==> g.heads[i] == Head(h, i))
    && (forall i :: 0 <= i < n ==> g.pushes[i] == Pushed(h, i))
  }

  lemma HasLog(h: Hunt, n: nat) returns (g: Log)
    ensures IsLog(h, g, n)
  {
    g := Log(h.start, seq(n, i requires 0 <= i < n => Head(h, i)), seq(n, i requires 0 <= i < n => Pushed(h, i)));
  }

  lemma {:induction false} LogEntered(h: Hunt, g: Log, n: nat, m: nat)
    requires m <= n && IsLog(h, g, n)
    ensures EnteredBy(g, m) == Entered(h, m)
    decreases m
  {
    if m > 0 {
      LogEntered(h, g, n, m - 1);
      LogStep(h, g, m - 1);
    }
  }

  lemma LogStep(h: Hunt, g: Log, m: nat)
    requires Turn(g, m + 1) && EnteredBy(g, m) == Entered(h, m) && g.pushes[m] == Pushed(h, m)
    ensures EnteredBy(g, m + 1) == Entered(h, m + 1)
  {}

  lemma {:induction false} TurnOf(h: Hunt, v: nat, n: nat) returns (i: nat)
    requires v in Taken(h, n)
    ensures i < n && Busy(h, i) && Head(h, i) == v && v !in Taken(h, i)
    decreases n
  {
    if v in Taken(h, n - 1) {
      i := TurnOf(h, v, n - 1);
    } else {
      i := n - 1;
    }
  }

  /** A turn queues every neighbour that has not been visited. */
  lemma QueuesNeighbour(h: Hunt, i: nat, b: nat)
    requires Ready(h) && Busy(h, i) && Edge(h.u, Head(h, i), b) && Head(h, i) != b && b < |h.u| && h.was[b] == 0
    requires b !in Taken(h, i)
    ensures b in Pushed(h, i)
  {
    var a := Head(h, i);
    TurnTakes(h, i);
    ColouredIsTaken(h, i + 1, b);
    UncolouredIn(h.u[a], At(h, i + 1).colour, |h.u[a]|, b);
    assert h.u[a][..|h.u[a]|] == h.u[a];
  }

  lemma HeadHasEntered(h: Hunt, i: nat)
    requires Ready(h) && Busy(h, i)
    ensures Head(h, i) in Entered(h, i)
  {
    QueueIsConserved(h, i);
    assert Head(h, i) in At(h, i).queue;
  }

  /** The end of an edge that is taken first is the parent of the other. */
  lemma FirstIsParent(h: Hunt, g: Log, n: nat, a: nat, b: nat, i: nat)
    requires Ready(h) && IsLog(h, g, n) && Distinct(Entered(h, n)) && i < n && Busy(h, i) && Head(h, i) == a
    requires Edge(h.u, a, b) && a != b && b < |h.u| && h.was[b] == 0 && b !in Taken(h, i)
    ensures Parent(g, b, n) == a && Depth(g, b, n) == Depth(g, a, n) + 1 && b != h.start
  {
    QueuesNeighbour(h, i, b);
    HeadHasEntered(h, i);
    LogEntered(h, g, n, n);
    LogEntered(h, g, n, i);
    QueuedIsChild(g, a, b, i, n);
  }

  lemma {:induction false} PushedTwice(ts: seq<nat>, colour: seq<nat>, p: nat, q: nat, j: nat)
    requires p < q < j <= |ts| && ts[p] == ts[q] < |colour| && colour[ts[p]] == 0
    ensures !Distinct(Uncoloured(ts, colour, j))
    decreases j
  {
    if q == j - 1 {
      UncolouredIn(ts, colour, j - 1, ts[p]);
      assert ts[p] in ts[..j-1];
      var us := Uncoloured(ts, colour, j - 1);
      var k :| 0 <= k < |us| && us[k] == ts[p];
      assert (us + [ts[q]])[k] == (us + [ts[q]])[|us|];
    } else {
      PushedTwice(ts, colour, p, q, j - 1);
      var us, vs := Uncoloured(ts, colour, j - 1), Uncoloured(ts, colour, j);
      var x, y :| 0 <= x < y < |us| && us[x] == us[y];
      assert vs[x] == vs[y];
    }
  }

  lemma RepeatIsPushed(h: Hunt, i: nat, p: nat, q: nat)
    requires Ready(h) && Busy(h, i) && Head(h, i) < |h.u| && p < q < |h.u[Head(h, i)]|
    requires h.u[Head(h, i)][p] == h.u[Head(h, i)][q] && h.u[Head(h, i)][p] in Pushed(h, i)
    ensures !Distinct(Pushed(h, i))
  {
    var a, colour := Head(h, i), At(h, i + 1).colour;
    UncolouredIn(h.u[a], colour, |h.u[a]|, h.u[a][p]);
    PushedTwice(h.u[a], colour, p, q, |h.u[a]|);
  }

  lemma PushesAreDistinct(g: Log, i: nat, n: nat)
    requires Turn(g, n) && i < n && Distinct(EnteredBy(g, n))
    ensures Distinct(g.pushes[i])
  {
    EnteredGrows(g, i + 1, n);
    DistinctPrefix(EnteredBy(g, i + 1), EnteredBy(g, n));
    DistinctTail(EnteredBy(g, i), g.pushes[i]);
  }

  /** Without revisits, every edge joins a parent and its child. */
  lemma EdgeIsParentChild(h: Hunt, g: Log, n: nat, a: nat, b: nat)
    requires Ready(h) && IsLog(h, g, n) && !Busy(h, n) && Distinct(Entered(h, n))
    requires Edge(h.u, a, b) && a != b && Connected(h.u, h.start, a)
    ensures ParentChild(h.start, v => Parent(g, v, n), v => Depth(g, v, n), a, b)
  {
    ConnectedStep(h.u, h.start, a, b);
    AllTaken(h, n, a);
    AllTaken(h, n, b);
    ColouredIsTaken(h, n, a);
    ColouredIsTaken(h, n, b);
    var i := TurnOf(h, a, n);
    var j := TurnOf(h, b, n);
    if b !in Taken(h, i) {
      FirstIsParent(h, g, n, a, b, i);
    } else {
      TakenBefore(h, a, b, i, j);
      FirstIsParent(h, g, n, b, a, j);
    }
  }

  lemma TakenBefore(h: Hunt, a: nat, b: nat, i: nat, j: nat)
    requires a !in Taken(h, i) && b in Taken(h, i) && b !in Taken(h, j)
    ensures j < i && a !in Taken(h, j)
  {
    if i <= j {
      TakenGrows(h, i, j);
      InPrefix(Taken(h, i), Taken(h, j), b);
      assert false;
    } else {
      TakenGrows(h, j, i);
      if a in Taken(h, j) { InPrefix(Taken(h, j), Taken(h, i), a); }
    }
  }

  lemma {:induction false} TakenGrows(h: Hunt, m: nat, n: nat)
    requires m <= n
    ensures Taken(h, m) <= Taken(h, n)
    decreases n
  {
    if m < n {
      var k: nat := n - 1;
      TakenGrows(h, m, k);
      TakenStep(h, k);
    }
  }

  lemma TakenStep(h: Hunt, n: nat)
    ensures Taken(h, n) <= Taken(h, n + 1)
  {}

  lemma ChildrenListedOnce(h: Hunt, g: Log, n: nat, a: nat)
    requires Ready(h) && IsLog(h, g, n) && !Busy(h, n) && Distinct(Entered(h, n)) && a < |h.u|
    requires Connected(h.u, h.start, a)
    ensures ListsChildrenOnce(h.u, h.start, v => Parent(g, v, n), a)
  {
    forall p, q | 0 <= p < q < |h.u[a]| && h.u[a][p] == h.u[a][q]
      ensures h.u[a][p] == a || h.u[a][p] == h.start || Parent(g, h.u[a][p], n) != a
    {
      var b := h.u[a][p];
      if b != a && b != h.start && Parent(g, b, n) == a {
        RepeatedChild(h, g, n, a, p, q);
        assert false;
      }
    }
  }

  lemma RepeatedChild(h: Hunt, g: Log, n: nat, a: nat, p: nat, q: nat)
    requires Ready(h) && IsLog(h, g, n) && !Busy(h, n) && a < |h.u| && Connected(h.u, h.start, a)
    requires p < q < |h.u[a]| && h.u[a][p] == h.u[a][q]
    requires var b := h.u[a][p]; b != a && b != h.start && Parent(g, b, n) == a
    ensures !Distinct(Entered(h, n))
  {
    var b := h.u[a][p];
    assert Edge(h.u, a, b);
    ConnectedStep(h.u, h.start, a, b);
    AllTaken(h, n, b);
    QueueIsConserved(h, n);
    LogEntered(h, g, n, n);
    var i := ChildWasQueued(g, b, n);
    RepeatIsPushed(h, i, p, q);
    if Distinct(Entered(h, n)) {
      PushesAreDistinct(g, i, n);
      assert false;
    }
  }

  lemma LogIsTree(h: Hunt, g: Log, n: nat)
    requires Ready(h) && IsLog(h, g, n) && !Busy(h, n) && Distinct(Entered(h, n))
    ensures IsTree(h.u, h.start, v => Parent(g, v, n), v => Depth(g, v, n))
  {
    var parent, depth := (v: nat) => Parent(g, v, n), (v: nat) => Depth(g, v, n);
    forall a: nat, b: nat | Edge(h.u, a, b) && a != b && Connected(h.u, h.start, a)
      ensures ParentChild(h.start, parent, depth, a, b)
    {
      EdgeIsParentChild(h, g, n, a, b);
    }
    forall a: nat | a < |h.u| && Connected(h.u, h.start, a) ensures ListsChildrenOnce(h.u, h.start, parent, a) {
      ChildrenListedOnce(h, g, n, a);
    }
  }

  lemma OnceIsTree(h: Hunt) returns (parent: nat -> nat, depth: nat -> nat)
    requires Ready(h) && NoRevisit(h)
    ensures IsTree(h.u, h.start, parent, depth)
  {
    var n := SearchEndsFrom(h, 0);
    QueueIsConserved(h, n);
    assert Taken(h, n) + [] == Taken(h, n);
    var g := HasLog(h, n);
    LogIsTree(h, g, n);
    parent, depth := v => Parent(g, v, n), v => Depth(g, v, n);
  }

  /** Every run, however the edges are ordered: no handler is visited twice exactly when the
      component is a tree. */
  lemma VisitedOnceIffTree(h: Hunt)
    requires Ready(h)
    ensures NoRevisit(h) <==> exists parent: nat -> nat, depth: nat -> nat :: IsTree(h.u, h.start, parent, depth)
  {
    if NoRevisit(h) {
      var parent, depth := OnceIsTree(h);
    }
    if exists parent: nat -> nat, depth: nat -> nat :: IsTree(h.u, h.start, parent, depth) {
      var parent: nat -> nat, depth: nat -> nat :| IsTree(h.u, h.start, parent, depth);
      forall n: nat ensures Distinct(Taken(h, n)) {
        TreeTaken(h, parent, depth, n);
      }
    }
  }

  /** Exactly one turn lists `v` before `v` is visited; for the start, none does. */
  ghost predicate OfferedOnce(h: Hunt, n: nat, v: nat) { (if v == h.start then 1 else 0) + Offers(h, v, n) == 1 }

  /** Every handler of the component without incoming edge is listed once before its visit. */
  ghost predicate StartsOfferedOnce(h: Hunt, n: nat)
    requires |h.inDegree| == |h.u|
  {
    forall v: nat :: v < |h.u| && Connected(h.u, h.start, v) && h.inDegree[v] == 0 ==> OfferedOnce(h, n, v)
  }

  lemma CollectedTimes(h: Hunt, n: nat, v: nat)
    requires Ready(h) && !Busy(h, n)
    ensures Count(At(h, n).nodes, v) > 0 <==> v < |h.u| && Connected(h.u, h.start, v) && h.inDegree[v] == 0
    ensures Count(At(h, n).nodes, v) > 0 ==> (Count(At(h, n).nodes, v) == 1 <==> OfferedOnce(h, n, v))
  {
    TurnsKeep(h.u, h.inDegree, h.was, h.start, h.c, n);
    CountIn(At(h, n).nodes, v);
    if v < |h.u| {
      ColouredIsTaken(h, n, v);
      if Connected(h.u, h.start, v) { AllTaken(h, n, v); }
      if v in Taken(h, n) {
        TakenIsConnected(h, n, v);
        VisitsAreCounted(h, n, v);
      }
    }
  }

  /** The starting handlers are collected without repetition exactly when each of them is listed
      once by the handlers taken before it. */
  lemma CollectedOnceIff(h: Hunt, n: nat)
    requires Ready(h) && !Busy(h, n)
    ensures Distinct(At(h, n).nodes) <==> StartsOfferedOnce(h, n)
  {
    DistinctIffOnceEach(At(h, n).nodes);
    forall v: nat ensures Count(At(h, n).nodes, v) <= 1 <==>
        (v < |h.u| && Connected(h.u, h.start, v) && h.inDegree[v] == 0 ==> OfferedOnce(h, n, v)) {
      CollectedTimes(h, n, v);
    }
  }
}
