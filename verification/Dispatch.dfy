/** Key-partitioned dispatch to three replicas of a handler, each with its own table
    (`process_packet` and `OoO_detection` of the replicated transport).

    The handler is any function of a table entry and a packet; queues are FIFO; the replicas drain
    their queues in any order and at any time. */
module Dispatch {

  type u16 = x: int | 0 <= x < 0x1_0000

  const REPLICAS := 3

  datatype Packet<P> = Packet(port: u16, data: P)

  /** A queued event: the port kept in the context, and the flow id in the packet info. */
  datatype Work<P> = Work(ctxPort: u16, flowId: nat, data: P)

  datatype Out<O> = Out(key: u16, value: O)

  /** The handler, the entry of a key that is not in the table, and the hash. */
  datatype Program<!S, !P, !O> = Program(handle: (S, P) -> (S, seq<O>), initial: S, hash: u16 -> nat)

  /** All replicas; `served` and `arrived` record the order of events. */
  datatype System<S, P, O> = System(queues: seq<seq<Work<P>>>, tables: seq<map<u16, S>>, outs: seq<Out<O>>,
                                    served: seq<Work<P>>, arrived: seq<Work<P>>)

  datatype Event<P> = Arrive(p: Packet<P>) | Drain(replica: nat)

  function MakeWork<P>(p: Packet<P>): Work<P> { Work(p.port, p.port, p.data) }

  /** The queue is chosen by the port in the context, the table entry by the flow id. */
  function Route<S, P, O>(g: Program<S, P, O>, w: Work<P>): nat { g.hash(w.ctxPort) % REPLICAS }

  function KeyOf<P>(w: Work<P>): u16 { w.flowId % 0x1_0000 }

  function Lookup<S>(t: map<u16, S>, k: u16, initial: S): S { if k in t then t[k] else initial }

  function Tag<O>(k: u16, os: seq<O>): (r: seq<Out<O>>)
    ensures |r| == |os| && forall i :: 0 <= i < |r| ==> r[i] == Out(k, os[i])
  {
    seq(|os|, i requires 0 <= i < |os| => Out(k, os[i]))
  }

  ghost predicate Shape<S, P, O>(sys: System<S, P, O>) { |sys.queues| == |sys.tables| == REPLICAS }

  function Start<S, P, O>(): System<S, P, O> { System([[], [], []], [map[], map[], map[]], [], [], []) }

  function Dispatched<S, P, O>(g: Program<S, P, O>, sys: System<S, P, O>, p: Packet<P>): System<S, P, O>
    requires Shape(sys)
  {
    var w := MakeWork(p);
    var r := Route(g, w);
    sys.(queues := sys.queues[r := sys.queues[r] + [w]], arrived := sys.arrived + [w])
  }

  /** Replica `r` takes the oldest event from its queue; it waits when there is none. */
  function Drained<S, P, O>(g: Program<S, P, O>, sys: System<S, P, O>, r: nat): System<S, P, O>
    requires Shape(sys)
  {
    if r >= REPLICAS || sys.queues[r] == [] then sys
    else
      var w := sys.queues[r][0];
      var k: u16 := KeyOf(w);
      var (next, os) := g.handle(Lookup(sys.tables[r], k, g.initial), w.data);
      var table: map<u16, S> := sys.tables[r][k := next];
      System(sys.queues[r := sys.queues[r][1..]], sys.tables[r := table],
             sys.outs + Tag(k, os), sys.served + [w], sys.arrived)
  }

  function Step<S, P, O>(g: Program<S, P, O>, sys: System<S, P, O>, e: Event<P>): (r: System<S, P, O>)
    requires Shape(sys)
    ensures Shape(r)
  {
    match e
    case Arrive(p) => Dispatched(g, sys, p)
    case Drain(i) => Drained(g, sys, i)
  }

  function Run<S, P, O>(g: Program<S, P, O>, evs: seq<Event<P>>): (r: System<S, P, O>)
    ensures Shape(r)
  {
    if evs == [] then Start() else Step(g, Run(g, evs[..|evs|-1]), evs[|evs|-1])
  }

  // ----- One shared table -----

  datatype Single<S, O> = Single(table: map<u16, S>, outs: seq<Out<O>>)

  function Serve<S, P, O>(g: Program<S, P, O>, s: Single<S, O>, w: Work<P>): Single<S, O> {
    var (next, os) := g.handle(Lookup(s.table, KeyOf(w), g.initial), w.data);
    Single(s.table[KeyOf(w) := next], s.outs + Tag(KeyOf(w), os))
  }

  /** Sequential processing with one table. */
  function Sequential<S, P, O>(g: Program<S, P, O>, ws: seq<Work<P>>): Single<S, O> {
    if ws == [] then Single(map[], []) else Serve(g, Sequential(g, ws[..|ws|-1]), ws[|ws|-1])
  }

  // ----- One key at a time -----

  /** The events of key `k`, in order. */
  function Of<P>(k: u16, ws: seq<Work<P>>): seq<Work<P>> {
    if ws == [] then []
    else if KeyOf(ws[|ws|-1]) == k then Of(k, ws[..|ws|-1]) + [ws[|ws|-1]]
    else Of(k, ws[..|ws|-1])
  }

  function OutsOf<O>(k: u16, os: seq<Out<O>>): seq<O> {
    if os == [] then []
    else if os[|os|-1].key == k then OutsOf(k, os[..|os|-1]) + [os[|os|-1].value]
    else OutsOf(k, os[..|os|-1])
  }

  /** The entry and the outputs that a key's own events lead to. */
  datatype History<S, O> = History(entry: S, outs: seq<O>)

  function Advance<S, P, O>(g: Program<S, P, O>, h: History<S, O>, w: Work<P>): History<S, O> {
    var (next, os) := g.handle(h.entry, w.data);
    History(next, h.outs + os)
  }

  function HistoryOf<S, P, O>(g: Program<S, P, O>, ws: seq<Work<P>>): History<S, O> {
    if ws == [] then History(g.initial, []) else Advance(g, HistoryOf(g, ws[..|ws|-1]), ws[|ws|-1])
  }

  lemma {:induction false} OfConcat<P>(k: u16, a: seq<Work<P>>, b: seq<Work<P>>)
    ensures Of(k, a + b) == Of(k, a) + Of(k, b)
    decreases |b|
  {
    if b == [] {
      assert a + b == a;
    } else {
      assert (a + b)[..|a + b|-1] == a + b[..|b|-1];
      OfConcat(k, a, b[..|b|-1]);
    }
  }

  lemma OfOne<P>(k: u16, w: Work<P>)
    ensures Of(k, [w]) == if KeyOf(w) == k then [w] else []
  {
    assert [w][..0] == [];
  }

  lemma OfSnoc<P>(k: u16, a: seq<Work<P>>, w: Work<P>)
    ensures Of(k, a + [w]) == Of(k, a) + if KeyOf(w) == k then [w] else []
  {
    OfConcat(k, a, [w]);
    OfOne(k, w);
  }

  lemma OfHead<P>(k: u16, ws: seq<Work<P>>)
    requires ws != []
    ensures Of(k, ws) == (if KeyOf(ws[0]) == k then [ws[0]] else []) + Of(k, ws[1..])
  {
    assert ws == [ws[0]] + ws[1..];
    OfConcat(k, [ws[0]], ws[1..]);
    OfOne(k, ws[0]);
  }

  lemma {:induction false} OutsConcat<O>(k: u16, a: seq<Out<O>>, b: seq<Out<O>>)
    ensures OutsOf(k, a + b) == OutsOf(k, a) + OutsOf(k, b)
    decreases |b|
  {
    if b == [] {
      assert a + b == a;
    } else {
      assert (a + b)[..|a + b|-1] == a + b[..|b|-1];
      OutsConcat(k, a, b[..|b|-1]);
    }
  }

  lemma {:induction false} OutsOfTag<O>(k: u16, j: u16, os: seq<O>)
    ensures OutsOf(k, Tag(j, os)) == if j == k then os else []
    decreases |os|
  {
    if os != [] {
      var n := |os| - 1;
      assert Tag(j, os)[..n] == Tag(j, os[..n]);
      OutsOfTag(k, j, os[..n]);
      assert os == os[..n] + [os[n]];
    }
  }

  lemma HistorySnoc<S, P, O>(g: Program<S, P, O>, ws: seq<Work<P>>, w: Work<P>)
    ensures HistoryOf(g, ws + [w]) == Advance(g, HistoryOf(g, ws), w)
  {
    assert (ws + [w])[..|ws|] == ws;
  }

  /** With one table, keys do not interfere: each has the history of its own events. */
  lemma {:induction false} SequentialIsPerKey<S, P, O>(g: Program<S, P, O>, ws: seq<Work<P>>, k: u16)
    ensures var s, h := Sequential(g, ws), HistoryOf(g, Of(k, ws));
      Lookup(s.table, k, g.initial) == h.entry && OutsOf(k, s.outs) == h.outs
    decreases |ws|
  {
    if ws != [] {
      var rest, w := ws[..|ws|-1], ws[|ws|-1];
      SequentialIsPerKey(g, rest, k);
      var s := Sequential(g, rest);
      var (next, os) := g.handle(Lookup(s.table, KeyOf(w), g.initial), w.data);
      OutsConcat(k, s.outs, Tag(KeyOf(w), os));
      OutsOfTag(k, KeyOf(w), os);
      HistorySnoc(g, Of(k, rest), w);
    }
  }

  // ----- The invariant -----

  /** A key's replica. */
  function Owner<S, P, O>(g: Program<S, P, O>, k: u16): nat { g.hash(k) % REPLICAS }

  /** Events carry one and the same key in both places. */
  ghost predicate Coherent<S, P, O>(g: Program<S, P, O>, q: seq<Work<P>>, r: nat) {
    forall i :: 0 <= i < |q| ==> KeyOf(q[i]) == q[i].ctxPort && Owner(g, KeyOf(q[i])) == r
  }

  ghost predicate Owned<S, P, O>(g: Program<S, P, O>, t: map<u16, S>, r: nat) {
    forall k :: k in t ==> Owner(g, k) == r
  }

  ghost predicate Partitioned<S, P, O>(g: Program<S, P, O>, sys: System<S, P, O>) {
    && Shape(sys)
    && forall r :: 0 <= r < REPLICAS ==> Coherent(g, sys.queues[r], r) && Owned(g, sys.tables[r], r)
  }

  /** For key `k`: the served events, then those in its owner's queue, are the arrived ones; its
      entry and outputs are those of the served events. */
  ghost predicate KeyOk<S, P, O>(g: Program<S, P, O>, sys: System<S, P, O>, k: u16)
    requires Shape(sys)
  {
    var r := Owner(g, k);
    && InOrder(k, sys.arrived, sys.served, sys.queues[r])
    && Matches(g, k, sys.tables[r], sys.outs, HistoryOf(g, Of(k, sys.served)))
  }

  ghost predicate InOrder<P>(k: u16, arrived: seq<Work<P>>, served: seq<Work<P>>, queue: seq<Work<P>>) {
    Of(k, arrived) == Of(k, served) + Of(k, queue)
  }

  ghost predicate Matches<S, P, O>(g: Program<S, P, O>, k: u16, t: map<u16, S>, outs: seq<Out<O>>, h: History<S, O>) {
    Lookup(t, k, g.initial) == h.entry && OutsOf(k, outs) == h.outs
  }

  lemma ArrivalInOrder<P>(k: u16, arrived: seq<Work<P>>, served: seq<Work<P>>, queue: seq<Work<P>>, w: Work<P>)
    requires InOrder(k, arrived, served, queue)
    ensures InOrder(k, arrived + [w], served, queue + [w])
  {
    OfSnoc(k, arrived, w);
    OfSnoc(k, queue, w);
    AppendTo(Of(k, served), Of(k, queue), if KeyOf(w) == k then [w] else []);
  }

  lemma OtherArrivalInOrder<P>(k: u16, arrived: seq<Work<P>>, served: seq<Work<P>>, queue: seq<Work<P>>, w: Work<P>)
    requires InOrder(k, arrived, served, queue) && KeyOf(w) != k
    ensures InOrder(k, arrived + [w], served, queue)
  {
    OfSnoc(k, arrived, w);
  }

  lemma AppendTo<T>(a: seq<T>, b: seq<T>, c: seq<T>)
    ensures (a + b) + c == a + (b + c)
  {}

  lemma DrainInOrder<P>(k: u16, arrived: seq<Work<P>>, served: seq<Work<P>>, queue: seq<Work<P>>)
    requires InOrder(k, arrived, served, queue) && queue != []
    ensures InOrder(k, arrived, served + [queue[0]], queue[1..])
  {
    OfHead(k, queue);
    OfSnoc(k, served, queue[0]);
  }

  lemma OtherDrainInOrder<P>(k: u16, arrived: seq<Work<P>>, served: seq<Work<P>>, queue: seq<Work<P>>, w: Work<P>)
    requires InOrder(k, arrived, served, queue) && KeyOf(w) != k
    ensures InOrder(k, arrived, served + [w], queue)
  {
    OfSnoc(k, served, w);
  }

  lemma DispatchPartitioned<S, P, O>(g: Program<S, P, O>, sys: System<S, P, O>, p: Packet<P>)
    requires Partitioned(g, sys)
    ensures Partitioned(g, Dispatched(g, sys, p))
  {
    var w := MakeWork(p);
    var r := Route(g, w);
    assert Coherent(g, sys.queues[r], r);
    assert Coherent(g, sys.queues[r] + [w], r);
  }

  lemma DispatchKeeps<S, P, O>(g: Program<S, P, O>, sys: System<S, P, O>, p: Packet<P>, k: u16)
    requires Partitioned(g, sys) && KeyOk(g, sys, k)
    ensures KeyOk(g, Dispatched(g, sys, p), k)
  {
    var w, mine := MakeWork(p), Owner(g, k);
    QueueAfter(g, sys, p, mine);
    if Route(g, w) == mine {
      ArrivalInOrder(k, sys.arrived, sys.served, sys.queues[mine], w);
    } else {
      assert KeyOf(w) == w.ctxPort;
      OtherArrivalInOrder(k, sys.arrived, sys.served, sys.queues[mine], w);
    }
  }

  lemma QueueAfter<S, P, O>(g: Program<S, P, O>, sys: System<S, P, O>, p: Packet<P>, r: nat)
    requires Shape(sys) && r < REPLICAS
    ensures var next, w := Dispatched(g, sys, p), MakeWork(p);
      && next.queues[r] == (if Route(g, w) == r then sys.queues[r] + [w] else sys.queues[r])
      && next.arrived == sys.arrived + [w]
      && next.tables == sys.tables && next.outs == sys.outs && next.served == sys.served
  {}

  lemma DrainPartitioned<S, P, O>(g: Program<S, P, O>, sys: System<S, P, O>, r: nat)
    requires Partitioned(g, sys)
    ensures Partitioned(g, Drained(g, sys, r))
  {
    if r < REPLICAS && sys.queues[r] != [] {
      var q := sys.queues[r];
      assert KeyOf(q[0]) == q[0].ctxPort && Owner(g, KeyOf(q[0])) == r;
      assert Coherent(g, q[1..], r);
    }
  }

  /** Handling an event advances the history of its key, and of no other. */
  lemma HandleMatches<S, P, O>(g: Program<S, P, O>, k: u16, t: map<u16, S>, outs: seq<Out<O>>, served: seq<Work<P>>,
      w: Work<P>, next: S, os: seq<O>)
    requires Matches(g, k, t, outs, HistoryOf(g, Of(k, served)))
    requires KeyOf(w) == k ==> g.handle(Lookup(t, k, g.initial), w.data) == (next, os)
    ensures Matches(g, k, t[KeyOf(w) := next], outs + Tag(KeyOf(w), os), HistoryOf(g, Of(k, served + [w])))
    ensures KeyOf(w) != k ==> Matches(g, k, t, outs + Tag(KeyOf(w), os), HistoryOf(g, Of(k, served + [w])))
  {
    OfSnoc(k, served, w);
    OutsConcat(k, outs, Tag(KeyOf(w), os));
    OutsOfTag(k, KeyOf(w), os);
    if KeyOf(w) == k {
      HistorySnoc(g, Of(k, served), w);
    } else {
      assert OutsOf(k, outs) + [] == OutsOf(k, outs);
      assert Of(k, served) + [] == Of(k, served);
    }
  }

  lemma DrainKeeps<S, P, O>(g: Program<S, P, O>, sys: System<S, P, O>, r: nat, k: u16)
    requires Partitioned(g, sys) && KeyOk(g, sys, k)
    ensures KeyOk(g, Drained(g, sys, r), k)
  {
    if r < REPLICAS && sys.queues[r] != [] {
      var q, mine := sys.queues[r], Owner(g, k);
      var w := q[0];
      assert Coherent(g, q, r);
      assert Owner(g, KeyOf(w)) == r;
      var (next, os) := g.handle(Lookup(sys.tables[r], KeyOf(w), g.initial), w.data);
      HandleMatches(g, k, sys.tables[mine], sys.outs, sys.served, w, next, os);
      if mine == r {
        DrainInOrder(k, sys.arrived, sys.served, q);
      } else {
        OtherDrainInOrder(k, sys.arrived, sys.served, sys.queues[mine], w);
      }
    }
  }

  /** The invariant holds after every interleaving of arrivals and drains. */
  lemma {:induction false} RunKeeps<S, P, O>(g: Program<S, P, O>, evs: seq<Event<P>>, k: u16)
    ensures Partitioned(g, Run(g, evs)) && KeyOk(g, Run(g, evs), k)
    decreases |evs|
  {
    if evs == [] {
      assert Coherent(g, [], 0) && Coherent(g, [], 1) && Coherent(g, [], 2);
    } else {
      RunKeeps(g, evs[..|evs|-1], k);
      var sys := Run(g, evs[..|evs|-1]);
      match evs[|evs|-1]
      case Arrive(p) => DispatchPartitioned(g, sys, p); DispatchKeeps(g, sys, p, k);
      case Drain(r) => DrainPartitioned(g, sys, r); DrainKeeps(g, sys, r, k);
    }
  }

  // ----- Refinement -----

  lemma {:induction false} HistoryGrows<S, P, O>(g: Program<S, P, O>, a: seq<Work<P>>, b: seq<Work<P>>)
    ensures HistoryOf(g, a).outs <= HistoryOf(g, a + b).outs
    decreases |b|
  {
    if b == [] {
      assert a + b == a;
    } else {
      assert (a + b)[..|a + b|-1] == a + b[..|b|-1];
      HistoryGrows(g, a, b[..|b|-1]);
    }
  }

  /** At any moment, what a key has seen is a first part of what one shared table, fed in dispatch
      order, would make it see. */
  lemma EveryMomentIsAPrefix<S, P, O>(g: Program<S, P, O>, evs: seq<Event<P>>, k: u16)
    ensures var sys := Run(g, evs);
      && Of(k, sys.served) <= Of(k, sys.arrived)
      && OutsOf(k, sys.outs) <= OutsOf(k, Sequential(g, sys.arrived).outs)
  {
    var sys := Run(g, evs);
    RunKeeps(g, evs, k);
    SequentialIsPerKey(g, sys.arrived, k);
    HistoryGrows(g, Of(k, sys.served), Of(k, sys.queues[Owner(g, k)]));
  }

  /** When the queue of a key's replica has drained, the key's entry and its outputs are those of
      one shared table fed in dispatch order, whatever the replicas did in between. */
  lemma DrainedRefinesSequential<S, P, O>(g: Program<S, P, O>, evs: seq<Event<P>>, k: u16)
    requires Run(g, evs).queues[Owner(g, k)] == []
    ensures var sys, one := Run(g, evs), Sequential(g, Run(g, evs).arrived);
      && Lookup(sys.tables[Owner(g, k)], k, g.initial) == Lookup(one.table, k, g.initial)
      && OutsOf(k, sys.outs) == OutsOf(k, one.outs)
  {
    RunKeeps(g, evs, k);
    SequentialIsPerKey(g, Run(g, evs).arrived, k);
    assert Of(k, Run(g, evs).served) + [] == Of(k, Run(g, evs).served);
  }

  /** No key is ever in two tables. */
  lemma TablesAreDisjoint<S, P, O>(g: Program<S, P, O>, evs: seq<Event<P>>, k: u16, r: nat, r': nat)
    requires r < REPLICAS && r' < REPLICAS && k in Run(g, evs).tables[r] && k in Run(g, evs).tables[r']
    ensures r == r' == Owner(g, k)
  {
    RunKeeps(g, evs, k);
    assert Owned(g, Run(g, evs).tables[r], r) && Owned(g, Run(g, evs).tables[r'], r');
  }

  // ----- The NIC -----

  class Nic<S, P, O> {
    const program: Program<S, P, O>
    var queues: seq<seq<Work<P>>>
    var tables: seq<map<u16, S>>
    var outs: seq<Out<O>>
    var rrCtr: nat
    ghost var served: seq<Work<P>>
    ghost var arrived: seq<Work<P>>

    constructor (program: Program<S, P, O>)
      ensures this.program == program && Contents() == Start() && rrCtr == 0
    {
      this.program := program;
      queues, tables, outs, rrCtr := [[], [], []], [map[], map[], map[]], [], 0;
      served, arrived := [], [];
    }

    ghost function Contents(): System<S, P, O>
      reads this
    {
      System(queues, tables, outs, served, arrived)
    }

    /** `process_packet`, ending in `dispatch1`. The round-robin counter has no say in the choice. */
    method ProcessPacket(p: Packet<P>)
      requires Shape(Contents())
      modifies this
      ensures Contents() == Dispatched(program, old(Contents()), p)
      ensures rrCtr == if old(rrCtr) == 2 then 0 else old(rrCtr) + 1
    {
      var w := Work(p.port, p.port, p.data);
      match program.hash(w.ctxPort) % 3 {
        case 0 => queues := queues[0 := queues[0] + [w]];
        case 1 => queues := queues[1 := queues[1] + [w]];
        case _ => queues := queues[2 := queues[2] + [w]];
      }
      rrCtr := if rrCtr == 2 then 0 else rrCtr + 1;
      arrived := arrived + [w];
    }

    /** One turn of replica `r`: take an event, look up the entry, handle, update the entry. */
    method Detect(r: nat)
      requires Shape(Contents()) && r < REPLICAS && queues[r] != []
      modifies this
      ensures Contents() == Drained(program, old(Contents()), r) && rrCtr == old(rrCtr)
    {
      var w := queues[r][0];
      queues := queues[r := queues[r][1..]];
      var key: u16 := KeyOf(w);
      var (next, os) := program.handle(Lookup(tables[r], key, program.initial), w.data);
      var table: map<u16, S> := tables[r][key := next];
      tables := tables[r := table];
      outs := outs + Tag(key, os);
      served := served + [w];
    }
  }
}
