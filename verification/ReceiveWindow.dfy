/** The receive window of the generated transport (`OoO_detection`), in 32-bit arithmetic.

    Two handlers are generated from two versions of the program. Both trim an arriving segment to
    the window; only one first checks that the segment reaches the next expected byte. */
module ReceiveWindow {

  const MOD := 0x1_0000_0000

  type u32 = x: int | 0 <= x < 0x1_0000_0000

  function Add(a: u32, b: u32): u32 { if a + b < MOD then a + b else a + b - MOD }

  function Sub(a: u32, b: u32): u32 { if b <= a then a - b else a - b + MOD }

  /** `flow_state_t`: flow group (f0), free receive space (f4), next expected sequence number (f5)
      and next position in the receive buffer (f6). */
  datatype Flow = Flow(group: u32, avail: u32, nextSeq: u32, nextPos: u32)

  /** `pkt_info_t`, without the flow id that selects the table entry. */
  datatype Segment = Segment(len: u32, seqNo: u32)

  datatype DmaWrite = DmaWrite(pos: u32, len: u32)

  datatype Ack = Ack(group: u32, ackNo: u32, window: u32)

  /** What the handler leaves behind: its table entry and the events it raised. */
  datatype Outcome = Outcome(flow: Flow, writes: seq<DmaWrite>, acks: seq<Ack>)

  // ----- One segment -----

  /** Bytes at the front of the segment that were received before. */
  function TrimStart(st: Flow, seg: Segment): u32 { Sub(st.nextSeq, seg.seqNo) }

  /** Bytes at the end of the segment that do not fit. */
  function TrimEnd(st: Flow, seg: Segment): u32 {
    var rest := Sub(seg.len, TrimStart(st, seg));
    if rest < st.avail then 0 else Sub(rest, st.avail)
  }

  function Payload(st: Flow, seg: Segment): u32 {
    Sub(seg.len, Add(TrimStart(st, seg), TrimEnd(st, seg)))
  }

  function Accept(st: Flow, n: u32): Flow {
    st.(avail := Sub(st.avail, n), nextSeq := Add(st.nextSeq, n), nextPos := Add(st.nextPos, n))
  }

  /** One run of the handler; `check` says whether the generated program tests the order first. */
  function Step(check: bool, st: Flow, seg: Segment): Outcome {
    var n := Payload(st, seg);
    if check && TrimStart(st, seg) > seg.len then Outcome(st, [], [])
    else if n > 0 then
      var next := Accept(st, n);
      Outcome(next, [DmaWrite(st.nextPos, n)], [Ack(next.group, next.nextSeq, next.avail)])
    else Outcome(st, [], [Ack(st.group, st.nextSeq, st.avail)])
  }

  function Taken(check: bool, st: Flow, seg: Segment): u32 {
    if check && TrimStart(st, seg) > seg.len then 0 else Payload(st, seg)
  }

  /** However the arithmetic wraps, what is taken is the smaller of the rest and the free space. */
  lemma PayloadIsTheSmaller(st: Flow, seg: Segment)
    ensures var rest := Sub(seg.len, TrimStart(st, seg));
      Payload(st, seg) == if rest < st.avail then rest else st.avail
  {}

  /** Byte `x` of the sequence space is in the stretch of `len` bytes from `start`. */
  ghost predicate In(x: u32, start: u32, len: int) { Sub(x, start) < len }

  /** With the check, the accepted bytes lie inside the arriving segment. */
  lemma AcceptedIsInSegment(st: Flow, seg: Segment, x: u32)
    requires In(x, st.nextSeq, Taken(true, st, seg))
    ensures In(x, seg.seqNo, seg.len)
  {
    PayloadIsTheSmaller(st, seg);
  }

  ghost predicate StaysInSegment(check: bool, st: Flow, seg: Segment) {
    forall x: u32 :: In(x, st.nextSeq, Taken(check, st, seg)) ==> In(x, seg.seqNo, seg.len)
  }

  /** Without it they may lie outside: exactly when a gap precedes the segment and there is room. */
  lemma UncheckedStaysInSegmentIff(st: Flow, seg: Segment)
    ensures StaysInSegment(false, st, seg) <==> TrimStart(st, seg) <= seg.len || st.avail == 0
  {
    PayloadIsTheSmaller(st, seg);
    if TrimStart(st, seg) > seg.len && st.avail > 0 {
      assert In(st.nextSeq, st.nextSeq, Taken(false, st, seg));
      assert !In(st.nextSeq, seg.seqNo, seg.len);
    } else {
      forall x: u32 | In(x, st.nextSeq, Taken(false, st, seg)) ensures In(x, seg.seqNo, seg.len) {
      }
    }
  }

  /** A segment that starts one byte late is taken by the handler that does not check. */
  lemma GapIsAccepted()
    ensures var st, seg := Flow(0, 100, 1000, 0), Segment(10, 1001);
      Taken(false, st, seg) == 11 && !StaysInSegment(false, st, seg) && Taken(true, st, seg) == 0
  {
    var st, seg := Flow(0, 100, 1000, 0), Segment(10, 1001);
    UncheckedStaysInSegmentIff(st, seg);
  }

  /** The bytes of the segment that are in the window of RFC 9293, section 3.10.7.4. */
  ghost predicate Acceptable(st: Flow, seg: Segment, x: u32) {
    In(x, seg.seqNo, seg.len) && In(x, st.nextSeq, st.avail)
  }

  /** A segment that reaches the next expected byte is trimmed to exactly its acceptable bytes,
      as long as the window does not wrap round onto the bytes already received. */
  lemma TrimsToTheWindowIff(st: Flow, seg: Segment)
    requires TrimStart(st, seg) <= seg.len
    ensures (forall x: u32 :: In(x, st.nextSeq, Taken(true, st, seg)) <==> Acceptable(st, seg, x))
      <==> st.avail + TrimStart(st, seg) <= MOD
  {
    var t, n := TrimStart(st, seg), Taken(true, st, seg);
    PayloadIsTheSmaller(st, seg);
    if st.avail + t <= MOD {
      forall x: u32 ensures In(x, st.nextSeq, n) <==> Acceptable(st, seg, x) {
      }
    } else {
      assert Acceptable(st, seg, seg.seqNo) && !In(seg.seqNo, st.nextSeq, n);
    }
  }

  /** A segment delivered twice in a row is taken once. */
  lemma DuplicateIsIgnored(st: Flow, seg: Segment)
    ensures var once := Step(true, st, seg).flow;
      Step(true, once, seg).flow == once && Step(true, once, seg).writes == []
  {
    PayloadIsTheSmaller(st, seg);
    var once := Step(true, st, seg).flow;
    PayloadIsTheSmaller(once, seg);
  }

  // ----- Runs -----

  function Next(check: bool, r: Outcome, seg: Segment): Outcome {
    var o := Step(check, r.flow, seg);
    Outcome(o.flow, r.writes + o.writes, r.acks + o.acks)
  }

  function Run(check: bool, st: Flow, segs: seq<Segment>): Outcome {
    if segs == [] then Outcome(st, [], []) else Next(check, Run(check, st, segs[..|segs|-1]), segs[|segs|-1])
  }

  lemma RunOneMore(check: bool, st: Flow, segs: seq<Segment>, i: nat)
    requires i < |segs|
    ensures Run(check, st, segs[..i + 1]) == Next(check, Run(check, st, segs[..i]), segs[i])
  {
    assert segs[..i + 1][..i] == segs[..i];
  }

  function Total(ws: seq<DmaWrite>): nat {
    if ws == [] then 0 else Total(ws[..|ws|-1]) + ws[|ws|-1].len
  }

  /** The writes follow one another round the ring from `start`. */
  ghost predicate Contiguous(ws: seq<DmaWrite>, start: u32) {
    ws != [] ==>
      var rest, w := ws[..|ws|-1], ws[|ws|-1];
      && Contiguous(rest, start)
      && w.len > 0 && Total(ws) < MOD && w.pos == Add(start, Total(rest))
  }

  /** Space is conserved, and sequence number and position advance together by what was written. */
  ghost predicate Conserves(st: Flow, now: Flow, written: nat) {
    && now.group == st.group
    && now.avail + written == st.avail
    && now.nextSeq == Add(st.nextSeq, written)
    && now.nextPos == Add(st.nextPos, written)
  }

  lemma StepConserves(check: bool, st: Flow, now: Flow, written: nat, seg: Segment)
    requires Conserves(st, now, written)
    ensures var n := Taken(check, now, seg);
      Conserves(st, Step(check, now, seg).flow, written + n) &&
        (n > 0 ==> Step(check, now, seg).writes == [DmaWrite(Add(st.nextPos, written), n)])
  {
    PayloadIsTheSmaller(now, seg);
  }

  lemma OneWriteMore(ws: seq<DmaWrite>, start: u32, n: u32)
    requires Contiguous(ws, start) && n > 0 && Total(ws) + n < MOD
    ensures var more := ws + [DmaWrite(Add(start, Total(ws)), n)];
      Contiguous(more, start) && Total(more) == Total(ws) + n
  {
    var more := ws + [DmaWrite(Add(start, Total(ws)), n)];
    assert more[..|more|-1] == ws;
  }

  ghost predicate RunOk(st: Flow, r: Outcome) {
    && Conserves(st, r.flow, Total(r.writes)) && Contiguous(r.writes, st.nextPos)
    && forall a :: a in r.acks ==> AckIsExact(a, st)
  }

  /** An acknowledgement tells the bytes received when it was sent, and the space then free. */
  ghost predicate AckIsExact(a: Ack, st: Flow) {
    a.group == st.group && a.window <= st.avail && a.ackNo == Add(st.nextSeq, st.avail - a.window)
  }

  lemma StepAck(check: bool, st: Flow, now: Flow, seg: Segment, written: nat)
    requires Conserves(st, Step(check, now, seg).flow, written)
    ensures forall a :: a in Step(check, now, seg).acks ==> AckIsExact(a, st)
  {}

  lemma NextIsOk(check: bool, st: Flow, r: Outcome, seg: Segment)
    requires RunOk(st, r)
    ensures RunOk(st, Next(check, r, seg))
  {
    var n := Taken(check, r.flow, seg);
    StepConserves(check, st, r.flow, Total(r.writes), seg);
    StepAck(check, st, r.flow, seg, Total(r.writes) + n);
    if n > 0 {
      OneWriteMore(r.writes, st.nextPos, n);
    } else {
      assert r.writes + [] == r.writes;
    }
  }

  /** Over every run, with or without the check, space is conserved, the writes follow one another
      and the acknowledgements are exact. */
  lemma {:induction false} RunConserves(check: bool, st: Flow, segs: seq<Segment>)
    ensures RunOk(st, Run(check, st, segs))
    decreases |segs|
  {
    if segs != [] {
      RunConserves(check, st, segs[..|segs|-1]);
      NextIsOk(check, st, Run(check, st, segs[..|segs|-1]), segs[|segs|-1]);
    }
  }

  // ----- Acknowledgements -----

  /** The handler gets to the end on this segment: only a segment that starts after the next
      expected byte is dropped, and only with the check. */
  predicate Handles(check: bool, st: Flow, seg: Segment) { !check || TrimStart(st, seg) <= seg.len }

  /** How many segments of the run are handled. */
  function Handled(check: bool, st: Flow, segs: seq<Segment>): nat {
    if segs == [] then 0
    else
      var rest, seg := segs[..|segs|-1], segs[|segs|-1];
      Handled(check, st, rest) + if Handles(check, Run(check, st, rest).flow, seg) then 1 else 0
  }

  /** The acknowledgement that tells of `written` bytes in all. */
  function AckOf(st: Flow, written: nat): Ack
    requires written <= st.avail
  {
    Ack(st.group, Add(st.nextSeq, written), st.avail - written)
  }

  /** A segment that is handled is acknowledged, with all that is written by then; any other leaves
      no trace. */
  ghost predicate Answered(check: bool, st: Flow, before: Outcome, seg: Segment, after: Outcome) {
    && Total(after.writes) <= st.avail
    && if Handles(check, before.flow, seg) then after.acks == before.acks + [AckOf(st, Total(after.writes))]
       else after == before
  }

  lemma StepAnswers(check: bool, st: Flow, before: Outcome, seg: Segment)
    requires RunOk(st, before)
    ensures Answered(check, st, before, seg, Next(check, before, seg))
  {
    NextIsOk(check, st, before, seg);
    if !Handles(check, before.flow, seg) {
      assert before.writes + [] == before.writes && before.acks + [] == before.acks;
    } else {
      var o := Step(check, before.flow, seg);
      assert o.acks == [Ack(o.flow.group, o.flow.nextSeq, o.flow.avail)];
    }
  }

  lemma EachIsAcknowledged(check: bool, st: Flow, segs: seq<Segment>, i: nat)
    requires i < |segs|
    ensures Answered(check, st, Run(check, st, segs[..i]), segs[i], Run(check, st, segs[..i + 1]))
  {
    RunConserves(check, st, segs[..i]);
    RunOneMore(check, st, segs, i);
    StepAnswers(check, st, Run(check, st, segs[..i]), segs[i]);
  }

  /** There are as many acknowledgements as segments handled, and the last one tells the entry as
      it is; what is written is acknowledged. */
  ghost predicate Acked(check: bool, r: Outcome, handled: nat, arrived: nat) {
    && |r.acks| == handled && (!check ==> handled == arrived)
    && (r.acks != [] ==> r.acks[|r.acks|-1] == Ack(r.flow.group, r.flow.nextSeq, r.flow.avail))
    && (r.writes != [] ==> r.acks != [])
  }

  lemma AckedMore(check: bool, before: Outcome, seg: Segment, handled: nat, arrived: nat)
    requires Acked(check, before, handled, arrived)
    ensures var more := if Handles(check, before.flow, seg) then 1 else 0;
      Acked(check, Next(check, before, seg), handled + more, arrived + 1)
  {
    var o := Step(check, before.flow, seg);
    if o.acks == [] {
      assert before.acks + [] == before.acks && before.writes + [] == before.writes;
    }
  }

  lemma {:induction false} AllAreAcknowledged(check: bool, st: Flow, segs: seq<Segment>)
    ensures Acked(check, Run(check, st, segs), Handled(check, st, segs), |segs|)
    decreases |segs|
  {
    if segs != [] {
      var rest := segs[..|segs|-1];
      AllAreAcknowledged(check, st, rest);
      AckedMore(check, Run(check, st, rest), segs[|segs|-1], Handled(check, st, rest), |rest|);
    }
  }

  /** Ring position `p` is written by `w`. */
  ghost predicate Hits(w: DmaWrite, p: u32) { In(p, w.pos, w.len) }

  /** Writes that follow one another cover their stretch of the ring, and no position twice. */
  lemma {:induction false} ContiguousTiles(ws: seq<DmaWrite>, start: u32, p: u32)
    requires Contiguous(ws, start)
    ensures Total(ws) < MOD
    ensures (exists i :: 0 <= i < |ws| && Hits(ws[i], p)) <==> In(p, start, Total(ws))
    ensures forall i, j :: 0 <= i < j < |ws| && Hits(ws[i], p) ==> !Hits(ws[j], p)
    decreases |ws|
  {
    if ws != [] {
      var rest, w := ws[..|ws|-1], ws[|ws|-1];
      ContiguousTiles(rest, start, p);
      assert forall i :: 0 <= i < |rest| ==> rest[i] == ws[i];
      assert In(p, start, Total(ws)) <==> In(p, start, Total(rest)) || Hits(w, p);
      assert !(In(p, start, Total(rest)) && Hits(w, p));
      if In(p, start, Total(rest)) {
        var i :| 0 <= i < |rest| && Hits(rest[i], p);
        assert Hits(ws[i], p);
      } else if Hits(w, p) {
        assert Hits(ws[|ws|-1], p);
      }
    }
  }

  /** DMA writes of a run tile the receive buffer: every position from the first free one up to
      the bytes written, once. */
  lemma WritesTile(check: bool, st: Flow, segs: seq<Segment>, p: u32)
    ensures var ws := Run(check, st, segs).writes;
      && ((exists i :: 0 <= i < |ws| && Hits(ws[i], p)) <==> In(p, st.nextPos, Total(ws)))
      && (forall i, j :: 0 <= i < j < |ws| && Hits(ws[i], p) ==> !Hits(ws[j], p))
  {
    RunConserves(check, st, segs);
    ContiguousTiles(Run(check, st, segs).writes, st.nextPos, p);
  }

  // ----- The byte stream -----

  /** A segment that carries `len` bytes of the sender's stream, from byte `start` on. */
  datatype Carried = Carried(start: nat, len: u32)

  function SeqOf(isn: u32, byte: nat): u32 { (isn + byte) % MOD }

  function Wire(isn: u32, c: Carried): Segment { Segment(c.len, SeqOf(isn, c.start)) }

  /** The segment is close enough to the next expected byte `n` for 32 bits to tell where it is. */
  ghost predicate Near(n: nat, c: Carried) {
    if c.start <= n then n - c.start < MOD else c.start - n + c.len < MOD
  }

  lemma TrimOfStream(isn: u32, n: nat, c: Carried, st: Flow)
    requires st.nextSeq == SeqOf(isn, n)
    ensures TrimStart(st, Wire(isn, c)) == (n - c.start) % MOD
  {
    var q := (isn + n) / MOD - (isn + c.start) / MOD;
    assert n - c.start == SeqOf(isn, n) - SeqOf(isn, c.start) + MOD * q;
  }

  /** What is accepted is the next part of the stream exactly when the segment is near. */
  lemma AcceptsTheStreamIff(isn: u32, n: nat, c: Carried, st: Flow)
    requires st.nextSeq == SeqOf(isn, n) && Taken(true, st, Wire(isn, c)) > 0
    ensures c.start <= n && n + Taken(true, st, Wire(isn, c)) <= c.start + c.len <==> Near(n, c)
  {
    TrimOfStream(isn, n, c, st);
    PayloadIsTheSmaller(st, Wire(isn, c));
    var t := TrimStart(st, Wire(isn, c));
    if c.start <= n && n - c.start < MOD {
      assert t == n - c.start;
    }
  }

  /** With the check, a near segment is answered exactly when it reaches the next expected byte and
      does not start after it. */
  lemma AnsweredIff(isn: u32, n: nat, c: Carried, st: Flow)
    requires st.nextSeq == SeqOf(isn, n) && Near(n, c)
    ensures Handles(true, st, Wire(isn, c)) <==> c.start <= n <= c.start + c.len
  {
    TrimOfStream(isn, n, c, st);
    if c.start > n {
      assert (n - c.start) % MOD == n - c.start + MOD;
    }
  }

  function Wires(isn: u32, cs: seq<Carried>): seq<Segment> {
    if cs == [] then [] else Wires(isn, cs[..|cs|-1]) + [Wire(isn, cs[|cs|-1])]
  }

  function RunOn(isn: u32, st: Flow, cs: seq<Carried>): Outcome { Run(true, st, Wires(isn, cs)) }

  /** Every segment of the run was near when it arrived. */
  ghost predicate AllNear(isn: u32, n: nat, st: Flow, cs: seq<Carried>) {
    cs != [] ==>
      var rest := cs[..|cs|-1];
      AllNear(isn, n, st, rest) && Near(n + Total(RunOn(isn, st, rest).writes), cs[|cs|-1])
  }

  lemma RunOnStep(isn: u32, st: Flow, cs: seq<Carried>)
    requires cs != []
    ensures var r := RunOn(isn, st, cs[..|cs|-1]);
      Total(RunOn(isn, st, cs).writes) == Total(r.writes) + Taken(true, r.flow, Wire(isn, cs[|cs|-1]))
  {
    var r, segs := RunOn(isn, st, cs[..|cs|-1]), Wires(isn, cs);
    assert segs[..|segs|-1] == Wires(isn, cs[..|cs|-1]);
    var o := Step(true, r.flow, Wire(isn, cs[|cs|-1]));
    if o.writes == [] {
      assert r.writes + o.writes == r.writes;
    } else {
      assert (r.writes + o.writes)[..|r.writes|] == r.writes;
    }
  }

  lemma NextIsTracked(isn: u32, n: nat, st: Flow, cs: seq<Carried>)
    requires st.nextSeq == SeqOf(isn, n)
    ensures RunOn(isn, st, cs).flow.nextSeq == SeqOf(isn, n + Total(RunOn(isn, st, cs).writes))
  {
    RunConserves(true, st, Wires(isn, cs));
  }

  /** Some segment of `cs` holds the byte. */
  ghost predicate Carries(cs: seq<Carried>, byte: nat) {
    exists k :: 0 <= k < |cs| && cs[k].start <= byte < cs[k].start + cs[k].len
  }

  lemma CarriesMore(cs: seq<Carried>, byte: nat)
    requires cs != []
    ensures Carries(cs, byte) <==>
      Carries(cs[..|cs|-1], byte) || cs[|cs|-1].start <= byte < cs[|cs|-1].start + cs[|cs|-1].len
  {
    var rest := cs[..|cs|-1];
    if Carries(rest, byte) {
      var k :| 0 <= k < |rest| && rest[k].start <= byte < rest[k].start + rest[k].len;
      assert cs[k] == rest[k];
    }
  }

  lemma NothingReceived(isn: u32, st: Flow)
    ensures Total(RunOn(isn, st, []).writes) == 0
  {}

  /** No gap is ever passed: each byte that the run counts as received was in some segment. */
  lemma {:induction false} NoByteIsInvented(isn: u32, n: nat, st: Flow, cs: seq<Carried>, byte: nat)
    requires st.nextSeq == SeqOf(isn, n) && AllNear(isn, n, st, cs)
    requires n <= byte < n + Total(RunOn(isn, st, cs).writes)
    ensures Carries(cs, byte)
    decreases |cs|
  {
    NothingReceived(isn, st);
    if cs != [] {
      var rest, c := cs[..|cs|-1], cs[|cs|-1];
      CarriesMore(cs, byte);
      if byte < n + Total(RunOn(isn, st, rest).writes) {
        NoByteIsInvented(isn, n, st, rest, byte);
      } else {
        assert rest + [c] == cs;
        NewByteIsCarried(isn, n, st, rest, c, byte);
      }
    }
  }

  lemma TakenIsCarried(isn: u32, n: nat, c: Carried, st: Flow, byte: nat)
    requires st.nextSeq == SeqOf(isn, n) && Near(n, c) && n <= byte < n + Taken(true, st, Wire(isn, c))
    ensures c.start <= byte < c.start + c.len
  {
    AcceptsTheStreamIff(isn, n, c, st);
  }

  lemma NewByteIsCarried(isn: u32, n: nat, st: Flow, rest: seq<Carried>, c: Carried, byte: nat)
    requires st.nextSeq == SeqOf(isn, n) && Near(n + Total(RunOn(isn, st, rest).writes), c)
    requires n + Total(RunOn(isn, st, rest).writes) <= byte < n + Total(RunOn(isn, st, rest + [c]).writes)
    ensures c.start <= byte < c.start + c.len
  {
    var cs := rest + [c];
    assert cs[..|cs|-1] == rest;
    RunOnStep(isn, st, cs);
    NextIsTracked(isn, n, st, rest);
    TakenIsCarried(isn, n + Total(RunOn(isn, st, rest).writes), c, RunOn(isn, st, rest).flow, byte);
  }

  // ----- The handler, updating its entry in place -----

  class FlowEntry {
    var f0: u32
    var f4: u32
    var f5: u32
    var f6: u32
    var dmaQueue: seq<DmaWrite>
    var ackQueue: seq<Ack>

    constructor (st: Flow)
      ensures Entry() == st && dmaQueue == [] && ackQueue == []
    {
      f0, f4, f5, f6 := st.group, st.avail, st.nextSeq, st.nextPos;
      dmaQueue, ackQueue := [], [];
    }

    function Entry(): Flow
      reads this
    {
      Flow(f0, f4, f5, f6)
    }

    /** The handler body; `check` selects the generated variant. */
    method Detect(check: bool, seg: Segment)
      modifies this
      ensures Entry() == Step(check, old(Entry()), seg).flow
      ensures dmaQueue == old(dmaQueue) + Step(check, old(Entry()), seg).writes
      ensures ackQueue == old(ackQueue) + Step(check, old(Entry()), seg).acks
    {
      var trimStart := Sub(f5, seg.seqNo);
      var rest := Sub(seg.len, trimStart);
      var avail := f4;
      var trimEnd: u32 := 0;
      if rest >= avail {
        trimEnd := Sub(rest, avail);
      }
      var payload := Sub(seg.len, Add(trimStart, trimEnd));
      if check && trimStart > seg.len {
        return;
      }
      if payload > 0 {
        var pos := f6;
        f4 := Sub(avail, payload);
        f5 := Add(f5, payload);
        f6 := Add(f6, payload);
        dmaQueue := dmaQueue + [DmaWrite(pos, payload)];
      }
      ackQueue := ackQueue + [Ack(f0, f5, f4)];
    }

    /** The handler's endless loop, on the segments that arrive. */
    method Serve(check: bool, segs: seq<Segment>)
      modifies this
      ensures Entry() == Run(check, old(Entry()), segs).flow
      ensures dmaQueue == old(dmaQueue) + Run(check, old(Entry()), segs).writes
      ensures ackQueue == old(ackQueue) + Run(check, old(Entry()), segs).acks
    {
      ghost var first, dma, ack := Entry(), dmaQueue, ackQueue;
      for i := 0 to |segs|
        invariant var o := Run(check, first, segs[..i]);
          Entry() == o.flow && dmaQueue == dma + o.writes && ackQueue == ack + o.acks
      {
        ghost var o := Run(check, first, segs[..i]);
        Detect(check, segs[i]);
        RunOneMore(check, first, segs, i);
        assert dmaQueue == dma + Next(check, o, segs[i]).writes && ackQueue == ack + Next(check, o, segs[i]).acks;
      }
      assert segs[..|segs|] == segs;
    }
  }
}
