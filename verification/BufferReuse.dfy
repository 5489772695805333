/** Reusing the packet buffer in place (`BufferAnalysis` and `BufferReusePass`).

    A straight-line handler extracts fields from its input buffer, emits values to a fresh buffer
    and finally appends what is left of the input. Both buffers have cursors. The passes give
    every operation a fixed offset and let the fresh buffer share the input's memory. */
module BufferReuse {
  import D = DeadField

  type Bits = D.Bits

  /** Sizes are in bits. An emitted value may depend on everything extracted before. */
  datatype Op = Extract(n: nat) | Emit(n: nat)

  /** The value emitted by operation `i`, given what has been extracted. */
  type Values = (nat, seq<Bits>) -> Bits

  function Fit(b: Bits, n: nat): Bits { D.Slice(b, 0, n) }

  // ----- Cursors -----

  datatype CursorState = CursorState(pos: nat, got: seq<Bits>, out: Bits)

  function CursorRun(ops: seq<Op>, vals: Values, pkt: Bits): CursorState {
    if ops == [] then CursorState(0, [], [])
    else
      var k := |ops| - 1;
      var s := CursorRun(ops[..k], vals, pkt);
      match ops[k]
      case Extract(n) => CursorState(s.pos + n, s.got + [D.Slice(pkt, s.pos, n)], s.out)
      case Emit(n) => s.(out := s.out + Fit(vals(k, s.got), n))
  }

  function Rest(pkt: Bits, pos: nat): Bits { if pos <= |pkt| then pkt[pos..] else [] }

  /** The packet that leaves: the emitted values, then the input from its cursor on. */
  function CursorPacket(ops: seq<Op>, vals: Values, pkt: Bits): Bits {
    var s := CursorRun(ops, vals, pkt);
    s.out + Rest(pkt, s.pos)
  }

  // ----- Fixed offsets -----

  datatype Fixed = ExtractAt(off: nat, n: nat) | EmitAt(off: nat, n: nat)

  function Extracted(ops: seq<Op>): nat {
    if ops == [] then 0 else Extracted(ops[..|ops|-1]) + if ops[|ops|-1].Extract? then ops[|ops|-1].n else 0
  }

  function Emitted(ops: seq<Op>): nat {
    if ops == [] then 0 else Emitted(ops[..|ops|-1]) + if ops[|ops|-1].Emit? then ops[|ops|-1].n else 0
  }

  datatype InplaceState = InplaceState(got: seq<Bits>, buf: Bits)

  function InplaceStep(op: Fixed, k: nat, vals: Values, s: InplaceState): InplaceState {
    match op
    case ExtractAt(off, n) => s.(got := s.got + [D.Slice(s.buf, off, n)])
    case EmitAt(off, n) => s.(buf := D.Write(s.buf, off, Fit(vals(k, s.got), n)))
  }

  /** The one buffer serves both; the appended rest is there already. */
  function InplaceRun(code: seq<Fixed>, vals: Values, pkt: Bits): InplaceState {
    if code == [] then InplaceState([], pkt)
    else InplaceStep(code[|code|-1], |code| - 1, vals, InplaceRun(code[..|code|-1], vals, pkt))
  }

  /** The code after the passes: every operation at the sum of the sizes before it. */
  function Inplace(ops: seq<Op>): (r: seq<Fixed>)
    ensures |r| == |ops|
  {
    if ops == [] then []
    else
      var rest, op := ops[..|ops|-1], ops[|ops|-1];
      Inplace(rest) + [if op.Extract? then ExtractAt(Extracted(rest), op.n) else EmitAt(Emitted(rest), op.n)]
  }

  // ----- When they agree -----

  /** No extract reads what an earlier emit may have overwritten. */
  ghost predicate NoClobber(ops: seq<Op>) {
    ops != [] ==>
      var rest, op := ops[..|ops|-1], ops[|ops|-1];
      NoClobber(rest) && (op.Extract? && op.n > 0 ==> Emitted(rest) <= Extracted(rest))
  }

  lemma ReadsUntouched(out: Bits, pkt: Bits, off: nat, n: nat)
    requires |out| <= |pkt| && (n > 0 ==> |out| <= off)
    ensures D.Slice(out + pkt[|out|..], off, n) == D.Slice(pkt, off, n)
  {
    var buf := out + pkt[|out|..];
    forall k | 0 <= k < n ensures D.Slice(buf, off, n)[k] == D.Slice(pkt, off, n)[k] {
      if off + k < |pkt| {
        assert buf[off + k] == pkt[off + k];
      }
    }
  }

  lemma WritesBehind(out: Bits, pkt: Bits, v: Bits)
    requires |out| + |v| <= |pkt|
    ensures D.Write(out + pkt[|out|..], |out|, v) == out + v + pkt[|out| + |v|..]
  {
    var w, r := D.Write(out + pkt[|out|..], |out|, v), out + v + pkt[|out| + |v|..];
    forall k | 0 <= k < |pkt| ensures w[k] == r[k] {
    }
  }

  /** In step: the same values extracted, and the buffer is the emitted part over the packet. */
  ghost predicate InStep(s: CursorState, t: InplaceState, pkt: Bits, extracted: nat, emitted: nat) {
    && s.pos == extracted && |s.out| == emitted <= |pkt|
    && t.got == s.got
    && t.buf == s.out + pkt[emitted..]
  }

  lemma StaysInStep(ops: seq<Op>, vals: Values, pkt: Bits)
    requires ops != [] && NoClobber(ops) && Emitted(ops) <= |pkt|
    requires var rest := ops[..|ops|-1];
      InStep(CursorRun(rest, vals, pkt), InplaceRun(Inplace(rest), vals, pkt), pkt, Extracted(rest), Emitted(rest))
    ensures InStep(CursorRun(ops, vals, pkt), InplaceRun(Inplace(ops), vals, pkt), pkt, Extracted(ops), Emitted(ops))
  {
    var k := |ops| - 1;
    var rest, op, code := ops[..k], ops[k], Inplace(ops);
    var s, t := CursorRun(rest, vals, pkt), InplaceRun(Inplace(rest), vals, pkt);
    assert code[..k] == Inplace(rest);
    if op.Extract? {
      ReadsUntouched(s.out, pkt, s.pos, op.n);
    } else {
      WritesBehind(s.out, pkt, Fit(vals(k, s.got), op.n));
    }
  }

  lemma {:induction false} NoClobberInStep(ops: seq<Op>, vals: Values, pkt: Bits)
    requires NoClobber(ops) && Emitted(ops) <= |pkt|
    ensures InStep(CursorRun(ops, vals, pkt), InplaceRun(Inplace(ops), vals, pkt), pkt, Extracted(ops), Emitted(ops))
    decreases |ops|
  {
    if ops != [] {
      NoClobberInStep(ops[..|ops|-1], vals, pkt);
      StaysInStep(ops, vals, pkt);
    }
  }

  /** Same values extracted and same packet sent. */
  ghost predicate Agrees(ops: seq<Op>, vals: Values, pkt: Bits) {
    var t := InplaceRun(Inplace(ops), vals, pkt);
    t.got == CursorRun(ops, vals, pkt).got && t.buf == CursorPacket(ops, vals, pkt)
  }

  ghost predicate LongEnough(ops: seq<Op>, pkt: Bits) { Extracted(ops) <= |pkt| && Emitted(ops) <= |pkt| }

  /** Without clobbering, the packet is the same exactly when as much is emitted as extracted. */
  lemma AgreesIffBalanced(ops: seq<Op>, vals: Values, pkt: Bits)
    requires NoClobber(ops) && LongEnough(ops, pkt)
    ensures Agrees(ops, vals, pkt) <==> Emitted(ops) == Extracted(ops)
  {
    NoClobberInStep(ops, vals, pkt);
    var s, t := CursorRun(ops, vals, pkt), InplaceRun(Inplace(ops), vals, pkt);
    assert |t.buf| == |pkt| && |CursorPacket(ops, vals, pkt)| == Emitted(ops) + (|pkt| - Extracted(ops));
  }

  // ----- Clobbering is seen -----

  function Ones(n: nat): (r: Bits)
    ensures |r| == n && forall k :: 0 <= k < n ==> r[k]
  {
    seq(n, k => true)
  }

  function Zeros(n: nat): (r: Bits)
    ensures |r| == n && forall k :: 0 <= k < n ==> !r[k]
  {
    seq(n, k => false)
  }

  function EmitOnes(n: nat): Values { (k, got) => Ones(n) }

  ghost predicate AllOnes(b: Bits) { forall k :: 0 <= k < |b| ==> b[k] }

  lemma {:induction false} OnesAreEmitted(ops: seq<Op>, n: nat, pkt: Bits)
    requires Emitted(ops) <= n
    ensures AllOnes(CursorRun(ops, EmitOnes(n), pkt).out)
    decreases |ops|
  {
    if ops != [] {
      OnesAreEmitted(ops[..|ops|-1], n, pkt);
      assert AllOnes(Fit(Ones(n), if ops[|ops|-1].Emit? then ops[|ops|-1].n else 0));
    }
  }

  /** Emitting ones over a packet of zeros shows at the first extract that comes too late. */
  lemma {:induction false} ClobberShows(ops: seq<Op>, n: nat)
    requires !NoClobber(ops) && Emitted(ops) <= n && Extracted(ops) <= n
    ensures InplaceRun(Inplace(ops), EmitOnes(n), Zeros(n)).got != CursorRun(ops, EmitOnes(n), Zeros(n)).got
    decreases |ops|
  {
    var k := |ops| - 1;
    var rest, vals, pkt := ops[..k], EmitOnes(n), Zeros(n);
    assert Inplace(ops)[..k] == Inplace(rest);
    if !NoClobber(rest) {
      ClobberShows(rest, n);
      GotExtends(InplaceRun(Inplace(rest), vals, pkt).got, CursorRun(rest, vals, pkt).got, ops, vals, pkt);
    } else {
      LateExtractShows(ops, n);
    }
  }

  lemma GotExtends(a: seq<Bits>, b: seq<Bits>, ops: seq<Op>, vals: Values, pkt: Bits)
    requires ops != []
    requires var rest := ops[..|ops|-1];
      a == InplaceRun(Inplace(rest), vals, pkt).got && b == CursorRun(rest, vals, pkt).got
    requires a != b
    ensures InplaceRun(Inplace(ops), vals, pkt).got != CursorRun(ops, vals, pkt).got
  {
    var k := |ops| - 1;
    assert Inplace(ops)[..k] == Inplace(ops[..k]);
    if ops[k].Extract? {
      var x, y := InplaceRun(Inplace(ops), vals, pkt).got, CursorRun(ops, vals, pkt).got;
      assert x[..|x|-1] == a && y[..|y|-1] == b;
    }
  }

  lemma LateExtractShows(ops: seq<Op>, n: nat)
    requires ops != [] && !NoClobber(ops) && NoClobber(ops[..|ops|-1]) && Emitted(ops) <= n && Extracted(ops) <= n
    ensures InplaceRun(Inplace(ops), EmitOnes(n), Zeros(n)).got != CursorRun(ops, EmitOnes(n), Zeros(n)).got
  {
    var k := |ops| - 1;
    var rest, vals, pkt := ops[..k], EmitOnes(n), Zeros(n);
    assert Inplace(ops)[..k] == Inplace(rest);
    NoClobberInStep(rest, vals, pkt);
    OnesAreEmitted(rest, n, pkt);
    var s, t := CursorRun(rest, vals, pkt), InplaceRun(Inplace(rest), vals, pkt);
    assert t.buf[s.pos] == s.out[s.pos];
    assert D.Slice(t.buf, s.pos, ops[k].n)[0] != D.Slice(pkt, s.pos, ops[k].n)[0];
    var x, y := InplaceRun(Inplace(ops), vals, pkt).got, CursorRun(ops, vals, pkt).got;
    assert x[|x|-1] != y[|x|-1];
  }

  /** A handler may be made in-place, for all packets and all emitted values, exactly when no
      extract comes after too many emits and as much is emitted as extracted. */
  lemma InplaceIsSafeIff(ops: seq<Op>)
    ensures (forall vals: Values, pkt: Bits :: LongEnough(ops, pkt) ==> Agrees(ops, vals, pkt))
      <==> NoClobber(ops) && Emitted(ops) == Extracted(ops)
  {
    if NoClobber(ops) && Emitted(ops) == Extracted(ops) {
      forall vals: Values, pkt: Bits | LongEnough(ops, pkt) ensures Agrees(ops, vals, pkt) {
        AgreesIffBalanced(ops, vals, pkt);
      }
    } else {
      var n := Emitted(ops) + Extracted(ops);
      assert LongEnough(ops, Zeros(n));
      if NoClobber(ops) {
        AgreesIffBalanced(ops, EmitOnes(n), Zeros(n));
      } else {
        ClobberShows(ops, n);
      }
      assert !Agrees(ops, EmitOnes(n), Zeros(n));
    }
  }

  /** Extracting all headers before the first emit never clobbers. */
  lemma {:induction false} ExtractsFirst(ops: seq<Op>, m: nat)
    requires m <= |ops| && (forall i :: 0 <= i < m ==> ops[i].Extract?) && (forall i :: m <= i < |ops| ==> ops[i].Emit?)
    ensures NoClobber(ops) && (m == |ops| ==> Emitted(ops) == 0)
    decreases |ops|
  {
    if ops != [] {
      ExtractsFirst(ops[..|ops|-1], if m == |ops| then m - 1 else m);
    }
  }

  // ----- The passes -----

  /** The two buffers of the handler. */
  datatype Buffer = Input | Fresh

  /** Running offsets of the buffers that the analysis knows. */
  class HistoryTable {
    var table: map<Buffer, nat>

    constructor ()
      ensures table == map[]
    {
      table := map[];
    }

    method Declare(b: Buffer)
      modifies this
      ensures table == if b in old(table) then old(table) else old(table)[b := 0]
    {
      if b !in table { table := table[b := 0]; }
    }

    /** The offset before the operation; an unknown buffer is at zero and stays unknown. */
    method Emit(b: Buffer, n: nat) returns (offset: nat)
      modifies this
      ensures b in old(table) ==> offset == old(table)[b] && table == old(table)[b := offset + n]
      ensures b !in old(table) ==> offset == 0 && table == old(table)
    {
      if b !in table { return 0; }
      offset := table[b];
      table := table[b := offset + n];
    }
  }

  function OffsetAt(ops: seq<Op>, i: nat): nat
    requires i < |ops|
  {
    if ops[i].Extract? then Extracted(ops[..i]) else Emitted(ops[..i])
  }

  /** The per-operation part of `analysisFuncion`: static offsets are the running cursors. */
  method AssignOffsets(ops: seq<Op>) returns (offsetAt: seq<nat>)
    ensures |offsetAt| == |ops| && forall i :: 0 <= i < |ops| ==> offsetAt[i] == OffsetAt(ops, i)
  {
    var table := new HistoryTable();
    table.Declare(Input);
    table.Declare(Fresh);
    offsetAt := [];
    for i := 0 to |ops|
      invariant |offsetAt| == i && forall j :: 0 <= j < i ==> offsetAt[j] == OffsetAt(ops, j)
      invariant table.table == map[Input := Extracted(ops[..i]), Fresh := Emitted(ops[..i])]
    {
      var offset := table.Emit(if ops[i].Extract? then Input else Fresh, ops[i].n);
      offsetAt := offsetAt + [offset];
      assert ops[..i + 1][..i] == ops[..i];
    }
  }

  /** An operation before or after its rewriting. */
  datatype Inst = Old(op: Op) | New(fixed: Fixed)

  function FixedAt(op: Op, off: nat): Fixed { if op.Extract? then ExtractAt(off, op.n) else EmitAt(off, op.n) }

  /** `toInplace`: rewrite the uses of one of the two buffers, in place. */
  method ToInplace(code: array<Inst>, offsetAt: seq<nat>, buffer: Buffer)
    requires code.Length == |offsetAt|
    modifies code
    ensures forall i :: 0 <= i < code.Length ==>
      code[i] == if old(code[i]).Old? && (old(code[i]).op.Extract? <==> buffer == Input)
        then New(FixedAt(old(code[i]).op, offsetAt[i])) else old(code[i])
  {
    for i := 0 to code.Length
      invariant forall j :: i <= j < code.Length ==> code[j] == old(code[j])
      invariant forall j :: 0 <= j < i ==>
        code[j] == if old(code[j]).Old? && (old(code[j]).op.Extract? <==> buffer == Input)
          then New(FixedAt(old(code[j]).op, offsetAt[j])) else old(code[j])
    {
      match code[i] {
        case Old(Extract(n)) => if buffer == Input { code[i] := New(ExtractAt(offsetAt[i], n)); }
        case Old(Emit(n)) => if buffer == Fresh { code[i] := New(EmitAt(offsetAt[i], n)); }
        case New(_) =>
      }
    }
  }

  lemma {:induction false} InplaceAt(ops: seq<Op>, i: nat)
    requires i < |ops|
    ensures Inplace(ops)[i] == FixedAt(ops[i], OffsetAt(ops, i))
    decreases |ops|
  {
    if i < |ops| - 1 {
      InplaceAt(ops[..|ops|-1], i);
      assert ops[..|ops|-1][..i] == ops[..i];
    }
  }

  lemma AllFixed(ops: seq<Op>, code: seq<Fixed>)
    requires |code| == |ops| && forall i :: 0 <= i < |ops| ==> code[i] == FixedAt(ops[i], OffsetAt(ops, i))
    ensures code == Inplace(ops)
  {
    forall i | 0 <= i < |ops| ensures code[i] == Inplace(ops)[i] {
      InplaceAt(ops, i);
    }
  }

  /** Both passes together: the input's uses, then the fresh buffer's. */
  method Reuse(ops: seq<Op>) returns (code: seq<Fixed>)
    ensures code == Inplace(ops)
  {
    var offsetAt := AssignOffsets(ops);
    var insts := new Inst[|ops|](i requires 0 <= i < |ops| => Old(ops[i]));
    ToInplace(insts, offsetAt, Input);
    ToInplace(insts, offsetAt, Fresh);
    assert forall i :: 0 <= i < |ops| ==> insts[i] == New(FixedAt(ops[i], OffsetAt(ops, i)));
    code := [];
    for i := 0 to insts.Length
      invariant |code| == i && forall j :: 0 <= j < i ==> code[j] == FixedAt(ops[j], OffsetAt(ops, j))
    {
      code := code + [insts[i].fixed];
    }
    AllFixed(ops, code);
  }
}
