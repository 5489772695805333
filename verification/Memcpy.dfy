/** Splitting a copy between packet or context memory and a transfer struct into intrinsics
    (`translateStructOffset` and `decomposeMemcpy` of `LowerMemcpyPass`). Sizes are in bytes. */
module Memcpy {
  import opened FieldSegments

  // ----- Struct members -----

  /** The member sizes of a struct. */
  type Layout = seq<nat>

  /** A member starts there, none does, or the offset is inside a member, which stops the
      compiler on an assertion. */
  datatype Pos = Member(index: nat) | NoMember | MidMember

  /** The scan of one struct, from member `i`. */
  function PosFrom(sizes: Layout, off: nat, i: nat): Pos
    requires i <= |sizes|
    decreases |sizes| - i
  {
    if i == |sizes| then NoMember
    else if Prefix(sizes, i) > off then MidMember
    else if Prefix(sizes, i) == off then Member(i)
    else PosFrom(sizes, off, i + 1)
  }

  /** The scan of all structs whose name matches, from the `k`th: the first that holds the offset
      decides. */
  function Scan(structs: seq<Layout>, off: nat, k: nat): Pos
    requires k <= |structs|
    decreases |structs| - k
  {
    if k == |structs| then NoMember
    else
      var pos := PosFrom(structs[k], off, 0);
      if pos == NoMember then Scan(structs, off, k + 1) else pos
  }

  method TranslateStructOffset(structs: seq<Layout>, off: nat) returns (r: Pos)
    ensures r == Scan(structs, off, 0)
  {
    for k := 0 to |structs|
      invariant Scan(structs, off, 0) == Scan(structs, off, k)
    {
      var sizes, partialSum := structs[k], 0;
      for i := 0 to |sizes|
        invariant partialSum == Prefix(sizes, i) && PosFrom(sizes, off, 0) == PosFrom(sizes, off, i)
      {
        if partialSum > off { return MidMember; }
        if partialSum == off { return Member(i); }
        partialSum := partialSum + sizes[i];
      }
    }
    r := NoMember;
  }

  predicate Boundary(structs: seq<Layout>, off: nat) { Scan(structs, off, 0).Member? }

  predicate Inside(structs: seq<Layout>, off: nat) { Scan(structs, off, 0).MidMember? }

  ghost predicate StartsAt(sizes: Layout, j: nat, off: nat) { j < |sizes| && Prefix(sizes, j) == off }

  ghost predicate StartsBefore(sizes: Layout, j: nat, off: nat) { j < |sizes| && Prefix(sizes, j) < off }

  /** All members of the struct start before the offset. */
  ghost predicate Passed(sizes: Layout, off: nat) { forall j: nat :: j < |sizes| ==> StartsBefore(sizes, j, off) }

  /** The scan of a struct finds a member exactly when one starts at the offset, and then the
      first such; it finds none exactly when all start before. */
  lemma {:induction false} FindsTheMember(sizes: Layout, off: nat, i: nat)
    requires i <= |sizes| && forall j: nat :: j < i ==> StartsBefore(sizes, j, off)
    ensures var r := PosFrom(sizes, off, i);
      && (r.Member? <==> exists j: nat :: StartsAt(sizes, j, off))
      && (r.Member? ==> StartsAt(sizes, r.index, off) && forall j: nat :: j < r.index ==> StartsBefore(sizes, j, off))
      && (r.NoMember? <==> Passed(sizes, off))
    decreases |sizes| - i
  {
    if i < |sizes| {
      assert StartsBefore(sizes, i, off) <==> Prefix(sizes, i) < off;
      assert StartsAt(sizes, i, off) <==> Prefix(sizes, i) == off;
      if Prefix(sizes, i) > off {
        forall j: nat ensures !StartsAt(sizes, j, off) {
          if j < i {
            assert StartsBefore(sizes, j, off);
          } else if j < |sizes| {
            PrefixMono(sizes, i, j);
          }
        }
      } else if Prefix(sizes, i) < off {
        FindsTheMember(sizes, off, i + 1);
      }
    } else {
      forall j: nat ensures !StartsAt(sizes, j, off) {
        if j < i { assert StartsBefore(sizes, j, off); }
      }
    }
  }

  /** The scan of all structs is decided by the first whose members do not all start before the
      offset. */
  lemma {:induction false} FindsTheStruct(structs: seq<Layout>, off: nat, k: nat)
    requires k <= |structs|
    ensures var r := Scan(structs, off, k);
      && (r.NoMember? <==> forall n :: k <= n < |structs| ==> Passed(structs[n], off))
      && (!r.NoMember? ==> exists n :: k <= n < |structs| && Decides(structs, off, k, n, r))
    decreases |structs| - k
  {
    if k < |structs| {
      FindsTheMember(structs[k], off, 0);
      if PosFrom(structs[k], off, 0).NoMember? {
        FindsTheStruct(structs, off, k + 1);
        var r := Scan(structs, off, k + 1);
        if !r.NoMember? {
          var n :| k + 1 <= n < |structs| && Decides(structs, off, k + 1, n, r);
          assert Decides(structs, off, k, n, r);
        }
      } else {
        assert Decides(structs, off, k, k, Scan(structs, off, k));
      }
    }
  }

  ghost predicate Decides(structs: seq<Layout>, off: nat, k: nat, n: nat, r: Pos)
    requires n < |structs|
  {
    && (forall m :: k <= m < n ==> Passed(structs[m], off))
    && !Passed(structs[n], off) && r == PosFrom(structs[n], off, 0)
  }

  /** Once past all members, the scan finds nothing more. */
  lemma PastStaysPast(structs: seq<Layout>, off: nat, more: nat)
    requires Scan(structs, off, 0).NoMember? && off <= more
    ensures Scan(structs, more, 0).NoMember?
  {
    FindsTheStruct(structs, off, 0);
    FindsTheStruct(structs, more, 0);
    forall n | 0 <= n < |structs| ensures Passed(structs[n], more) {
      assert Passed(structs[n], off);
      forall j: nat | j < |structs[n]| ensures StartsBefore(structs[n], j, more) {
        assert StartsBefore(structs[n], j, off);
      }
    }
  }

  // ----- Emission -----

  datatype Chunk = Chunk(off: nat, size: nat, wide: bool)

  datatype Ending = Done | Broke | Aborted

  datatype Trace = Trace(chunks: seq<Chunk>, ending: Ending)

  function ChunkSize(sz: nat, fast: bool): nat {
    if fast && sz >= 4 then if sz / 4 * 4 < 128 then sz / 4 * 4 else 128
    else if sz < 32 then sz else 32
  }

  /** The emission loop from offset `off` with `sz` bytes to go. */
  function Emission(structs: seq<Layout>, sz: nat, off: nat, fast: bool): Trace
    decreases sz
  {
    if sz == 0 then Trace([], Done)
    else match Scan(structs, off, 0)
      case MidMember => Trace([], Aborted)
      case NoMember => Trace([], Broke)
      case Member(_) =>
        var n := ChunkSize(sz, fast);
        var t := Emission(structs, sz - n, off + n, fast);
        t.(chunks := [Chunk(off, n, fast && sz >= 4)] + t.chunks)
  }

  /** `doEmission`, as a loop. */
  method DoEmission(structs: seq<Layout>, size: nat, start: nat, fast: bool) returns (t: Trace)
    ensures t == Emission(structs, size, start, fast)
  {
    var sz, off, chunks: seq<Chunk> := size, start, [];
    while sz > 0
      invariant var rest := Emission(structs, sz, off, fast);
        Emission(structs, size, start, fast) == Trace(chunks + rest.chunks, rest.ending)
      decreases sz
    {
      var pos := TranslateStructOffset(structs, off);
      match pos
      case MidMember => return Trace(chunks, Aborted);
      case NoMember => return Trace(chunks, Broke);
      case Member(_) =>
        var n;
        if fast && sz >= 4 {
          n := if sz / 4 * 4 < 128 then sz / 4 * 4 else 128;
        } else {
          n := if sz < 32 then sz else 32;
        }
        Reassociate(chunks, Chunk(off, n, fast && sz >= 4), Emission(structs, sz - n, off + n, fast).chunks);
        chunks := chunks + [Chunk(off, n, fast && sz >= 4)];
        sz, off := sz - n, off + n;
    }
    t := Trace(chunks, Done);
  }

  lemma Reassociate(a: seq<Chunk>, c: Chunk, b: seq<Chunk>)
    ensures a + ([c] + b) == (a + [c]) + b
  {}

  function Bytes(chunks: seq<Chunk>): nat { if chunks == [] then 0 else chunks[0].size + Bytes(chunks[1..]) }

  /** The chunks follow one another from `off`, each at the start of a member. */
  ghost predicate Tiles(structs: seq<Layout>, chunks: seq<Chunk>, off: nat) {
    chunks != [] ==>
      && chunks[0].off == off && Boundary(structs, off) && 0 < chunks[0].size <= 128
      && (chunks[0].wide ==> chunks[0].size % 4 == 0)
      && Tiles(structs, chunks[1..], off + chunks[0].size)
  }

  /** However the loop ends, what it emits tiles the copy from its start; it covers all of it
      exactly when the loop ran to its end. */
  lemma {:induction false} EmissionTiles(structs: seq<Layout>, sz: nat, off: nat, fast: bool)
    ensures var t := Emission(structs, sz, off, fast);
      Tiles(structs, t.chunks, off) && Bytes(t.chunks) <= sz && (t.ending == Done <==> Bytes(t.chunks) == sz)
    decreases sz
  {
    if sz > 0 && Boundary(structs, off) {
      var n, t := ChunkSize(sz, fast), Emission(structs, sz, off, fast);
      EmissionTiles(structs, sz - n, off + n, fast);
      assert t.chunks[1..] == Emission(structs, sz - n, off + n, fast).chunks;
    }
  }

  // ----- When all is emitted -----

  /** The distances from the start at which the loop looks for a member: every 128 bytes of the
      whole words and once for what is left, or every 32 bytes on the slow path. */
  predicate IsStop(sz: nat, fast: bool, p: nat) {
    p < sz && if fast then (p % 128 == 0 && p < sz / 4 * 4) || p == sz / 4 * 4 else p % 32 == 0
  }

  lemma StopsShift(sz: nat, fast: bool, p: nat)
    requires sz > 0
    ensures var n := ChunkSize(sz, fast);
      0 < n <= sz && (IsStop(sz, fast, p) <==> p == 0 || (n <= p && IsStop(sz - n, fast, p - n)))
  {}

  ghost predicate AllOnMembers(structs: seq<Layout>, sz: nat, off: nat, fast: bool) {
    forall p: nat :: IsStop(sz, fast, p) ==> Boundary(structs, off + p)
  }

  ghost predicate SomeInside(structs: seq<Layout>, sz: nat, off: nat, fast: bool) {
    exists p: nat :: IsStop(sz, fast, p) && Inside(structs, off + p)
  }

  lemma StopsAfterChunk(structs: seq<Layout>, sz: nat, off: nat, fast: bool)
    requires sz > 0 && Boundary(structs, off)
    ensures var n := ChunkSize(sz, fast);
      && n <= sz
      && (AllOnMembers(structs, sz, off, fast) <==> AllOnMembers(structs, sz - n, off + n, fast))
      && (SomeInside(structs, sz, off, fast) <==> SomeInside(structs, sz - n, off + n, fast))
  {
    var n := ChunkSize(sz, fast);
    StopsShift(sz, fast, 0);
    forall p: nat ensures IsStop(sz, fast, p) <==> p == 0 || (n <= p && IsStop(sz - n, fast, p - n)) {
      StopsShift(sz, fast, p);
    }
    var m := sz - n;
    forall q: nat | IsStop(m, fast, q) ensures IsStop(sz, fast, n + q) {
      StopsShift(sz, fast, n + q);
    }
    if AllOnMembers(structs, sz, off, fast) {
      forall q: nat | IsStop(m, fast, q) ensures Boundary(structs, off + n + q) {
        assert IsStop(sz, fast, n + q);
      }
    }
    if AllOnMembers(structs, sz - n, off + n, fast) {
      forall p: nat | IsStop(sz, fast, p) ensures Boundary(structs, off + p) {
        assert p == 0 || IsStop(sz - n, fast, p - n);
      }
    }
    if SomeInside(structs, sz, off, fast) {
      var p: nat :| IsStop(sz, fast, p) && Inside(structs, off + p);
      assert IsStop(sz - n, fast, p - n) && off + n + (p - n) == off + p;
    }
    if SomeInside(structs, sz - n, off + n, fast) {
      var q: nat :| IsStop(sz - n, fast, q) && Inside(structs, off + n + q);
      assert IsStop(sz, fast, n + q) && off + (n + q) == off + n + q;
    }
  }

  /** The loop runs to its end exactly when a member starts at every stop, and the compiler stops
      exactly when some stop is inside a member. */
  lemma {:induction false} EndingIff(structs: seq<Layout>, sz: nat, off: nat, fast: bool)
    ensures var ending := Emission(structs, sz, off, fast).ending;
      && (ending == Done <==> AllOnMembers(structs, sz, off, fast))
      && (ending == Aborted <==> SomeInside(structs, sz, off, fast))
    decreases sz
  {
    if sz > 0 {
      StopsShift(sz, fast, 0);
      assert IsStop(sz, fast, 0) && off + 0 == off;
      if Boundary(structs, off) {
        var n := ChunkSize(sz, fast);
        EndingIff(structs, sz - n, off + n, fast);
        StopsAfterChunk(structs, sz, off, fast);
      } else if !Inside(structs, off) {
        forall p: nat | IsStop(sz, fast, p) ensures !Inside(structs, off + p) {
          PastStaysPast(structs, off, off + p);
        }
      }
    }
  }

  // ----- The packet cursor -----

  function Min(a: int, b: int): int { if a < b then a else b }

  /** How far the chunks move the packet cursor, when the copy asks for `want` bytes. */
  function Advance(chunks: seq<Chunk>, want: int): int {
    if chunks == [] then 0 else Min(chunks[0].size, want - chunks[0].off) + Advance(chunks[1..], want)
  }

  lemma {:induction false} AdvanceBelow(structs: seq<Layout>, chunks: seq<Chunk>, off: nat, want: int)
    requires Tiles(structs, chunks, off) && chunks != []
    ensures Advance(chunks, want) <= want - off
    decreases |chunks|
  {
    if |chunks| > 1 {
      AdvanceBelow(structs, chunks[1..], off + chunks[0].size, want);
    } else {
      assert chunks[1..] == [];
    }
  }

  /** Chunks that reach at least as far as wanted, the last one starting before, move the cursor
      the rest of the way. */
  lemma {:induction false} AdvanceExact(structs: seq<Layout>, sz: nat, off: nat, fast: bool, want: nat)
    requires Emission(structs, sz, off, fast).ending == Done && off <= want <= off + sz
    requires sz > 0 ==>
      off + sz < want + 4 && (fast && off + sz != want ==> sz % 4 == 0) && (!fast ==> off + sz == want) && off < want
    ensures Advance(Emission(structs, sz, off, fast).chunks, want) == want - off
    decreases sz
  {
    if sz > 0 {
      var n := ChunkSize(sz, fast);
      var t, rest := Emission(structs, sz, off, fast), Emission(structs, sz - n, off + n, fast);
      assert t.chunks[1..] == rest.chunks;
      if n < sz {
        AdvanceExact(structs, sz - n, off + n, fast, want);
      } else {
        assert rest.chunks == [];
      }
    }
  }

  // ----- The whole decomposition -----

  /** Which memory the struct is copied to or from. */
  datatype Memory = Packet | Context

  /** Writes to the packet are exact; other copies are rounded up to whole words. */
  predicate IsExact(mem: Memory, write: bool) { mem.Packet? && write }

  function Rounded(size: nat, exact: bool): nat { if exact then size else (size + 3) / 4 * 4 }

  /** The least number of whole words that holds the size, unless the copy is exact. */
  lemma RoundedIsLeast(size: nat, exact: bool)
    ensures exact ==> Rounded(size, exact) == size
    ensures !exact ==> Rounded(size, exact) % 4 == 0 && size <= Rounded(size, exact) < size + 4
  {}

  /** Chunks; or, where a narrow chunk to context memory becomes the write of one member, the
      members that are written; or a stop on an assertion. */
  datatype Copy = Copied(trace: Trace) | Members(indices: seq<nat>) | Stopped

  /** The whole copy can be emitted: a member starts at every stop of the wide path; or none of
      those stops is inside a member, and a member starts at every stop of the slow path. */
  ghost predicate CanCopy(structs: seq<Layout>, sz: nat, off: nat) {
    || AllOnMembers(structs, sz, off, true)
    || (!SomeInside(structs, sz, off, true) && AllOnMembers(structs, sz, off, false))
  }

  /** The compiler stops on an assertion, in the dry run or on the slow path, where there is no
      narrow read from context memory. */
  ghost predicate MustStop(structs: seq<Layout>, sz: nat, off: nat, contextRead: bool) {
    || SomeInside(structs, sz, off, true)
    || (!AllOnMembers(structs, sz, off, true) && SomeInside(structs, sz, off, false))
    || (!AllOnMembers(structs, sz, off, true) && contextRead && Boundary(structs, off))
  }

  predicate Narrow(chunks: seq<Chunk>) { exists i | 0 <= i < |chunks| :: !chunks[i].wide }

  /** The members at which the chunks start. */
  function MembersAt(structs: seq<Layout>, chunks: seq<Chunk>): seq<nat> {
    seq(|chunks|, i requires 0 <= i < |chunks| => MemberAt(structs, chunks[i].off))
  }

  function MemberAt(structs: seq<Layout>, off: nat): nat {
    if Boundary(structs, off) then Scan(structs, off, 0).index else 0
  }

  /** Whole words are copied by wide chunks only, and everything by narrow ones on the slow path. */
  lemma {:induction false} WidthOfChunks(structs: seq<Layout>, sz: nat, off: nat, fast: bool)
    ensures var chunks := Emission(structs, sz, off, fast).chunks;
      && (fast && sz % 4 == 0 ==> !Narrow(chunks))
      && (!fast ==> (Narrow(chunks) <==> sz > 0 && Boundary(structs, off)))
    decreases sz
  {
    if sz > 0 && Boundary(structs, off) {
      var n, t := ChunkSize(sz, fast), Emission(structs, sz, off, fast);
      WidthOfChunks(structs, sz - n, off + n, fast);
      var rest := Emission(structs, sz - n, off + n, fast).chunks;
      assert t.chunks[0].wide == (fast && sz >= 4) && forall i :: 1 <= i < |t.chunks| ==> t.chunks[i] == rest[i-1];
    }
  }

  lemma WideStopIsSlow(sz: nat, p: nat)
    requires sz % 4 == 0 && IsStop(sz, true, p)
    ensures IsStop(sz, false, p)
  {
    assert sz / 4 * 4 == sz;
    var q := p / 128;
    assert p == 32 * (4 * q);
  }

  /** Member `i` is the first that starts at the offset, in the first struct that reaches it. */
  ghost predicate IsFirstAt(structs: seq<Layout>, off: nat, i: nat) {
    exists n :: 0 <= n < |structs| && FirstIn(structs, off, n, i)
  }

  ghost predicate FirstIn(structs: seq<Layout>, off: nat, n: nat, i: nat)
    requires n < |structs|
  {
    && (forall m :: 0 <= m < n ==> Passed(structs[m], off))
    && StartsAt(structs[n], i, off) && forall j: nat :: j < i ==> StartsBefore(structs[n], j, off)
  }

  lemma MemberAtIsFirst(structs: seq<Layout>, off: nat)
    requires Boundary(structs, off)
    ensures IsFirstAt(structs, off, MemberAt(structs, off))
  {
    FindsTheStruct(structs, off, 0);
    var r := Scan(structs, off, 0);
    var n :| 0 <= n < |structs| && Decides(structs, off, 0, n, r);
    FindsTheMember(structs[n], off, 0);
    assert FirstIn(structs, off, n, r.index);
  }

  /** Narrow chunks start at every 32 bytes, each on a member, up to the first stop that is not. */
  lemma {:induction false} NarrowStops(structs: seq<Layout>, sz: nat, off: nat, i: nat)
    ensures var chunks := Emission(structs, sz, off, false).chunks;
      && (i < |chunks| ==> chunks[i].off == off + 32 * i && Boundary(structs, off + 32 * i))
      && (i == |chunks| && 32 * i < sz ==> !Boundary(structs, off + 32 * i))
    decreases i
  {
    var t := Emission(structs, sz, off, false);
    if sz > 0 && Boundary(structs, off) {
      var n := ChunkSize(sz, false);
      var rest := Emission(structs, sz - n, off + n, false).chunks;
      assert t.chunks == [t.chunks[0]] + rest;
      if i > 0 {
        NarrowStops(structs, sz - n, off + n, i - 1);
      }
    }
  }

  /** The members at the stops of the slow path, in order. */
  ghost predicate AreMembersAt(structs: seq<Layout>, sz: nat, off: nat, indices: seq<nat>) {
    && (forall i: nat :: i < |indices| ==> IsFirstAt(structs, off + 32 * i, indices[i]))
    && (32 * |indices| < sz ==> !Boundary(structs, off + 32 * |indices|))
  }

  lemma MembersAreFirst(structs: seq<Layout>, sz: nat, off: nat)
    ensures AreMembersAt(structs, sz, off, MembersAt(structs, Emission(structs, sz, off, false).chunks))
  {
    var chunks := Emission(structs, sz, off, false).chunks;
    forall i: nat | i < |chunks| ensures IsFirstAt(structs, off + 32 * i, MembersAt(structs, chunks)[i]) {
      NarrowStops(structs, sz, off, i);
      MemberAtIsFirst(structs, off + 32 * i);
    }
    NarrowStops(structs, sz, off, |chunks|);
  }

  /** A copy of whole words that can be made on the slow path can be made on the wide one. */
  lemma WideWhenSlow(structs: seq<Layout>, sz: nat, off: nat)
    requires sz % 4 == 0 && AllOnMembers(structs, sz, off, false)
    ensures AllOnMembers(structs, sz, off, true)
  {
    forall p: nat | IsStop(sz, true, p) ensures Boundary(structs, off + p) {
      WideStopIsSlow(sz, p);
    }
  }

  /** `decomposeMemcpy`: a dry run decides whether wide transfers can be used throughout. What is
      emitted tiles the copy from its start; it is the whole copy exactly when that can be done. */
  method DecomposeMemcpy(structs: seq<Layout>, size: nat, off: nat, mem: Memory, write: bool) returns (r: Copy)
    ensures var total := Rounded(size, IsExact(mem, write));
      && (r.Stopped? <==> MustStop(structs, total, off, mem.Context? && !write))
      && (r.Copied? ==> Tiles(structs, r.trace.chunks, off) && Bytes(r.trace.chunks) <= total)
      && (r.Copied? && Bytes(r.trace.chunks) == total <==> CanCopy(structs, total, off))
      && (AllOnMembers(structs, total, off, true) ==> r == Copied(Emission(structs, total, off, true)))
      && (r.Members? ==> mem.Context? && write && r.indices != [])
      && (r.Members? ==> AreMembersAt(structs, total, off, r.indices))
      && (mem.Context? && r.Copied? ==> !Narrow(r.trace.chunks))
  {
    var szOrig := size;
    if !(mem.Packet? && write) {
      szOrig := (szOrig + 3) / 4 * 4;
    }
    var dry := DoEmission(structs, szOrig, off, true);
    EndingIff(structs, szOrig, off, true);
    if dry.ending == Aborted { return Stopped; }
    var fast := dry.ending == Done;
    var t := DoEmission(structs, szOrig, off, fast);
    EndingIff(structs, szOrig, off, fast);
    EmissionTiles(structs, szOrig, off, fast);
    WidthOfChunks(structs, szOrig, off, fast);
    if t.ending == Aborted { return Stopped; }
    if mem.Context? && Narrow(t.chunks) {
      if AllOnMembers(structs, szOrig, off, false) {
        WideWhenSlow(structs, szOrig, off);
      }
      MembersAreFirst(structs, szOrig, off);
      return if write then Members(MembersAt(structs, t.chunks)) else Stopped;
    }
    r := Copied(t);
  }

  /** When all is copied on one path, wide or slow and exact, the cursor advances by the size asked
      for exactly when the copy starts at offset zero (or copies nothing). */
  lemma AdvanceIff(structs: seq<Layout>, size: nat, off: nat, exact: bool, fast: bool)
    requires AllOnMembers(structs, Rounded(size, exact), off, fast) && (fast || exact)
    ensures Advance(Emission(structs, Rounded(size, exact), off, fast).chunks, size) == size <==> off == 0 || size == 0
  {
    var sz := Rounded(size, exact);
    var t := Emission(structs, sz, off, fast);
    EndingIff(structs, sz, off, fast);
    EmissionTiles(structs, sz, off, fast);
    if size > 0 {
      if off == 0 {
        AdvanceExact(structs, sz, 0, fast, size);
      } else {
        AdvanceBelow(structs, t.chunks, off, size);
      }
    }
  }

  /** The copy may be left unfinished: 200 bytes for a struct of one word are cut to one chunk
      of 32. A read from context memory stops instead. */
  lemma SlowPathTruncates()
    ensures Emission([[4]], 200, 0, true).ending == Broke
    ensures Emission([[4]], 200, 0, false) == Trace([Chunk(0, 32, false)], Broke)
    ensures !CanCopy([[4]], 200, 0) && !MustStop([[4]], 200, 0, false) && MustStop([[4]], 200, 0, true)
  {
    OneWord(0);
    OneWord(128);
    OneWord(32);
    assert Emission([[4]], 72, 128, true) == Trace([], Broke);
    assert Emission([[4]], 168, 32, false) == Trace([], Broke);
    EndingIff([[4]], 200, 0, true);
    EndingIff([[4]], 200, 0, false);
  }

  lemma OneWord(off: nat)
    ensures Scan([[4]], off, 0) == if off == 0 then Member(0) else NoMember
  {
    assert PosFrom([4], off, 1) == NoMember;
    assert Scan([[4]], off, 1) == NoMember;
  }
}
