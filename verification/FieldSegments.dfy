/** Splitting a struct into runs of used fields (the first loop of `DeadFieldEliminatePass`). */
module FieldSegments {

  /** A run of used fields: their bit sizes, the bit offset in the original struct, and whether
      any of them is written. */
  datatype Piece = Piece(fields: seq<nat>, offset: nat, write: bool)

  datatype SplitMap = SplitMap(fieldToIndex: map<nat, nat>, indexToNewIndex: map<nat, nat>, newTypes: seq<Piece>)

  /** The bits taken by the first `n` fields. */
  function Prefix(s: seq<nat>, n: nat): nat
    requires n <= |s|
  {
    if n == 0 then 0 else Prefix(s, n - 1) + s[n-1]
  }

  function Total(s: seq<nat>): nat { Prefix(s, |s|) }

  lemma {:induction false} PrefixMono(s: seq<nat>, i: nat, j: nat)
    requires i <= j <= |s|
    ensures Prefix(s, i) <= Prefix(s, j)
    decreases j
  {
    if i < j { PrefixMono(s, i, j - 1); }
  }

  /** A stretch of fields adds its own bits to those before it. */
  lemma {:induction false} PrefixOfRun(s: seq<nat>, start: nat, run: seq<nat>, n: nat)
    requires Matches(run, s, start) && n <= |run|
    ensures Prefix(s, start + n) == Prefix(s, start) + Prefix(run, n)
    decreases n
  {
    if n > 0 {
      PrefixOfRun(s, start, run, n - 1);
      assert run[n-1] == s[start + (n - 1)];
    }
  }

  /** `run` is the stretch of `s` from `start`. */
  ghost predicate Matches(run: seq<nat>, s: seq<nat>, start: nat) {
    start + |run| <= |s| && forall q: nat :: q < |run| ==> run[q] == s[start + q]
  }

  predicate AnyIn(flags: seq<bool>, lo: nat, hi: nat)
    requires lo <= hi <= |flags|
    ensures AnyIn(flags, lo, hi) <==> exists i :: lo <= i < hi && flags[i]
    decreases hi
  {
    lo < hi && (AnyIn(flags, lo, hi - 1) || flags[hi-1])
  }

  /** Fields `start .. start + |p.fields|` form a maximal run of used fields, and `p` describes
      exactly that run. */
  ghost predicate IsRun(p: Piece, start: nat, sizes: seq<nat>, used: seq<bool>, written: seq<bool>)
    requires |sizes| == |used| == |written|
  {
    var end := start + |p.fields|;
    && start < end <= |sizes| && Matches(p.fields, sizes, start)
    && (forall i :: start <= i < end ==> used[i])
    && (start == 0 || !used[start-1]) && (end == |sizes| || !used[end])
    && p.offset == Prefix(sizes, start)
    && p.write == AnyIn(written, start, end)
  }

  /** Field `i` is the field at its new position in its piece. */
  ghost predicate Located(m: SplitMap, starts: seq<nat>, i: nat) {
    && i in m.fieldToIndex && i in m.indexToNewIndex
    && m.fieldToIndex[i] < |m.newTypes| == |starts|
    && m.indexToNewIndex[i] < |m.newTypes[m.fieldToIndex[i]].fields|
    && i == starts[m.fieldToIndex[i]] + m.indexToNewIndex[i]
  }

  /** The split is exact: pieces are the maximal runs, in order, and the two maps say where each
      used field went. */
  ghost predicate Exact(m: SplitMap, starts: seq<nat>, sizes: seq<nat>, used: seq<bool>, written: seq<bool>)
    requires |sizes| == |used| == |written|
  {
    && |starts| == |m.newTypes|
    && (forall p :: 0 <= p < |starts| ==> IsRun(m.newTypes[p], starts[p], sizes, used, written))
    && (forall p, q :: 0 <= p < q < |starts| ==> starts[p] + |m.newTypes[p].fields| < starts[q])
    && (forall i :: i in m.fieldToIndex || i in m.indexToNewIndex ==> i < |sizes| && used[i])
    && (forall i: nat :: i < |sizes| && used[i] ==> Located(m, starts, i))
  }

  /** Where a piece starts, found by subtracting its fields from the running offset. */
  method RealOffset(offset: nat, fields: seq<nat>) returns (r: nat)
    requires Total(fields) <= offset
    ensures r == offset - Total(fields)
  {
    r := offset;
    for k := 0 to |fields|
      invariant r == offset - Prefix(fields, k)
    {
      PrefixMono(fields, k + 1, |fields|);
      r := r - fields[k];
    }
  }

  /** `finalize`: close the open run, which ends just before field `i`. */
  method Close(m: SplitMap, ghost starts: seq<nat>, fields: seq<nat>, write: bool, offset: nat, i: nat,
      ghost sizes: seq<nat>, ghost used: seq<bool>, ghost written: seq<bool>)
      returns (m': SplitMap, ghost starts': seq<nat>)
    requires |sizes| == |used| == |written| && Partial(m, starts, fields, write, i, sizes, used, written)
    requires fields != [] && offset == Prefix(sizes, i) && (i == |sizes| || !used[i])
    ensures |starts'| == |m'.newTypes| == |m.newTypes| + 1
    ensures forall p :: 0 <= p < |starts'| ==> IsRun(m'.newTypes[p], starts'[p], sizes, used, written)
    ensures forall p, q :: 0 <= p < q < |starts'| ==> starts'[p] + |m'.newTypes[p].fields| < starts'[q]
    ensures forall p :: 0 <= p < |starts'| ==> starts'[p] + |m'.newTypes[p].fields| <= i
    ensures m'.fieldToIndex == m.fieldToIndex && m'.indexToNewIndex == m.indexToNewIndex
    ensures forall k: nat :: k < i && used[k] ==> Located(m', starts', k)
  {
    ghost var start := i - |fields|;
    PrefixOfRun(sizes, start, fields, |fields|);
    var pieceOffset := RealOffset(offset, fields);
    var piece := Piece(fields, pieceOffset, write);
    m' := m.(newTypes := m.newTypes + [piece]);
    starts' := starts + [start];
    assert IsRun(piece, start, sizes, used, written);
    forall k: nat | k < i && used[k] ensures Located(m', starts', k) {
      if k < start {
        assert Located(m, starts, k);
      }
    }
  }

  /** The segmentation loop. `starts` records where each piece begins. */
  method Segment(sizes: seq<nat>, used: seq<bool>, written: seq<bool>) returns (m: SplitMap, ghost starts: seq<nat>)
    requires |sizes| == |used| == |written|
    ensures Exact(m, starts, sizes, used, written)
  {
    m, starts := SplitMap(map[], map[], []), [];
    var offset: nat := 0;
    var fields: seq<nat>, write := [], false;
    for i := 0 to |sizes|
      invariant offset == Prefix(sizes, i)
      invariant Partial(m, starts, fields, write, i, sizes, used, written)
    {
      m, starts, fields, write := AddField(m, starts, fields, write, offset, i, sizes, used, written);
      offset := offset + sizes[i];
    }
    if fields != [] {
      m, starts := Close(m, starts, fields, write, offset, |sizes|, sizes, used, written);
    }
  }

  /** One turn of the loop, before the offset moves on. */
  method AddField(m: SplitMap, ghost starts: seq<nat>, fields: seq<nat>, write: bool, offset: nat, i: nat,
      sizes: seq<nat>, used: seq<bool>, written: seq<bool>)
      returns (m': SplitMap, ghost starts': seq<nat>, fields': seq<nat>, write': bool)
    requires |sizes| == |used| == |written| && i < |sizes| && offset == Prefix(sizes, i)
    requires Partial(m, starts, fields, write, i, sizes, used, written)
    ensures Partial(m', starts', fields', write', i + 1, sizes, used, written)
  {
    m', starts', fields', write' := m, starts, fields, write;
    if used[i] {
      OpenKeepsPartial(m, starts, fields, write, i, sizes, used, written);
      m' := m.(fieldToIndex := m.fieldToIndex[i := |m.newTypes|], indexToNewIndex := m.indexToNewIndex[i := |fields|]);
      fields', write' := fields + [sizes[i]], write || written[i];
    } else if fields != [] {
      m', starts' := Close(m, starts, fields, write, offset, i, sizes, used, written);
      fields', write' := [], false;
      CloseKeepsPartial(m, starts, fields, write, m', starts', i, sizes, used, written);
    } else {
      CloseKeepsPartial(m, starts, fields, write, m, starts, i, sizes, used, written);
    }
  }

  lemma OpenKeepsPartial(m: SplitMap, starts: seq<nat>, fields: seq<nat>, write: bool, i: nat,
      sizes: seq<nat>, used: seq<bool>, written: seq<bool>)
    requires |sizes| == |used| == |written| && i < |sizes| && used[i]
    requires Partial(m, starts, fields, write, i, sizes, used, written)
    ensures var m' := m.(fieldToIndex := m.fieldToIndex[i := |m.newTypes|],
                         indexToNewIndex := m.indexToNewIndex[i := |fields|]);
            Partial(m', starts, fields + [sizes[i]], write || written[i], i + 1, sizes, used, written)
  {
    var m' := m.(fieldToIndex := m.fieldToIndex[i := |m.newTypes|],
      indexToNewIndex := m.indexToNewIndex[i := |fields|]);
    var start := i - |fields|;
    OpenRunGrows(fields, write, i, sizes, used, written);
    MapsGrow(m, starts, start, i, used);
  }

  lemma MapsGrow(m: SplitMap, starts: seq<nat>, start: nat, i: nat, used: seq<bool>)
    requires start <= i < |used| && used[i] && MapsOk(m, starts, start, i, used)
    ensures MapsOk(m.(fieldToIndex := m.fieldToIndex[i := |m.newTypes|],
      indexToNewIndex := m.indexToNewIndex[i := i - start]), starts, start, i + 1, used)
  {
    var m' := m.(fieldToIndex := m.fieldToIndex[i := |m.newTypes|],
      indexToNewIndex := m.indexToNewIndex[i := i - start]);
    forall k: nat | k < start && used[k] ensures Located(m', starts, k) {
      assert Located(m, starts, k);
    }
  }

  lemma OpenRunGrows(fields: seq<nat>, write: bool, i: nat, sizes: seq<nat>, used: seq<bool>, written: seq<bool>)
    requires |sizes| == |used| == |written| && i < |sizes| && used[i] && OpenRun(fields, write, i, sizes, used, written)
    ensures OpenRun(fields + [sizes[i]], write || written[i], i + 1, sizes, used, written)
  {
    var start, more := i - |fields|, fields + [sizes[i]];
    forall q: nat | q < |more| ensures more[q] == sizes[start + q] {
      if q < |fields| { assert more[q] == fields[q]; }
    }
  }

  lemma CloseKeepsPartial(m: SplitMap, starts: seq<nat>, fields: seq<nat>, write: bool, m': SplitMap, starts': seq<nat>,
      i: nat, sizes: seq<nat>, used: seq<bool>, written: seq<bool>)
    requires |sizes| == |used| == |written| && i < |sizes| && !used[i]
    requires Partial(m, starts, fields, write, i, sizes, used, written)
    requires |starts'| == |m'.newTypes|
    requires forall p :: 0 <= p < |starts'| ==> IsRun(m'.newTypes[p], starts'[p], sizes, used, written)
    requires forall p, q :: 0 <= p < q < |starts'| ==> starts'[p] + |m'.newTypes[p].fields| < starts'[q]
    requires forall p :: 0 <= p < |starts'| ==> starts'[p] + |m'.newTypes[p].fields| <= i
    requires m'.fieldToIndex == m.fieldToIndex && m'.indexToNewIndex == m.indexToNewIndex
    requires forall k: nat :: k < i && used[k] ==> Located(m', starts', k)
    ensures Partial(m', starts', [], false, i + 1, sizes, used, written)
  {}

  /** The open run is the used fields just before `i`. */
  ghost predicate OpenRun(fields: seq<nat>, write: bool, i: nat, sizes: seq<nat>, used: seq<bool>, written: seq<bool>)
    requires |sizes| == |used| == |written|
  {
    && |fields| <= i <= |sizes|
    && var start := i - |fields|;
    && Matches(fields, sizes, start)
    && (forall k :: start <= k < i ==> used[k])
    && (start == 0 || !used[start-1])
    && write == AnyIn(written, start, i)
  }

  ghost predicate ClosedRuns(m: SplitMap, starts: seq<nat>, start: nat, sizes: seq<nat>, used: seq<bool>,
      written: seq<bool>)
    requires |sizes| == |used| == |written|
  {
    && |starts| == |m.newTypes|
    && (forall p :: 0 <= p < |starts| ==> IsRun(m.newTypes[p], starts[p], sizes, used, written))
    && (forall p :: 0 <= p < |starts| ==> starts[p] + |m.newTypes[p].fields| < start)
    && (forall p, q :: 0 <= p < q < |starts| ==> starts[p] + |m.newTypes[p].fields| < starts[q])
  }

  ghost predicate MapsOk(m: SplitMap, starts: seq<nat>, start: nat, i: nat, used: seq<bool>)
    requires start <= i <= |used|
  {
    && (forall k :: k in m.fieldToIndex || k in m.indexToNewIndex ==> k < i && used[k])
    && (forall k: nat :: k < start && used[k] ==> Located(m, starts, k))
    && (forall k: nat :: start <= k < i ==> k in m.fieldToIndex && k in m.indexToNewIndex)
    && (forall k: nat :: start <= k < i ==> m.fieldToIndex[k] == |m.newTypes| && m.indexToNewIndex[k] == k - start)
  }

  /** Up to field `i`: closed pieces are runs, and the open one covers the fields just before. */
  ghost predicate Partial(m: SplitMap, starts: seq<nat>, fields: seq<nat>, write: bool, i: nat,
      sizes: seq<nat>, used: seq<bool>, written: seq<bool>)
    requires |sizes| == |used| == |written|
  {
    && OpenRun(fields, write, i, sizes, used, written)
    && ClosedRuns(m, starts, i - |fields|, sizes, used, written)
    && MapsOk(m, starts, i - |fields|, i, used)
  }

  // ----- What exactness gives -----

  /** Field `i` keeps its size and its bit offset in its piece. */
  ghost predicate KeepsPlace(m: SplitMap, sizes: seq<nat>, i: nat, p: nat, q: nat)
    requires i < |sizes|
  {
    && p < |m.newTypes| && q < |m.newTypes[p].fields|
    && m.newTypes[p].fields[q] == sizes[i]
    && m.newTypes[p].offset + Prefix(m.newTypes[p].fields, q) == Prefix(sizes, i)
  }

  /** The maps are a bijection between used fields and positions in pieces, and a field keeps
      its size and its bit offset. */
  lemma FieldsKeepTheirPlace(m: SplitMap, starts: seq<nat>, sizes: seq<nat>, used: seq<bool>, written: seq<bool>,
      i: nat)
    requires |sizes| == |used| == |written| && Exact(m, starts, sizes, used, written) && i < |sizes| && used[i]
    ensures Located(m, starts, i) && KeepsPlace(m, sizes, i, m.fieldToIndex[i], m.indexToNewIndex[i])
  {
    assert Located(m, starts, i);
    var p := m.fieldToIndex[i];
    FieldOfRun(m.newTypes[p], starts[p], sizes, used, written, m.indexToNewIndex[i]);
  }

  lemma FieldOfRun(p: Piece, start: nat, sizes: seq<nat>, used: seq<bool>, written: seq<bool>, q: nat)
    requires |sizes| == |used| == |written| && IsRun(p, start, sizes, used, written) && q < |p.fields|
    ensures start + q < |sizes| && p.fields[q] == sizes[start + q]
    ensures p.offset + Prefix(p.fields, q) == Prefix(sizes, start + q)
  {
    PrefixOfRun(sizes, start, p.fields, q);
  }

  lemma PositionsAreFields(m: SplitMap, starts: seq<nat>, sizes: seq<nat>, used: seq<bool>, written: seq<bool>, p: nat,
      q: nat)
    requires |sizes| == |used| == |written| && Exact(m, starts, sizes, used, written)
    requires p < |m.newTypes| && q < |m.newTypes[p].fields|
    ensures var i := starts[p] + q;
      i < |sizes| && used[i] && i in m.fieldToIndex && i in m.indexToNewIndex && m.fieldToIndex[i] == p &&
        m.indexToNewIndex[i] == q
    ensures forall i ::
      i in m.fieldToIndex && i in m.indexToNewIndex && m.fieldToIndex[i] == p && m.indexToNewIndex[i] == q ==>
        i == starts[p] + q
  {
    assert IsRun(m.newTypes[p], starts[p], sizes, used, written);
    var i := starts[p] + q;
    assert Located(m, starts, i);
    var r := m.fieldToIndex[i];
    assert IsRun(m.newTypes[r], starts[r], sizes, used, written);
    assert r == p;
    forall j | j in m.fieldToIndex && j in m.indexToNewIndex && m.fieldToIndex[j] == p && m.indexToNewIndex[j] == q
      ensures j == i
    {
      assert Located(m, starts, j);
    }
  }
}
