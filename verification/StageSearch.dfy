/** Splitting a handler into k stages (`stepSearch`, `splitPolicy` and the inner loop of
    `kcutPolicy`).

    Whether a cut succeeds, and which half is heavy enough to be cut again, are left open: an
    attempt may come out any way at any time. */
module StageSearch {

  /** `NetronomeKCutPolicy`, as far as the search depends on it. */
  datatype Policy = Policy(numCuts: int, done: bool)

  /** Which half of a cut a stage is, and the policy's cut count then; stages are named by it. */
  datatype Half = Half(numCuts: int, sink: bool)

  /** A stage, named by the cuts that led to it, and the policy about cutting it further. */
  datatype Stage = Stage(name: seq<Half>, policy: Policy)

  /** The result of one attempt: the cut fails, or succeeds and says whether its source half is
      light enough to stay whole. */
  datatype Attempt = CutFailed | CutDone(noCutSource: bool)

  function SplitPolicy(p: Policy, noCutSource: bool): (Policy, Policy) {
    var newCuts := p.numCuts - 1;
    (Policy(newCuts, newCuts == 1 || noCutSource), Policy(newCuts, newCuts == 1 || !noCutSource))
  }

  predicate AllDone(sd: seq<Stage>) {
    forall i :: 0 <= i < |sd| ==> sd[i].policy.done
  }

  /** The stages a policy can still grow into. */
  function Potential(p: Policy): int {
    if p.done then 1 else p.numCuts
  }

  function TotalPotential(sd: seq<Stage>): int {
    if sd == [] then 0 else TotalPotential(sd[..|sd|-1]) + Potential(sd[|sd|-1].policy)
  }

  function WorkOf(p: Policy): int {
    if p.done then 0 else p.numCuts - 1
  }

  /** Work left: it shrinks with every step of the search. */
  function Work(sd: seq<Stage>): int {
    if sd == [] then 0
    else Work(sd[..|sd|-1]) + WorkOf(sd[|sd|-1].policy)
  }

  /** A stage that is not done may still be cut at least once. */
  ghost predicate Cuttable(sd: seq<Stage>) {
    forall i :: 0 <= i < |sd| ==> sd[i].policy.done || 2 <= sd[i].policy.numCuts
  }

  lemma {:induction false} CuttableBounds(sd: seq<Stage>)
    requires Cuttable(sd)
    ensures |sd| <= TotalPotential(sd) && 0 <= Work(sd)
    ensures AllDone(sd) ==> |sd| == TotalPotential(sd)
    ensures AllDone(sd) <==> Work(sd) == 0
  {
    if sd != [] {
      var rest := sd[..|sd|-1];
      CuttableBounds(rest);
      assert AllDone(sd) <==> AllDone(rest) && sd[|sd|-1].policy.done;
    }
  }

  /** What one stage becomes in a step. */
  function Expand(s: Stage, a: Attempt): seq<Stage> {
    if s.policy.done then [s]
    else match a
      case CutFailed => [s.(policy := s.policy.(done := true))]
      case CutDone(light) =>
        var (source, sink) := SplitPolicy(s.policy, light);
        [Stage(s.name + [Half(s.policy.numCuts, false)], source), Stage(s.name + [Half(s.policy.numCuts, true)], sink)]
  }

  function NextStages(sd: seq<Stage>, attempts: Stage -> Attempt): seq<Stage> {
    if sd == [] then [] else NextStages(sd[..|sd|-1], attempts) + Expand(sd[|sd|-1], attempts(sd[|sd|-1]))
  }

  lemma {:induction false} Append(a: seq<Stage>, b: seq<Stage>)
    ensures TotalPotential(a + b) == TotalPotential(a) + TotalPotential(b)
    ensures Work(a + b) == Work(a) + Work(b)
    decreases |b|
  {
    if b == [] {
      assert a + b == a;
    } else {
      assert (a + b)[..|a + b|-1] == a + b[..|b|-1];
      Append(a, b[..|b|-1]);
    }
  }

  /** What a step makes of a stage, or of all of them: no more stages than before can be reached,
      the same number when no cut fails, and less work is left. */
  ghost predicate Advances(next: seq<Stage>, potential: int, work: int, allCut: bool, busy: bool) {
    && Cuttable(next)
    && TotalPotential(next) <= potential && (allCut ==> TotalPotential(next) == potential)
    && Work(next) <= work && (busy ==> Work(next) < work)
  }

  lemma ExpandAdvances(s: Stage, a: Attempt)
    requires s.policy.done || 2 <= s.policy.numCuts
    ensures Advances(Expand(s, a), Potential(s.policy), WorkOf(s.policy), a.CutDone?, !s.policy.done)
    ensures 1 <= |Expand(s, a)|
  {
    var e := Expand(s, a);
    if |e| == 2 {
      Append([e[0]], [e[1]]);
      assert e == [e[0]] + [e[1]];
    }
  }

  lemma AdvanceBoth(a: seq<Stage>, b: seq<Stage>, p: int, w: int, q: int, v: int, cutA: bool, cutB: bool, busyA: bool,
      busyB: bool)
    requires Advances(a, p, w, cutA, busyA) && Advances(b, q, v, cutB, busyB)
    ensures Advances(a + b, p + q, w + v, cutA && cutB, busyA || busyB)
  {
    Append(a, b);
  }

  /** A step leaves at most one unfinished half of each cut, so the stages a search can still
      reach never grow, and stay the same when no cut fails; the work left shrinks. */
  lemma {:induction false} StepFacts(sd: seq<Stage>, attempts: Stage -> Attempt, allCut: bool)
    requires Cuttable(sd) && (allCut ==> forall s :: attempts(s).CutDone?)
    ensures Advances(NextStages(sd, attempts), TotalPotential(sd), Work(sd), allCut, !AllDone(sd))
    ensures |sd| <= |NextStages(sd, attempts)|
    decreases |sd|
  {
    if sd != [] {
      StepFacts(sd[..|sd|-1], attempts, allCut);
      StepOneMore(sd, attempts, allCut);
    }
  }

  lemma StepOneMore(sd: seq<Stage>, attempts: Stage -> Attempt, allCut: bool)
    requires sd != [] && Cuttable(sd) && (allCut ==> forall s :: attempts(s).CutDone?)
    requires var rest := sd[..|sd|-1];
      Advances(NextStages(rest, attempts), TotalPotential(rest), Work(rest), allCut, !AllDone(rest))
    ensures Advances(NextStages(sd, attempts), TotalPotential(sd), Work(sd), allCut, !AllDone(sd))
  {
    var rest, s := sd[..|sd|-1], sd[|sd|-1];
    var a, b := NextStages(rest, attempts), Expand(s, attempts(s));
    ExpandAdvances(s, attempts(s));
    assert AllDone(sd) <==> AllDone(rest) && s.policy.done;
    AdvanceBoth(a, b, TotalPotential(rest), Work(rest), Potential(s.policy), WorkOf(s.policy),
                allCut, attempts(s).CutDone?, !AllDone(rest), !s.policy.done);
  }

  /** One step: every stage that is not done is cut or given up. `changed` is false when there
      was nothing to do, as the original signals by returning no direction. */
  method StepSearch(sd: seq<Stage>, attempts: Stage -> Attempt) returns (next: seq<Stage>, changed: bool)
    ensures next == NextStages(sd, attempts)
    ensures changed <==> !AllDone(sd)
  {
    next, changed := [], false;
    for i := 0 to |sd|
      invariant changed <==> !AllDone(sd[..i])
      invariant next == NextStages(sd[..i], attempts)
    {
      var s := sd[i];
      assert sd[..i+1][..i] == sd[..i];
      assert !AllDone(sd[..i+1]) <==> !AllDone(sd[..i]) || !s.policy.done;
      if s.policy.done {
        next := next + [s];
      } else {
        changed := true;
        match attempts(s)
        case CutDone(light) =>
          var (source, sink) := SplitPolicy(s.policy, light);
          next := next + [Stage(s.name + [Half(s.policy.numCuts, false)], source),
            Stage(s.name + [Half(s.policy.numCuts, true)], sink)];
        case CutFailed =>
          next := next + [s.(policy := s.policy.(done := true))];
      }
    }
    assert sd[..|sd|] == sd;
  }

  function StepOf(attempts: (nat, Stage) -> Attempt, i: nat): Stage -> Attempt {
    s => attempts(i, s)
  }

  /** The stages after `n` steps; step `i` makes the attempts `attempts(i, ..)`. */
  function After(n: nat, sd: seq<Stage>, attempts: (nat, Stage) -> Attempt): seq<Stage> {
    if n == 0 then sd else NextStages(After(n - 1, sd, attempts), StepOf(attempts, n - 1))
  }

  lemma {:induction false} Expanded(sd: seq<Stage>, attempts: Stage -> Attempt, s: Stage, t: Stage)
    requires s in sd && t in Expand(s, attempts(s))
    ensures t in NextStages(sd, attempts)
    decreases |sd|
  {
    if s != sd[|sd|-1] {
      Expanded(sd[..|sd|-1], attempts, s, t);
    }
  }

  lemma StaysOneMore(sd: seq<Stage>, n: nat, attempts: (nat, Stage) -> Attempt, s: Stage)
    requires s.policy.done && s in After(n, sd, attempts)
    ensures s in After(n + 1, sd, attempts)
  {
    Expanded(After(n, sd, attempts), StepOf(attempts, n), s, s);
  }

  lemma {:induction false} DoneStays(sd: seq<Stage>, n: nat, m: nat, attempts: (nat, Stage) -> Attempt, s: Stage)
    requires n <= m && s.policy.done && s in After(n, sd, attempts)
    ensures s in After(m, sd, attempts)
    decreases m - n
  {
    if n < m {
      StaysOneMore(sd, n, attempts, s);
      DoneStays(sd, n + 1, m, attempts, s);
    }
  }

  /** The half of a cut that stays whole: the source half when it is light, otherwise the sink. */
  function Settled(s: Stage, light: bool): Stage {
    Stage(s.name + [Half(s.policy.numCuts, !light)], Policy(s.policy.numCuts - 1, true))
  }

  /** The other half has one cut less to make, and is finished only when that leaves one stage. */
  function Remaining(s: Stage, light: bool): Stage {
    Stage(s.name + [Half(s.policy.numCuts, light)], Policy(s.policy.numCuts - 1, s.policy.numCuts == 2))
  }

  lemma HalvesOf(s: Stage, light: bool)
    requires !s.policy.done
    ensures multiset(Expand(s, CutDone(light))) == multiset{Settled(s, light), Remaining(s, light)}
  {
    var e := Expand(s, CutDone(light));
    assert e == if light then [Settled(s, light), Remaining(s, light)] else [Remaining(s, light), Settled(s, light)];
  }

  /** A cut settles one half for good: it is a stage of every later state, and so of the result. */
  lemma OneHalfStays(sd: seq<Stage>, n: nat, m: nat, attempts: (nat, Stage) -> Attempt, s: Stage, light: bool)
    requires n < m && s in After(n, sd, attempts) && !s.policy.done && attempts(n, s) == CutDone(light)
    ensures Settled(s, light) in After(m, sd, attempts)
    ensures Remaining(s, light) in After(n + 1, sd, attempts)
  {
    HalvesOf(s, light);
    var e, here := Expand(s, CutDone(light)), After(n, sd, attempts);
    assert Settled(s, light) in multiset(e) && Remaining(s, light) in multiset(e);
    Expanded(here, StepOf(attempts, n), s, Settled(s, light));
    Expanded(here, StepOf(attempts, n), s, Remaining(s, light));
    DoneStays(sd, n + 1, m, attempts, Settled(s, light));
  }

  /** A cut that fails settles the stage as it is. */
  lemma FailedCutStays(sd: seq<Stage>, n: nat, m: nat, attempts: (nat, Stage) -> Attempt, s: Stage)
    requires n < m && s in After(n, sd, attempts) && !s.policy.done && attempts(n, s) == CutFailed
    ensures Stage(s.name, Policy(s.policy.numCuts, true)) in After(m, sd, attempts)
  {
    var t := Stage(s.name, Policy(s.policy.numCuts, true));
    assert Expand(s, CutFailed) == [t];
    Expanded(After(n, sd, attempts), StepOf(attempts, n), s, t);
    DoneStays(sd, n + 1, m, attempts, t);
  }

  /** What holds after every step of the search. */
  ghost predicate Within(sd: seq<Stage>, initial: seq<Stage>, attempts: (nat, Stage) -> Attempt, steps: nat) {
    && sd == After(steps, initial, attempts) && Cuttable(sd) && |initial| <= |sd|
    && TotalPotential(sd) <= TotalPotential(initial)
    && (AllCut(attempts) ==> TotalPotential(sd) == TotalPotential(initial))
    && 0 <= Work(sd) && steps + Work(sd) <= Work(initial)
  }

  /** No cut ever fails. */
  ghost predicate AllCut(attempts: (nat, Stage) -> Attempt) {
    forall k, s :: attempts(k, s).CutDone?
  }

  lemma StepsKeep(sd: seq<Stage>, initial: seq<Stage>, attempts: (nat, Stage) -> Attempt, steps: nat)
    requires Within(sd, initial, attempts, steps)
    ensures var next := NextStages(sd, StepOf(attempts, steps));
      !AllDone(sd) ==> Within(next, initial, attempts, steps + 1) && Work(next) < Work(sd)
  {
    StepFacts(sd, StepOf(attempts, steps), AllCut(attempts));
    CuttableBounds(NextStages(sd, StepOf(attempts, steps)));
  }

  /** The search for k stages: repeat steps until one changes nothing. The search ends, never
      exceeds the sum of the cut counts, and reaches it when no cut fails. */
  method KCut(initial: seq<Stage>, attempts: (nat, Stage) -> Attempt) returns (sd: seq<Stage>, steps: nat)
    requires Cuttable(initial)
    ensures AllDone(sd)
    ensures |initial| <= |sd| <= TotalPotential(initial)
    ensures AllCut(attempts) ==> |sd| == TotalPotential(initial)
    ensures steps <= Work(initial) && sd == After(steps, initial, attempts)
  {
    sd, steps := initial, 0;
    CuttableBounds(sd);
    var changed := true;
    while changed
      invariant Within(sd, initial, attempts, steps)
      invariant !changed ==> AllDone(sd)
      decreases Work(sd), changed
    {
      var next;
      StepsKeep(sd, initial, attempts, steps);
      next, changed := StepSearch(sd, StepOf(attempts, steps));
      if changed {
        sd, steps := next, steps + 1;
      }
    }
    CuttableBounds(sd);
  }

  /** `kcutPolicy` for `k` stages starts from the whole handler: it ends with at most `k` stages,
      and with `k` when no cut fails. */
  method KCutHandler(k: int, attempts: (nat, Stage) -> Attempt) returns (sd: seq<Stage>, steps: nat)
    requires 2 <= k
    ensures AllDone(sd) && 1 <= |sd| <= k
    ensures steps < k && sd == After(steps, Whole(k), attempts)
    ensures AllCut(attempts) ==> |sd| == k
  {
    var initial := Whole(k);
    assert TotalPotential(initial) == k;
    sd, steps := KCut(initial, attempts);
  }

  // ----- Fewer than two stages -----

  /** Every stage is done except the one at `u`, which has `cuts` cuts left to make. */
  ghost predicate OneUnfinished(sd: seq<Stage>, u: int, cuts: int) {
    && 0 <= u < |sd| && !sd[u].policy.done && sd[u].policy.numCuts == cuts
    && forall i :: 0 <= i < |sd| && i != u ==> sd[i].policy.done
  }

  lemma {:induction false} DoneStaysAsIs(sd: seq<Stage>, attempts: Stage -> Attempt)
    requires AllDone(sd)
    ensures NextStages(sd, attempts) == sd
  {
    if sd != [] {
      DoneStaysAsIs(sd[..|sd|-1], attempts);
    }
  }

  lemma {:induction false} OneUnfinishedStep(sd: seq<Stage>, u: int, cuts: int, attempts: Stage -> Attempt)
      returns (w: int)
    requires OneUnfinished(sd, u, cuts) && cuts < 2 && attempts(sd[u]).CutDone?
    ensures OneUnfinished(NextStages(sd, attempts), w, cuts - 1) && |NextStages(sd, attempts)| == |sd| + 1
    decreases |sd|
  {
    var rest, s := sd[..|sd|-1], sd[|sd|-1];
    if u == |sd| - 1 {
      DoneStaysAsIs(rest, attempts);
      w := if attempts(s).noCutSource then u + 1 else u;
    } else {
      w := OneUnfinishedStep(rest, u, cuts, attempts);
      assert NextStages(sd, attempts) == NextStages(rest, attempts) + [s];
    }
  }

  function Whole(k: int): seq<Stage> { [Stage([], Policy(k, false))] }

  lemma OneMoreUnfinished(n: nat, k: int, attempts: (nat, Stage) -> Attempt, v: int) returns (u: int)
    requires k < 2 && AllCut(attempts) && OneUnfinished(After(n, Whole(k), attempts), v, k - n)
    ensures |After(n + 1, Whole(k), attempts)| == |After(n, Whole(k), attempts)| + 1
    ensures OneUnfinished(After(n + 1, Whole(k), attempts), u, k - n - 1)
  {
    u := OneUnfinishedStep(After(n, Whole(k), attempts), v, k - n, StepOf(attempts, n));
  }

  /** A policy for fewer than two stages starts below its stop value: as long as cuts succeed,
      every step leaves exactly one unfinished stage behind and the search goes on. */
  lemma {:induction false} SingleStageNeverEnds(n: nat, k: int, attempts: (nat, Stage) -> Attempt) returns (u: int)
    requires k < 2 && AllCut(attempts)
    ensures |After(n, Whole(k), attempts)| == n + 1 && OneUnfinished(After(n, Whole(k), attempts), u, k - n)
  {
    if n == 0 {
      u := 0;
    } else {
      var v := SingleStageNeverEnds(n - 1, k, attempts);
      u := OneMoreUnfinished(n - 1, k, attempts, v);
    }
  }

  lemma OneStepLess(sd: seq<Stage>, n: nat, attempts: (nat, Stage) -> Attempt)
    requires Cuttable(After(n, sd, attempts)) && !AllDone(After(n, sd, attempts))
    ensures Cuttable(After(n + 1, sd, attempts))
    ensures 0 <= Work(After(n + 1, sd, attempts)) < Work(After(n, sd, attempts))
  {
    StepFacts(After(n, sd, attempts), StepOf(attempts, n), false);
    CuttableBounds(After(n + 1, sd, attempts));
  }

  /** With `work` work left after `n` steps, no more than `work` further ones are needed. */
  lemma {:induction false} WorkRunsOut(sd: seq<Stage>, n: nat, attempts: (nat, Stage) -> Attempt, work: nat)
      returns (m: nat)
    requires Cuttable(After(n, sd, attempts)) && Work(After(n, sd, attempts)) <= work
    ensures AllDone(After(m, sd, attempts)) && n <= m <= n + work
    decreases work
  {
    m := n;
    if !AllDone(After(n, sd, attempts)) {
      OneStepLess(sd, n, attempts);
      m := WorkRunsOut(sd, n + 1, attempts, work - 1);
    }
  }

  ghost predicate Ends(k: int, attempts: (nat, Stage) -> Attempt) {
    exists n: nat :: AllDone(After(n, Whole(k), attempts))
  }

  /** The search for `k` stages ends whatever the attempts do exactly when `k` is at least two. */
  lemma EndsIff(k: int)
    ensures (forall attempts: (nat, Stage) -> Attempt :: Ends(k, attempts)) <==> 2 <= k
  {
    if k < 2 {
      var attempts: (nat, Stage) -> Attempt := (i, s) => CutDone(true);
      forall n: nat ensures !AllDone(After(n, Whole(k), attempts)) {
        var u := SingleStageNeverEnds(n, k, attempts);
      }
      assert !Ends(k, attempts);
    } else {
      forall attempts: (nat, Stage) -> Attempt ensures Ends(k, attempts) {
        var n := WorkRunsOut(Whole(k), 0, attempts, k - 1);
      }
    }
  }
}
