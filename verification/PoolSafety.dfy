/** What holds in every run of the pool. */
module PoolSafety {
  import opened ConfigPool
  import opened PoolRuns

  /** The gauges always tell the truth. */
  lemma {:induction false} GaugesCorrect(lim: Limits, run: seq<State>, steps: seq<Step>, i: nat)
    requires lim.maxUse >= 1 && IsRun(lim, run, steps) && i < |run|
    ensures run[i].spare == |run[i].pool| <= lim.maxSpare
    ensures run[i].live == |run[i].pool| + |run[i].handed|
  {
    RunInv(lim, run, steps, i);
  }

  /** What the pool gives was sampled after the last bump, is young enough and has a use left. */
  lemma {:induction false} GivenFresh(lim: Limits, run: seq<State>, steps: seq<Step>, i: nat)
    requires lim.maxUse >= 1 && IsRun(lim, run, steps) && i < |steps| && steps[i] == Give
    ensures var c := run[i].pool[0];
            && run[i].bumped <= c.sampledAt < c.readAt && run[i].now <= c.created + lim.maxAge
            && run[i + 1].handed == run[i].handed[c.id := Used(c)] && Used(c).uses <= lim.maxUse
  {
    RunInv(lim, run, steps, i);
    assert Good(run[i], run[i].pool[0]);
  }

  // ---- nothing from before a bump is given after it ---------------------------------------------

  lemma {:induction false} BumpedSince(lim: Limits, run: seq<State>, steps: seq<Step>, k: nat, j: nat)
    requires lim.maxUse >= 1 && IsRun(lim, run, steps) && k < j < |run| && steps[k] == Bump
    ensures run[j].bumped > k
  {
    RunInv(lim, run, steps, j - 1);
    if j > k + 1 { BumpedSince(lim, run, steps, k, j - 1); }
  }

  /** Wherever the context `id` is, it is one whose epoch was sampled at moment `i`. */
  ghost predicate SampledAt(st: State, id: nat, i: nat) {
    && id < st.nextId
    && (id in st.loading ==> !st.loading[id].Begun? && st.loading[id].sampledAt == i)
    && (id in st.handed ==> st.handed[id].sampledAt == i)
    && forall x | 0 <= x < |st.pool| && st.pool[x].id == id :: st.pool[x].sampledAt == i
  }

  lemma {:induction false} SampledAtStep(lim: Limits, st: State, step: Step, id: nat, i: nat)
    requires Inv(lim, st) && Enabled(lim, st, step) && SampledAt(st, id, i)
    ensures SampledAt(Apply(lim, st, step), id, i)
  {
    match step
    case Expire(seen, times) => SampledAtShrink(st.pool, Retained(lim, st.pool, times, seen), id, i);
    case _ =>
  }

  lemma {:induction false} SampledAtShrink(pool: seq<Context>, kept: seq<Context>, id: nat, i: nat)
    requires forall x | 0 <= x < |pool| && pool[x].id == id :: pool[x].sampledAt == i
    requires forall c | c in kept :: c in pool
    ensures forall x | 0 <= x < |kept| && kept[x].id == id :: kept[x].sampledAt == i
  {
    forall x | 0 <= x < |kept| && kept[x].id == id ensures kept[x].sampledAt == i {
      assert kept[x] in pool;
    }
  }

  lemma {:induction false} SampledOnce(lim: Limits, run: seq<State>, steps: seq<Step>, id: nat, i: nat, j: nat)
    requires lim.maxUse >= 1 && IsRun(lim, run, steps) && i < j < |run| && steps[i] == Sample(id)
    ensures SampledAt(run[j], id, i)
  {
    RunInv(lim, run, steps, j - 1);
    if j == i + 1 {
      JustSampled(lim, run[i], id);
    } else {
      SampledOnce(lim, run, steps, id, i, j - 1);
      SampledAtStep(lim, run[j - 1], steps[j - 1], id, i);
    }
  }

  lemma {:induction false} JustSampled(lim: Limits, st: State, id: nat)
    requires Inv(lim, st) && Enabled(lim, st, Sample(id))
    ensures SampledAt(Apply(lim, st, Sample(id)), id, st.moment)
  {
    assert id in st.handed ==> Good(st, st.handed[id]);
    forall x | 0 <= x < |st.pool| ensures st.pool[x].id != id { assert Good(st, st.pool[x]); }
  }

  /** A context whose epoch was sampled before a bump is not given by the pool after it. */
  lemma {:induction false} NotAfterBump(lim: Limits, run: seq<State>, steps: seq<Step>, id: nat, i: nat, k: nat, j: nat)
    requires lim.maxUse >= 1 && IsRun(lim, run, steps) && i < k < j < |steps|
    requires steps[i] == Sample(id) && steps[k] == Bump && steps[j] == Give
    ensures run[j].pool[0].id != id
  {
    SampledOnce(lim, run, steps, id, i, j);
    BumpedSince(lim, run, steps, k, j);
    GivenFresh(lim, run, steps, j);
  }

  /** A policy is read only after its epoch was sampled. */
  lemma {:induction false} SampledBeforeRead(lim: Limits, run: seq<State>, steps: seq<Step>, id: nat, j: nat)
    returns (i: nat)
    requires IsRun(lim, run, steps) && j < |run| && id in run[j].loading && !run[j].loading[id].Begun?
    ensures i < j && steps[i] == Sample(id)
  {
    var last := j - 1;
    assert run[j] == Apply(lim, run[last], steps[last]);
    if steps[last] == Sample(id) { i := last; } else { i := SampledBeforeRead(lim, run, steps, id, last); }
  }

  /** So neither is a context whose policy was read before the bump. */
  lemma {:induction false} NotReadBeforeBump(lim: Limits, run: seq<State>, steps: seq<Step>, id: nat, i: nat, k: nat,
                                             j: nat)
    requires lim.maxUse >= 1 && IsRun(lim, run, steps) && i < k < j < |steps|
    requires steps[i] == Read(id) && steps[k] == Bump && steps[j] == Give
    ensures run[j].pool[0].id != id
  {
    var h := SampledBeforeRead(lim, run, steps, id, i);
    NotAfterBump(lim, run, steps, id, h, k, j);
  }

  /** The seven steps of a load that begins before a bump, but samples the epoch after it. */
  ghost function LateSample(): seq<Step> {
    [Begin, Bump, Sample(0), Read(0), Finish(0), Return(0, 1, false), Give]
  }

  /**
   * It is the sampling that counts: a context whose load only began before the bump is given after
   * it, provided the limits let a context be pooled and used again at all.
   */
  lemma {:induction false} BegunBeforeBump(lim: Limits)
    requires lim.maxUse >= 2 && lim.maxSpare >= 1
    ensures exists run: seq<State> :: IsRun(lim, run, LateSample()) && run[6].pool != [] && run[6].pool[0].id == 0
  {
    var load := LateLoad(lim);
    var s5 := load[5];
    var s6 := Apply(lim, s5, Return(0, 1, false));
    assert s6.pool == [s5.handed[0]] && Enabled(lim, s6, Give);
    OneStepMore(lim, load, LateSample()[..5], Return(0, 1, false));
    OneStepMore(lim, load + [s6], LateSample()[..6], Give);
    var run := load + [s6] + [Apply(lim, s6, Give)];
    assert LateSample()[..5] + [Return(0, 1, false)] == LateSample()[..6] && LateSample()[..6] + [Give] == LateSample();
    assert IsRun(lim, run, LateSample()) && run[6] == s6;
  }

  lemma {:induction false} OneStepMore(lim: Limits, run: seq<State>, steps: seq<Step>, step: Step)
    requires IsRun(lim, run, steps) && Enabled(lim, run[|steps|], step)
    ensures IsRun(lim, run + [Apply(lim, run[|steps|], step)], steps + [step])
  {
  }

  /** The load is sampled after the bump, so its context carries the new epoch. */
  lemma {:induction false} LateLoad(lim: Limits) returns (run: seq<State>)
    ensures IsRun(lim, run, LateSample()[..5])
    ensures run[5] == State(0, 1, 2, 5, 1, [], map[0 := Context(0, 0, 1, 1, 2, 3)], map[], 0, 1)
  {
    var s0 := Start();
    var s1 := Apply(lim, s0, Begin);
    var s2 := Apply(lim, s1, Bump);
    var s3 := Apply(lim, s2, Sample(0));
    var s4 := Apply(lim, s3, Read(0));
    run := [s0, s1, s2, s3, s4, Apply(lim, s4, Finish(0))];
    assert run[5].loading == map[];
  }

  // ---- the number of uses -----------------------------------------------------------------------

  predicate Hands(st: State, step: Step, id: nat) {
    step == Finish(id) || (step == Give && st.pool != [] && st.pool[0].id == id)
  }

  /** How often the context `id` came into the hands of a caller in the first `k` steps. */
  ghost function Uses(run: seq<State>, steps: seq<Step>, id: nat, k: nat): nat
    requires k <= |steps| < |run|
  {
    if k == 0 then 0 else Uses(run, steps, id, k - 1) + if Hands(run[k - 1], steps[k - 1], id) then 1 else 0
  }

  ghost predicate Tallied(st: State, id: nat, n: nat) {
    && (id >= st.nextId || id in st.loading ==> n == 0)
    && (id in st.handed ==> st.handed[id].uses == n)
    && forall x | 0 <= x < |st.pool| && st.pool[x].id == id :: st.pool[x].uses == n
  }

  lemma {:induction false} TallyShrink(pool: seq<Context>, kept: seq<Context>, id: nat, n: nat)
    requires forall x | 0 <= x < |pool| && pool[x].id == id :: pool[x].uses == n
    requires forall c | c in kept :: c in pool
    ensures forall x | 0 <= x < |kept| && kept[x].id == id :: kept[x].uses == n
  {
    forall x | 0 <= x < |kept| && kept[x].id == id ensures kept[x].uses == n {
      assert kept[x] in pool;
    }
  }

  lemma {:induction false} TallyGive(lim: Limits, st: State, id: nat, n: nat)
    requires Inv(lim, st) && Enabled(lim, st, Give) && Tallied(st, id, n)
    ensures Tallied(Apply(lim, st, Give), id, if Hands(st, Give, id) then n + 1 else n)
  {
    assert Good(st, st.pool[0]);
  }

  lemma {:induction false} TallyFinish(lim: Limits, st: State, other: nat, id: nat, n: nat)
    requires Inv(lim, st) && Enabled(lim, st, Finish(other)) && Tallied(st, id, n)
    ensures Tallied(Apply(lim, st, Finish(other)), id, if other == id then n + 1 else n)
  {
    forall x | 0 <= x < |st.pool| ensures st.pool[x].id != other { assert Good(st, st.pool[x]); }
  }

  lemma {:induction false} TallyBegin(lim: Limits, st: State, id: nat, n: nat)
    requires Inv(lim, st) && Tallied(st, id, n)
    ensures Tallied(Apply(lim, st, Begin), id, n)
  {
    forall x | 0 <= x < |st.pool| ensures st.pool[x].id != st.nextId { assert Good(st, st.pool[x]); }
    assert st.nextId in st.handed ==> Good(st, st.handed[st.nextId]);
  }

  lemma {:induction false} TallyStep(lim: Limits, st: State, step: Step, id: nat, n: nat)
    requires Inv(lim, st) && Enabled(lim, st, step) && Tallied(st, id, n)
    ensures Tallied(Apply(lim, st, step), id, if Hands(st, step, id) then n + 1 else n)
  {
    match step
    case Expire(seen, times) => TallyShrink(st.pool, Retained(lim, st.pool, times, seen), id, n);
    case Give => TallyGive(lim, st, id, n);
    case Finish(other) => TallyFinish(lim, st, other, id, n);
    case Begin => TallyBegin(lim, st, id, n);
    case _ =>
  }

  lemma {:induction false} TallyRun(lim: Limits, run: seq<State>, steps: seq<Step>, id: nat, k: nat)
    requires lim.maxUse >= 1 && IsRun(lim, run, steps) && k < |run|
    ensures Tallied(run[k], id, Uses(run, steps, id, k)) && Uses(run, steps, id, k) <= lim.maxUse
  {
    if k > 0 {
      TallyRun(lim, run, steps, id, k - 1);
      RunInv(lim, run, steps, k - 1);
      RunInv(lim, run, steps, k);
      TallyNext(lim, run[k - 1], steps[k - 1], id, Uses(run, steps, id, k - 1));
    }
  }

  lemma {:induction false} TallyNext(lim: Limits, st: State, step: Step, id: nat, n: nat)
    requires Inv(lim, st) && Enabled(lim, st, step) && Inv(lim, Apply(lim, st, step))
    requires Tallied(st, id, n) && n <= lim.maxUse
    ensures var n' := n + if Hands(st, step, id) then 1 else 0;
            Tallied(Apply(lim, st, step), id, n') && n' <= lim.maxUse
  {
    TallyStep(lim, st, step, id, n);
    if Hands(st, step, id) { HandedWithin(lim, st, step, id, n); }
  }

  /** What comes into the hands of a caller has been used at most as often as allowed. */
  lemma {:induction false} HandedWithin(lim: Limits, st: State, step: Step, id: nat, n: nat)
    requires Enabled(lim, st, step) && Hands(st, step, id) && Inv(lim, Apply(lim, st, step))
    requires Tallied(Apply(lim, st, step), id, n + 1)
    ensures n + 1 <= lim.maxUse
  {
    assert id in Apply(lim, st, step).handed;
  }

  /** No context comes into the hands of callers more often than the limit says. */
  lemma {:induction false} UsesBounded(lim: Limits, run: seq<State>, steps: seq<Step>, id: nat)
    requires lim.maxUse >= 1 && IsRun(lim, run, steps)
    ensures Uses(run, steps, id, |steps|) <= lim.maxUse
  {
    TallyRun(lim, run, steps, id, |steps|);
  }

  /** With a limit of no uses at all, a context that was just loaded is over it already. */
  lemma {:induction false} NoUsesAllowed(lim: Limits)
    requires lim.maxUse == 0
    ensures exists run, steps :: IsRun(lim, run, steps) && Uses(run, steps, 0, |steps|) > lim.maxUse
  {
    var s0 := Start();
    var s1 := Apply(lim, s0, Begin);
    var s2 := Apply(lim, s1, Sample(0));
    var s3 := Apply(lim, s2, Read(0));
    var s4 := Apply(lim, s3, Finish(0));
    var run, steps := [s0, s1, s2, s3, s4], [Begin, Sample(0), Read(0), Finish(0)];
    assert IsRun(lim, run, steps);
    assert Hands(run[3], steps[3], 0) && Uses(run, steps, 0, 4) >= 1;
  }
}
