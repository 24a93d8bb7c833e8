/** Every interleaving of loads, hand-outs, returns, expiry and epoch bumps. */
module PoolRuns {
  import opened ConfigPool

  /** A load under way: begun, then with its epoch sampled, then with its policy read. */
  datatype Loading =
    | Begun(created: nat)
    | Sampled(created: nat, epoch: nat, sampledAt: nat)
    | Loaded(created: nat, epoch: nat, sampledAt: nat, readAt: nat)

  /**
   * `handed` are the contexts in the hands of callers; `moment` counts the steps made; `bumped` is
   * the moment just after the last bump of the epoch.
   */
  datatype State = State(
    now: nat, epoch: nat, bumped: nat, moment: nat, nextId: nat,
    pool: seq<Context>, handed: map<nat, Context>, loading: map<nat, Loading>, spare: int, live: int)

  /**
   * The calls into the pool hold its lock, but bumps do not wait for it. A hand-out is therefore
   * taken apart into the contexts it skips and the one it gives, each with its own look at the epoch,
   * and a return or an expiry may go by an epoch that has since been left.
   */
  datatype Step =
    | Tick(time: nat)
    | Bump
    | Begin
    | Sample(id: nat)
    | Read(id: nat)
    | Finish(id: nat)
    | Fail(id: nat)
    | Skip
    | Give
    | Return(id: nat, seen: nat, gcFails: bool)
    | Expire(seen: nat, times: seq<nat>)
    | Release(id: nat)

  function Now(st: State): Reading { Reading(st.now, st.epoch) }

  predicate Enabled(lim: Limits, st: State, step: Step) {
    match step
    case Tick(_) => true
    case Bump => true
    case Begin => true
    case Sample(id) => id in st.loading && st.loading[id].Begun?
    case Read(id) => id in st.loading && st.loading[id].Sampled?
    case Finish(id) => id in st.loading && st.loading[id].Loaded?
    case Fail(id) => id in st.loading
    case Skip => st.pool != [] && !Usable(lim, st.pool[0], Now(st))
    case Give => st.pool != [] && Usable(lim, st.pool[0], Now(st))
    case Return(id, seen, _) => id in st.handed && seen <= st.epoch
    case Expire(seen, times) => seen <= st.epoch && |times| == |st.pool|
    case Release(id) => id in st.handed
  }

  function Apply(lim: Limits, before: State, step: Step): (after: State)
    requires Enabled(lim, before, step)
    ensures after.moment == before.moment + 1
  {
    var st := before.(moment := before.moment + 1);
    match step
    case Tick(time) => st.(now := st.now + time)
    case Bump => st.(epoch := st.epoch + 1, bumped := st.moment)
    case Begin => st.(nextId := st.nextId + 1, loading := st.loading[st.nextId := Begun(st.now)])
    case Sample(id) =>
      st.(loading := st.loading[id := Sampled(st.loading[id].created, st.epoch, before.moment)])
    case Read(id) =>
      var l := st.loading[id];
      st.(loading := st.loading[id := Loaded(l.created, l.epoch, l.sampledAt, before.moment)])
    case Finish(id) =>
      var l := st.loading[id];
      st.(loading := st.loading - {id}, live := st.live + 1,
          handed := st.handed[id := Context(id, l.created, 1, l.epoch, l.sampledAt, l.readAt)])
    case Fail(id) => st.(loading := st.loading - {id})
    case Skip => st.(pool := st.pool[1..], spare := st.spare - 1, live := st.live - 1)
    case Give =>
      var c := Used(st.pool[0]);
      st.(pool := st.pool[1..], spare := st.spare - 1, handed := st.handed[c.id := c])
    case Return(id, seen, gcFails) =>
      var c := st.handed[id];
      var left := st.(handed := st.handed - {id});
      if Accepts(lim, |st.pool|, c, Reading(st.now, seen), gcFails)
      then left.(pool := st.pool + [c], spare := st.spare + 1)
      else left.(live := st.live - 1)
    case Expire(seen, times) =>
      var kept := Retained(lim, st.pool, times, seen);
      var diff := |st.pool| - |kept|;
      st.(pool := kept, spare := st.spare - diff, live := st.live - diff)
    case Release(id) => st.(handed := st.handed - {id}, live := st.live - 1)
  }

  function Start(): State {
    State(0, 0, 0, 0, 0, [], map[], map[], 0, 0)
  }

  /** The states that the steps lead through, each step being enabled when its turn comes. */
  ghost predicate IsRun(lim: Limits, run: seq<State>, steps: seq<Step>) {
    && |run| == |steps| + 1 && run[0] == Start()
    && forall i | 0 <= i < |steps| :: Enabled(lim, run[i], steps[i]) && run[i + 1] == Apply(lim, run[i], steps[i])
  }

  // ---- the invariant ----------------------------------------------------------------------

  ghost predicate Gauges(lim: Limits, st: State) {
    st.spare == |st.pool| <= lim.maxSpare && st.live == |st.pool| + |st.handed|
  }

  /** An epoch that is still the current one was sampled after the last bump. */
  predicate Timely(st: State, epoch: nat, sampledAt: nat) {
    epoch <= st.epoch && sampledAt < st.moment && (epoch == st.epoch ==> st.bumped <= sampledAt)
  }

  predicate Good(st: State, c: Context) {
    c.id < st.nextId && c.id !in st.loading && c.created <= st.now
    && Timely(st, c.epoch, c.sampledAt) && c.sampledAt < c.readAt < st.moment
  }

  ghost predicate Pooled(lim: Limits, st: State) {
    && (forall i | 0 <= i < |st.pool| ::
      Good(st, st.pool[i]) && st.pool[i].id !in st.handed && 1 <= st.pool[i].uses < lim.maxUse)
    && DistinctIds(st.pool)
  }

  ghost predicate Handed(lim: Limits, st: State) {
    forall id | id in st.handed ::
      Good(st, st.handed[id]) && st.handed[id].id == id && 1 <= st.handed[id].uses <= lim.maxUse
  }

  ghost predicate Underway(st: State) {
    forall id | id in st.loading ::
      && id < st.nextId && st.loading[id].created <= st.now
      && (!st.loading[id].Begun? ==> Timely(st, st.loading[id].epoch, st.loading[id].sampledAt))
      && (st.loading[id].Loaded? ==> st.loading[id].sampledAt < st.loading[id].readAt < st.moment)
  }

  ghost predicate Inv(lim: Limits, st: State) {
    st.bumped <= st.moment && Gauges(lim, st) && Pooled(lim, st) && Handed(lim, st) && Underway(st)
  }

  lemma {:induction false} RemoveOne<T>(m: map<nat, T>, id: nat)
    requires id in m
    ensures |m - {id}| == |m| - 1
  {
    assert m == (m - {id})[id := m[id]];
  }

  predicate DistinctIds(pool: seq<Context>) {
    forall i, j | 0 <= i < j < |pool| :: pool[i].id != pool[j].id
  }

  lemma {:induction false} RetainedDistinct(lim: Limits, pool: seq<Context>, times: seq<nat>, epoch: nat)
    requires DistinctIds(pool) && |times| == |pool|
    ensures DistinctIds(Retained(lim, pool, times, epoch))
  {
    if pool != [] {
      var init, last := pool[..|pool| - 1], pool[|pool| - 1];
      var rest := Retained(lim, init, times[..|init|], epoch);
      RetainedDistinct(lim, init, times[..|init|], epoch);
      forall i | 0 <= i < |rest| ensures rest[i].id != last.id {
        assert rest[i] in init;
      }
    }
  }

  lemma {:induction false} TickInv(lim: Limits, st: State, time: nat)
    requires Inv(lim, st) && Enabled(lim, st, Tick(time))
    ensures Inv(lim, Apply(lim, st, Tick(time)))
  {
  }

  lemma {:induction false} BumpInv(lim: Limits, st: State)
    requires Inv(lim, st) && Enabled(lim, st, Bump)
    ensures Inv(lim, Apply(lim, st, Bump))
  {
  }

  lemma {:induction false} BeginInv(lim: Limits, st: State)
    requires Inv(lim, st) && Enabled(lim, st, Begin)
    ensures Inv(lim, Apply(lim, st, Begin))
  {
  }

  lemma {:induction false} SampleInv(lim: Limits, st: State, id: nat)
    requires Inv(lim, st) && Enabled(lim, st, Sample(id))
    ensures Inv(lim, Apply(lim, st, Sample(id)))
  {
  }

  lemma {:induction false} ReadInv(lim: Limits, st: State, id: nat)
    requires Inv(lim, st) && Enabled(lim, st, Read(id))
    ensures Inv(lim, Apply(lim, st, Read(id)))
  {
  }

  lemma {:induction false} FinishInv(lim: Limits, st: State, id: nat)
    requires Inv(lim, st) && Enabled(lim, st, Finish(id)) && lim.maxUse >= 1
    ensures Inv(lim, Apply(lim, st, Finish(id)))
  {
    FinishHanded(lim, st, id);
    FinishRest(lim, st, id);
  }

  lemma {:induction false} FinishHanded(lim: Limits, st: State, id: nat)
    requires Inv(lim, st) && Enabled(lim, st, Finish(id)) && lim.maxUse >= 1
    ensures Handed(lim, Apply(lim, st, Finish(id)))
  {
  }

  lemma {:induction false} FinishRest(lim: Limits, st: State, id: nat)
    requires Inv(lim, st) && Enabled(lim, st, Finish(id))
    ensures var st' := Apply(lim, st, Finish(id)); Gauges(lim, st') && Pooled(lim, st') && Underway(st')
  {
    assert id in st.handed ==> Good(st, st.handed[id]);
  }

  lemma {:induction false} FailInv(lim: Limits, st: State, id: nat)
    requires Inv(lim, st) && Enabled(lim, st, Fail(id))
    ensures Inv(lim, Apply(lim, st, Fail(id)))
  {
  }

  lemma {:induction false} SkipInv(lim: Limits, st: State)
    requires Inv(lim, st) && Enabled(lim, st, Skip)
    ensures Inv(lim, Apply(lim, st, Skip))
  {
  }

  lemma {:induction false} GiveInv(lim: Limits, st: State)
    requires Inv(lim, st) && Enabled(lim, st, Give)
    ensures Inv(lim, Apply(lim, st, Give))
  {
  }

  lemma {:induction false} ReturnInv(lim: Limits, st: State, id: nat, seen: nat, gcFails: bool)
    requires Inv(lim, st) && Enabled(lim, st, Return(id, seen, gcFails))
    ensures Inv(lim, Apply(lim, st, Return(id, seen, gcFails)))
  {
    if Accepts(lim, |st.pool|, st.handed[id], Reading(st.now, seen), gcFails) {
      KeepInv(lim, st, id);
    } else {
      ReleaseInv(lim, st, id);
    }
  }

  lemma {:induction false} KeepInv(lim: Limits, st: State, id: nat)
    requires Inv(lim, st) && id in st.handed && st.handed[id].uses < lim.maxUse && |st.pool| < lim.maxSpare
    ensures Inv(lim, st.(moment := st.moment + 1, handed := st.handed - {id},
                         pool := st.pool + [st.handed[id]], spare := st.spare + 1))
  {
    RemoveOne(st.handed, id);
  }

  lemma {:induction false} ExpireInv(lim: Limits, st: State, seen: nat, times: seq<nat>)
    requires Inv(lim, st) && Enabled(lim, st, Expire(seen, times))
    ensures Inv(lim, Apply(lim, st, Expire(seen, times)))
  {
    RetainedDistinct(lim, st.pool, times, seen);
    ShrinkInv(lim, st, Retained(lim, st.pool, times, seen));
  }

  lemma {:induction false} ShrinkInv(lim: Limits, st: State, kept: seq<Context>)
    requires Inv(lim, st) && DistinctIds(kept) && |kept| <= |st.pool| && forall c | c in kept :: c in st.pool
    ensures var diff := |st.pool| - |kept|;
            Inv(lim, st.(moment := st.moment + 1, pool := kept, spare := st.spare - diff, live := st.live - diff))
  {
    forall i | 0 <= i < |kept|
      ensures Good(st, kept[i]) && kept[i].id !in st.handed && 1 <= kept[i].uses < lim.maxUse
    {
      assert kept[i] in st.pool;
    }
  }

  lemma {:induction false} ReleaseInv(lim: Limits, st: State, id: nat)
    requires Inv(lim, st) && Enabled(lim, st, Release(id))
    ensures Inv(lim, Apply(lim, st, Release(id)))
  {
    RemoveOne(st.handed, id);
  }

  /** Every state of every run satisfies the invariant. */
  lemma {:induction false} RunInv(lim: Limits, run: seq<State>, steps: seq<Step>, i: nat)
    requires lim.maxUse >= 1 && IsRun(lim, run, steps) && i < |run|
    ensures Inv(lim, run[i]) && run[i].moment == i
  {
    if i > 0 {
      RunInv(lim, run, steps, i - 1);
      StepInv(lim, run[i - 1], steps[i - 1]);
    }
  }

  lemma {:induction false} StepInv(lim: Limits, st: State, step: Step)
    requires Inv(lim, st) && Enabled(lim, st, step) && lim.maxUse >= 1
    ensures Inv(lim, Apply(lim, st, step))
  {
    match step
    case Tick(time) => TickInv(lim, st, time);
    case Bump => BumpInv(lim, st);
    case Begin => BeginInv(lim, st);
    case Sample(id) => SampleInv(lim, st, id);
    case Read(id) => ReadInv(lim, st, id);
    case Finish(id) => FinishInv(lim, st, id);
    case Fail(id) => FailInv(lim, st, id);
    case Skip => SkipInv(lim, st);
    case Give => GiveInv(lim, st);
    case Return(id, seen, gcFails) => ReturnInv(lim, st, id, seen, gcFails);
    case Expire(seen, times) => ExpireInv(lim, st, seen, times);
    case Release(id) => ReleaseInv(lim, st, id);
  }
}
