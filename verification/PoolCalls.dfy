/** Calls into the pool are series of steps, whatever happens to the clock and the epoch meanwhile. */
module PoolCalls {
  import opened Common
  import opened ConfigPool
  import opened PoolRuns

  /** The steps lead from one state to the other. */
  ghost predicate Leads(lim: Limits, a: State, steps: seq<Step>, b: State)
    decreases steps
  {
    if steps == [] then a == b
    else Enabled(lim, a, steps[0]) && Leads(lim, Apply(lim, a, steps[0]), steps[1..], b)
  }

  lemma {:induction false} LeadsConcat(lim: Limits, a: State, xs: seq<Step>, b: State, ys: seq<Step>, c: State)
    requires Leads(lim, a, xs, b) && Leads(lim, b, ys, c)
    ensures Leads(lim, a, xs + ys, c)
    decreases xs
  {
    if xs == [] {
      assert xs + ys == ys;
    } else {
      assert (xs + ys)[1..] == xs[1..] + ys;
      LeadsConcat(lim, Apply(lim, a, xs[0]), xs[1..], b, ys, c);
    }
  }

  lemma {:induction false} LeadsOne(lim: Limits, a: State, step: Step)
    requires Enabled(lim, a, step)
    ensures Leads(lim, a, [step], Apply(lim, a, step))
  {
    assert [step][1..] == [];
    assert Leads(lim, Apply(lim, a, step), [], Apply(lim, a, step));
  }

  /** Ticks, bumps and skips, with a hand-out at most at the end. */
  ghost predicate Looks(steps: seq<Step>, given: bool) {
    forall i | 0 <= i < |steps| ::
      steps[i].Tick? || steps[i].Bump? || steps[i].Skip? || (steps[i].Give? && given && i == |steps| - 1)
  }

  lemma {:induction false} LooksConcat(xs: seq<Step>, ys: seq<Step>, given: bool)
    requires Looks(xs, false) && Looks(ys, given)
    ensures Looks(xs + ys, given)
  {
  }

  /** Only the clock and the epoch differ. */
  predicate SameContexts(a: State, b: State) {
    a.pool == b.pool && a.handed == b.handed && a.spare == b.spare && a.live == b.live
  }

  /** The clock ticks and the epoch is bumped until they show what is read. */
  lemma {:induction false} CatchUp(lim: Limits, st: State, r: Reading) returns (steps: seq<Step>, after: State)
    requires st.now <= r.now && st.epoch <= r.epoch
    ensures Leads(lim, st, steps, after) && SameContexts(st, after) && Now(after) == r && Looks(steps, false)
    decreases r.epoch - st.epoch
  {
    if st.epoch == r.epoch {
      var tick := Tick(r.now - st.now);
      steps, after := [tick], Apply(lim, st, tick);
      LeadsOne(lim, st, tick);
    } else {
      var next := Apply(lim, st, Bump);
      var more, end := CatchUp(lim, next, r);
      steps, after := [Bump] + more, end;
      LeadsOne(lim, st, Bump);
      LeadsConcat(lim, st, [Bump], next, more, end);
    }
  }

  /** Neither the clock nor the epoch ever goes back. */
  ghost predicate Forward(st: State, read: nat -> Reading, i: nat) {
    && st.now <= read(i).now && st.epoch <= read(i).epoch
    && forall j: nat :: read(j).now <= read(j + 1).now && read(j).epoch <= read(j + 1).epoch
  }

  /** What a call of `get` that has come to position `i` of the pool leaves. */
  ghost predicate GetLeaves(lim: Limits, st: State, pool: seq<Context>, read: nat -> Reading, i: nat, after: State)
    requires i <= |pool|
  {
    var k := FirstUsable(lim, pool, read, i);
    if k == |pool| then
      && after.pool == [] && after.handed == st.handed
      && after.spare == st.spare - (k - i) && after.live == st.live - (k - i)
    else
      && after.pool == pool[k + 1..] && after.handed == st.handed[pool[k].id := Used(pool[k])]
      && after.spare == st.spare - (k - i) - 1 && after.live == st.live - (k - i)
  }

  lemma {:induction false} OneLook(lim: Limits, st: State, r: Reading) returns (steps: seq<Step>, after: State)
    requires st.pool != [] && st.now <= r.now && st.epoch <= r.epoch
    ensures Leads(lim, st, steps, after) && Looks(steps, Usable(lim, st.pool[0], r)) && Now(after) == r
    ensures after.pool == st.pool[1..] && after.spare == st.spare - 1
    ensures if Usable(lim, st.pool[0], r)
            then after.live == st.live && after.handed == st.handed[st.pool[0].id := Used(st.pool[0])]
            else after.live == st.live - 1 && after.handed == st.handed
  {
    var catch, ready := CatchUp(lim, st, r);
    var step := if Usable(lim, st.pool[0], r) then Give else Skip;
    steps, after := catch + [step], Apply(lim, ready, step);
    LeadsOne(lim, ready, step);
    LeadsConcat(lim, st, catch, ready, [step], after);
    LooksConcat(catch, [step], Usable(lim, st.pool[0], r));
  }

  lemma {:induction false} GetFrom(lim: Limits, st: State, pool: seq<Context>, read: nat -> Reading, i: nat)
    returns (steps: seq<Step>, after: State)
    requires i <= |pool| && st.pool == pool[i..] && Forward(st, read, i)
    ensures Leads(lim, st, steps, after) && GetLeaves(lim, st, pool, read, i, after)
    ensures Looks(steps, FirstUsable(lim, pool, read, i) < |pool|)
    decreases |pool| - i
  {
    if i == |pool| {
      steps, after := [], st;
    } else {
      var look, next := OneLook(lim, st, read(i));
      if Usable(lim, pool[i], read(i)) {
        steps, after := look, next;
      } else {
        assert read(i).now <= read(i + 1).now;
        var more, end := GetFrom(lim, next, pool, read, i + 1);
        steps, after := look + more, end;
        LeadsConcat(lim, st, look, next, more, end);
        LooksConcat(look, more, FirstUsable(lim, pool, read, i + 1) < |pool|);
      }
    }
  }

  /** What `Get` leaves, a series of ticks, bumps and skips leads to, with a hand-out at the end if it gives one. */
  lemma {:induction false} GetIsSteps(lim: Limits, st: State, read: nat -> Reading)
    requires Forward(st, read, 0)
    ensures exists steps, after ::
              && Leads(lim, st, steps, after) && GetLeaves(lim, st, st.pool, read, 0, after)
              && Looks(steps, FirstUsable(lim, st.pool, read, 0) < |st.pool|)
  {
    var steps, after := GetFrom(lim, st, st.pool, read, 0);
  }

  // ---- the calls themselves -----------------------------------------------------------------------

  /** The pool and its gauges are as in the state. */
  ghost predicate Shows(pool: Pool, st: State)
    reads pool
  {
    pool.pool == st.pool && pool.spare == st.spare && pool.live == st.live
  }

  method Get(pool: Pool, lim: Limits, read: nat -> Reading, ghost st: State)
    returns (r: Option<Context>, ghost steps: seq<Step>, ghost after: State)
    requires Shows(pool, st) && Forward(st, read, 0)
    modifies pool
    ensures Leads(lim, st, steps, after) && Looks(steps, r.Some?) && Shows(pool, after)
    ensures after.handed == if r.Some? then st.handed[r.value.id := r.value] else st.handed
  {
    steps, after := GetFrom(lim, st, pool.pool, read, 0);
    r := pool.Get(lim, read);
  }

  /** Between the reading of the epoch and that of the clock, both may move on. */
  method Put(pool: Pool, lim: Limits, c: Context, r: Reading, gcFails: bool, ghost st: State)
    returns (ghost after: State)
    requires Shows(pool, st) && c.id in st.handed && st.handed[c.id] == c && r.now >= st.now && r.epoch <= st.epoch
    modifies pool
    ensures Leads(lim, st, [Tick(r.now - st.now), Return(c.id, r.epoch, gcFails)], after) && Shows(pool, after)
  {
    ghost var tick, back := Tick(r.now - st.now), Return(c.id, r.epoch, gcFails);
    ghost var ready := Apply(lim, st, tick);
    after := Apply(lim, ready, back);
    LeadsOne(lim, st, tick);
    LeadsOne(lim, ready, back);
    LeadsConcat(lim, st, [tick], ready, [back], after);
    assert [tick] + [back] == [tick, back];
    pool.Put(lim, c, r, gcFails);
  }

  method Expire(pool: Pool, lim: Limits, times: seq<nat>, epoch: nat, ghost st: State) returns (ghost after: State)
    requires Shows(pool, st) && |times| == |pool.pool| && epoch <= st.epoch
    modifies pool
    ensures Leads(lim, st, [Step.Expire(epoch, times)], after) && Shows(pool, after)
  {
    after := Apply(lim, st, Step.Expire(epoch, times));
    LeadsOne(lim, st, Step.Expire(epoch, times));
    pool.Expire(lim, times, epoch);
  }
}
