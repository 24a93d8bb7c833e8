/** The pool of spare script contexts. */
module ConfigPool {
  import opened Common

  /** The limits, with the age on the scale of the clock. */
  datatype Limits = Limits(maxAge: nat, maxUse: nat, maxSpare: nat)

  /**
   * A loaded context. `sampledAt` and `readAt` say at which step of a run its epoch was sampled and
   * its policy was read; the program does not keep them.
   */
  datatype Context = Context(id: nat, created: nat, uses: nat, epoch: nat, sampledAt: nat, readAt: nat)

  /** What the clock and the epoch counter show when they are read. */
  datatype Reading = Reading(now: nat, epoch: nat)

  function Age(c: Context, now: nat): nat {
    if now >= c.created then now - c.created else 0
  }

  predicate Usable(lim: Limits, c: Context, r: Reading) {
    Age(c, r.now) <= lim.maxAge && c.epoch == r.epoch
  }

  function Used(c: Context): Context {
    c.(uses := c.uses + 1)
  }

  /** The first context that is usable when its turn comes, or the length of the pool. */
  function FirstUsable(lim: Limits, pool: seq<Context>, read: nat -> Reading, i: nat): (k: nat)
    requires i <= |pool|
    ensures i <= k <= |pool| && (k < |pool| ==> Usable(lim, pool[k], read(k)))
    ensures forall j | i <= j < k :: !Usable(lim, pool[j], read(j))
    decreases |pool| - i
  {
    if i == |pool| || Usable(lim, pool[i], read(i)) then i else FirstUsable(lim, pool, read, i + 1)
  }

  /** Whether a returned context goes back into a pool of the given length. */
  predicate Accepts(lim: Limits, length: nat, c: Context, r: Reading, gcFails: bool) {
    && c.epoch == r.epoch && length + 1 <= lim.maxSpare
    && Age(c, r.now) <= lim.maxAge && c.uses + 1 <= lim.maxUse
    && !gcFails
  }

  /** Whether expiry keeps a context. */
  predicate Keeps(lim: Limits, c: Context, now: nat, epoch: nat) {
    Age(c, now) < lim.maxAge && c.epoch == epoch
  }

  /** What expiry keeps; the epoch is read once, the clock for every context. */
  function Retained(lim: Limits, pool: seq<Context>, times: seq<nat>, epoch: nat): (kept: seq<Context>)
    requires |times| == |pool|
    ensures |kept| <= |pool| && forall c | c in kept :: c in pool
  {
    if pool == [] then []
    else
      var n := |pool| - 1;
      var rest := Retained(lim, pool[..n], times[..n], epoch);
      if Keeps(lim, pool[n], times[n], epoch) then rest + [pool[n]] else rest
  }

  ghost predicate Rising(at: seq<nat>) {
    forall j, k | 0 <= j < k < |at| :: at[j] < at[k]
  }

  ghost predicate StandAt(kept: seq<Context>, pool: seq<Context>, at: seq<nat>) {
    |kept| == |at| && forall k | 0 <= k < |at| :: at[k] < |pool| && kept[k] == pool[at[k]]
  }

  /** Exactly the places of the contexts that expiry keeps. */
  ghost predicate Kept(lim: Limits, pool: seq<Context>, times: seq<nat>, epoch: nat, at: seq<nat>)
    requires |times| == |pool|
  {
    forall i: nat :: i in at <==> i < |pool| && Keeps(lim, pool[i], times[i], epoch)
  }

  lemma {:induction false} KeptNext(lim: Limits, pool: seq<Context>, times: seq<nat>, epoch: nat, init: seq<nat>)
    requires |times| == |pool| > 0
    requires var n := |pool| - 1; Kept(lim, pool[..n], times[..n], epoch, init)
    ensures var n := |pool| - 1;
            var at := if Keeps(lim, pool[n], times[n], epoch) then init + [n] else init;
            Kept(lim, pool, times, epoch, at)
  {
    var n := |pool| - 1;
    var at := if Keeps(lim, pool[n], times[n], epoch) then init + [n] else init;
    forall i: nat ensures i in at <==> i < |pool| && Keeps(lim, pool[i], times[i], epoch) {
      assert i in init <==> i < n && Keeps(lim, pool[..n][i], times[..n][i], epoch);
    }
  }

  /** Exactly the young and current contexts are kept, each once and in order. */
  lemma {:induction false} RetainedIff(lim: Limits, pool: seq<Context>, times: seq<nat>, epoch: nat)
    returns (at: seq<nat>)
    requires |times| == |pool|
    ensures Rising(at) && StandAt(Retained(lim, pool, times, epoch), pool, at)
    ensures Kept(lim, pool, times, epoch, at)
  {
    if pool == [] {
      at := [];
    } else {
      var n := |pool| - 1;
      var init := RetainedIff(lim, pool[..n], times[..n], epoch);
      at := if Keeps(lim, pool[n], times[n], epoch) then init + [n] else init;
      KeptNext(lim, pool, times, epoch, init);
    }
  }

  class Pool {
    var pool: seq<Context>
    /** The gauge of spare contexts */
    var spare: int
    /** The gauge of live contexts, which dropping a context lowers */
    var live: int

    constructor ()
      ensures pool == [] && spare == 0 && live == 0
    {
      pool, spare, live := [], 0, 0;
    }

    method Drop()
      modifies this`live
      ensures live == old(live) - 1
    {
      live := live - 1;
    }

    /** `read(i)` is what the clock and the epoch show when the i-th context is looked at. */
    method Get(lim: Limits, read: nat -> Reading) returns (r: Option<Context>)
      modifies this
      ensures var k := FirstUsable(lim, old(pool), read, 0);
              if k < |old(pool)| then
                && r == Some(Used(old(pool)[k])) && pool == old(pool)[k + 1..]
                && spare == old(spare) - (k + 1) && live == old(live) - k
              else
                r == None && pool == [] && spare == old(spare) - k && live == old(live) - k
    {
      ghost var all := pool;
      var i := 0;
      while pool != []
        invariant i <= |all| && pool == all[i..] && spare == old(spare) - i && live == old(live) - i
        invariant FirstUsable(lim, all, read, 0) == FirstUsable(lim, all, read, i)
        decreases |pool|
      {
        var item := pool[0];
        pool := pool[1..];
        spare := spare - 1;
        if Age(item, read(i).now) > lim.maxAge || item.epoch != read(i).epoch {
          Drop();
          i := i + 1;
          continue;
        }
        return Some(Used(item));
      }
      r := None;
    }

    /** The context is dropped where the source lets it go out of scope. */
    method Put(lim: Limits, c: Context, r: Reading, gcFails: bool)
      modifies this
      ensures if Accepts(lim, |old(pool)|, c, r, gcFails) then
                pool == old(pool) + [c] && spare == old(spare) + 1 && live == old(live)
              else
                pool == old(pool) && spare == old(spare) && live == old(live) - 1
    {
      if c.epoch != r.epoch {
        Drop();
        return;
      }
      if |pool| + 1 > lim.maxSpare {
        Drop();
        return;
      }
      if Age(c, r.now) > lim.maxAge || c.uses + 1 > lim.maxUse {
        Drop();
        return;
      }
      if gcFails {
        Drop();
        return;
      }
      pool := pool + [c];
      spare := spare + 1;
    }

    /** `times[i]` is what the clock shows when the i-th context is looked at. */
    method Expire(lim: Limits, times: seq<nat>, epoch: nat)
      requires |times| == |pool|
      modifies this
      ensures pool == Retained(lim, old(pool), times, epoch)
      ensures spare == old(spare) - (|old(pool)| - |pool|) && live == old(live) - (|old(pool)| - |pool|)
    {
      var before := pool;
      var kept := [];
      for i := 0 to |before|
        invariant kept == Retained(lim, before[..i], times[..i], epoch)
        invariant pool == before && spare == old(spare) && live == old(live) - (i - |kept|)
      {
        assert before[..i + 1][..i] == before[..i] && times[..i + 1][..i] == times[..i];
        if Age(before[i], times[i]) < lim.maxAge && before[i].epoch == epoch {
          kept := kept + [before[i]];
        } else {
          Drop();
        }
      }
      assert before[..|before|] == before && times[..|times|] == times;
      pool := kept;
      var diff := |before| - |kept|;
      if diff > 0 {
        spare := spare - diff;
      }
    }
  }
}
