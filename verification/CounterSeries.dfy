/** A time series of counters in a ring of buckets. */
module CounterSeries {
  import opened Common

  const U64_MAX: nat := 0xffff_ffff_ffff_ffff

  /** Clock readings are in nanoseconds. */
  const SECOND: nat := 1_000_000_000

  function Min(a: nat, b: nat): nat { if a < b then a else b }

  function Sum(s: seq<nat>): nat {
    if s == [] then 0 else Sum(s[..|s| - 1]) + s[|s| - 1]
  }

  function Zeros(n: nat): (s: seq<nat>)
    ensures |s| == n && forall i | 0 <= i < n :: s[i] == 0
  {
    seq(n, _ => 0)
  }

  // ---- the sliding window: newest bucket first -------------------------------------------

  /** How many whole bucket intervals lie between two clock readings. */
  function Slots(updated: nat, now: nat, size: nat): nat
    requires size > 0
  {
    (if now >= updated then now - updated else 0) / SECOND / size
  }

  /** The window moved on by `k` slots: zeros come in, the oldest fall out. */
  function Shift(w: seq<nat>, k: nat): (r: seq<nat>)
    ensures |r| == |w|
  {
    var z := Min(k, |w|);
    Zeros(z) + w[..|w| - z]
  }

  function SatAdd(a: nat, b: nat): nat { Min(a + b, U64_MAX) }

  /** Sums are taken modulo 2^64. */
  function Wrap(x: nat): nat {
    if x <= U64_MAX then x else Wrap(x - U64_MAX - 1)
  }

  lemma {:induction false} WrapAdd(a: nat, b: nat)
    ensures Wrap(Wrap(a) + b) == Wrap(a + b)
  {
    if a > U64_MAX { WrapAdd(a - U64_MAX - 1, b); }
  }

  function SatSub(a: nat, b: nat): nat { if a >= b then a - b else 0 }

  /** How many of the newest buckets a span of whole seconds takes in, rounding up. */
  function Span(seconds: nat, size: nat, n: nat): (m: nat)
    requires size > 0 && n > 0
    ensures 1 <= m <= n
  {
    var ceil := seconds / size + if seconds % size == 0 then 0 else 1;
    if Min(ceil, n) < 1 then 1 else Min(ceil, n)
  }

  // ---- positions in the ring ------------------------------------------------------------------

  /** The bucket `j` slots before the current one. */
  function Pos(curr: nat, n: nat, j: nat): (i: nat)
    requires curr < n && j < n
    ensures i < n
  {
    if j <= curr then curr - j else curr + n - j
  }

  lemma {:induction false} ModSmall(x: nat, n: nat)
    requires 0 < n && x < 2 * n
    ensures x % n == if x < n then x else x - n
  {
    if x < n {
      assert x / n == 0;
    } else {
      assert x == 1 * n + (x - n);
    }
  }

  /** After moving on by fewer than n slots, the bucket that was at j - k is found at j. */
  lemma {:induction false} PosMoves(curr: nat, n: nat, k: nat, j: nat)
    requires curr < n && k <= j < n
    ensures (k + curr) % n < n && Pos((k + curr) % n, n, j) == Pos(curr, n, j - k)
  {
    ModSmall(k + curr, n);
  }

  lemma {:induction false} PosInjective(curr: nat, n: nat, i: nat, j: nat)
    requires curr < n && i < n && j < n && i != j
    ensures Pos(curr, n, i) != Pos(curr, n, j)
  {
  }

  /** The contents of the ring from the current bucket back. */
  ghost function WindowOf(buckets: seq<nat>, curr: nat): (w: seq<nat>)
    requires curr < |buckets|
    ensures |w| == |buckets|
  {
    seq(|buckets|, j requires 0 <= j < |buckets| => buckets[Pos(curr, |buckets|, j)])
  }

  lemma {:induction false} WindowAt(buckets: seq<nat>, curr: nat, j: nat)
    requires curr < |buckets| && j < |buckets|
    ensures WindowOf(buckets, curr)[j] == buckets[Pos(curr, |buckets|, j)]
  {
  }

  /** Writing the bucket at `j` writes the window at `j`, and nothing else. */
  lemma {:induction false} WindowPut(buckets: seq<nat>, curr: nat, j: nat, value: nat)
    requires curr < |buckets| && j < |buckets|
    ensures WindowOf(buckets[Pos(curr, |buckets|, j) := value], curr) == WindowOf(buckets, curr)[j := value]
  {
    var n := |buckets|;
    forall i | 0 <= i < n && i != j ensures Pos(curr, n, i) != Pos(curr, n, j) { PosInjective(curr, n, i, j); }
  }

  lemma {:induction false} ZerosGrow(w: seq<nat>, p: nat)
    requires p < |w|
    ensures (Zeros(p) + w[p..])[p := 0] == Zeros(p + 1) + w[p + 1..]
  {
  }

  lemma {:induction false} PruneStep(buckets: seq<nat>, curr: nat, p: nat, w: seq<nat>)
    requires curr < |buckets| && p < |buckets| == |w| && WindowOf(buckets, curr) == Zeros(p) + w[p..]
    ensures WindowOf(buckets[Pos(curr, |buckets|, p) := 0], curr) == Zeros(p + 1) + w[p + 1..]
  {
    WindowPut(buckets, curr, p, 0);
    ZerosGrow(w, p);
  }

  class CounterSeries {
    const buckets: array<nat>
    const size: nat
    var curr: nat
    var updated: nat

    ghost predicate Valid() reads this {
      0 < buckets.Length < 256 && size > 0 && curr < buckets.Length
    }

    ghost function Window(): (w: seq<nat>)
      requires Valid()
      reads this, buckets
    {
      WindowOf(buckets[..], curr)
    }

    /** `with_initial_value`: the value is put into the first bucket. */
    constructor (numBuckets: nat, size: nat, value: nat, now: nat)
      requires 0 < numBuckets < 256 && size > 0
      ensures Valid() && fresh(buckets) && this.size == size && updated == now
      ensures Window() == [value] + Zeros(numBuckets - 1)
    {
      buckets := new nat[numBuckets](_ => 0);
      this.size := size;
      curr := 0;
      updated := now;
      new;
      buckets[0] := value;
      assert WindowOf(buckets[..], 0) == [value] + Zeros(numBuckets - 1);
    }

    /** Zeroes the buckets that the current one has moved over. */
    method Prune(count: nat)
      requires Valid() && count <= buckets.Length
      modifies buckets
      ensures Window() == Zeros(count) + old(Window())[count..]
    {
      var n := buckets.Length;
      ghost var w := Window();
      for prune := 0 to count
        invariant WindowOf(buckets[..], curr) == Zeros(prune) + w[prune..]
      {
        var idx := Pos(curr, n, prune);
        PruneStep(buckets[..], curr, prune, w);
        buckets[idx] := 0;
      }
    }

    /** `rotate_and_get_current_bucket`; `again` is the second reading of the clock, made when the ring moves on. */
    method Rotate(now: nat, again: nat) returns (idx: nat)
      requires Valid()
      modifies this`curr, this`updated, buckets
      ensures Valid() && idx == curr
      ensures Window() == Shift(old(Window()), Slots(old(updated), now, size))
      ensures updated == if Slots(old(updated), now, size) > 0 then again else old(updated)
    {
      var n := buckets.Length;
      var elapsed := if now >= updated then now - updated else 0;
      var slots := elapsed / SECOND / size;
      if slots > 0 {
        var count := Min(slots, n);
        ghost var before := Window();
        curr := (slots + curr) % n;
        updated := again;
        ghost var moved := Window();
        Moved(buckets[..], old(curr), curr, slots);
        assert before[..n - count] == moved[count..];
        Prune(count);
      }
      idx := curr;
    }

    method Increment(now: nat, again: nat, toAdd: nat)
      requires Valid()
      modifies this`curr, this`updated, buckets
      ensures Valid() && updated == if Slots(old(updated), now, size) > 0 then again else old(updated)
      ensures var w := Shift(old(Window()), Slots(old(updated), now, size)); Window() == w[0 := SatAdd(w[0], toAdd)]
    {
      var idx := Rotate(now, again);
      ghost var w := Window();
      Put(idx, SatAdd(buckets[idx], toAdd));
    }

    /** `delta`; the most negative value is its own negation, and as an unsigned number it is 2^63. */
    method Delta(now: nat, again: nat, delta: int)
      requires Valid() && -0x8000_0000_0000_0000 <= delta < 0x8000_0000_0000_0000
      modifies this`curr, this`updated, buckets
      ensures Valid() && updated == if Slots(old(updated), now, size) > 0 then again else old(updated)
      ensures var w := Shift(old(Window()), Slots(old(updated), now, size));
              Window() == w[0 := if delta > 0 then SatAdd(w[0], delta) else SatSub(w[0], -delta)]
    {
      var idx := Rotate(now, again);
      if delta > 0 {
        Put(idx, SatAdd(buckets[idx], delta));
      } else {
        Put(idx, SatSub(buckets[idx], -delta));
      }
    }

    method Observe(now: nat, again: nat, value: nat)
      requires Valid()
      modifies this`curr, this`updated, buckets
      ensures Valid() && updated == if Slots(old(updated), now, size) > 0 then again else old(updated)
      ensures Window() == Shift(old(Window()), Slots(old(updated), now, size))[0 := value]
    {
      var idx := Rotate(now, again);
      Put(idx, value);
    }

    method Put(idx: nat, value: nat)
      requires Valid() && idx == curr
      modifies buckets
      ensures Window() == old(Window())[0 := value]
    {
      WindowPut(buckets[..], curr, 0, value);
      ghost var before := buckets[..];
      buckets[idx] := value;
      assert buckets[..] == before[idx := value];
    }

    /** `sum`: everything in the ring. */
    method Total(now: nat, again: nat) returns (total: nat)
      requires Valid()
      modifies this`curr, this`updated, buckets
      ensures Valid() && updated == if Slots(old(updated), now, size) > 0 then again else old(updated)
      ensures Window() == Shift(old(Window()), Slots(old(updated), now, size)) && total == Wrap(Sum(Window()))
    {
      var _ := Rotate(now, again);
      SumWindow(buckets[..], curr);
      total := SumAll();
    }

    method SumAll() returns (total: nat)
      ensures total == Wrap(Sum(buckets[..]))
    {
      ghost var s := buckets[..];
      total := 0;
      for i := 0 to buckets.Length
        invariant total == Wrap(Sum(s[..i]))
      {
        SumNext(s, i);
        WrapAdd(Sum(s[..i]), s[i]);
        total := Wrap(total + buckets[i]);
      }
      assert s[..|s|] == s;
    }

    /** The loop of `sum_over`, backwards from the current bucket. */
    method SumNewest(count: nat) returns (total: nat)
      requires Valid() && count <= buckets.Length
      ensures total == Wrap(Sum(Window()[..count]))
    {
      ghost var w := Window();
      total := 0;
      for i := 0 to count
        invariant total == Wrap(Sum(w[..i]))
      {
        SumNext(w, i);
        WindowAt(buckets[..], curr, i);
        WrapAdd(Sum(w[..i]), w[i]);
        total := Wrap(total + buckets[Pos(curr, buckets.Length, i)]);
      }
    }

    /** `sum_over`: the newest buckets that the span takes in. */
    method TotalOver(now: nat, again: nat, seconds: nat) returns (total: nat)
      requires Valid()
      modifies this`curr, this`updated, buckets
      ensures Valid() && updated == if Slots(old(updated), now, size) > 0 then again else old(updated)
      ensures Window() == Shift(old(Window()), Slots(old(updated), now, size))
      ensures total == Wrap(Sum(Window()[..Span(seconds, size, buckets.Length)]))
    {
      var _ := Rotate(now, again);
      total := SumNewest(Span(seconds, size, buckets.Length));
    }
  }

  lemma {:induction false} Moved(buckets: seq<nat>, curr: nat, curr': nat, k: nat)
    requires curr < |buckets| && curr' == (k + curr) % |buckets| && curr' < |buckets|
    ensures var n := |buckets|;
            var z := Min(k, n);
            WindowOf(buckets, curr')[z..] == WindowOf(buckets, curr)[..n - z]
  {
    var n := |buckets|;
    var z := Min(k, n);
    forall j | z <= j < n ensures WindowOf(buckets, curr')[j] == WindowOf(buckets, curr)[j - z] {
      PosMoves(curr, n, k, j);
    }
  }

  // ---- the total of the ring is the total of the window ------------------------------------------

  lemma {:induction false} SumNext(s: seq<nat>, i: nat)
    requires i < |s|
    ensures Sum(s[..i + 1]) == Sum(s[..i]) + s[i]
  {
    assert s[..i + 1][..i] == s[..i];
  }

  lemma {:induction false} SumConcat(a: seq<nat>, b: seq<nat>)
    ensures Sum(a + b) == Sum(a) + Sum(b)
  {
    if b == [] {
      assert a + b == a;
    } else {
      assert (a + b)[..|a + b| - 1] == a + b[..|b| - 1];
      SumConcat(a, b[..|b| - 1]);
    }
  }

  lemma {:induction false} SumReversed(s: seq<nat>)
    ensures Sum(Reversed(s)) == Sum(s)
  {
    if s != [] {
      var init, last := s[..|s| - 1], s[|s| - 1];
      SumReversed(init);
      assert Reversed(s) == [last] + Reversed(init);
      SumConcat([last], Reversed(init));
      assert Sum([last]) == last by { assert [last][..0] == []; }
    }
  }

  lemma {:induction false} SumWindow(buckets: seq<nat>, curr: nat)
    requires curr < |buckets|
    ensures Sum(WindowOf(buckets, curr)) == Sum(buckets)
  {
    var low, high := buckets[..curr + 1], buckets[curr + 1..];
    assert WindowOf(buckets, curr) == Reversed(low) + Reversed(high);
    SumConcat(Reversed(low), Reversed(high));
    SumReversed(low);
    SumReversed(high);
    assert buckets == low + high;
    SumConcat(low, high);
  }
}
