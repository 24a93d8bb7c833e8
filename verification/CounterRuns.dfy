/** What the sum of a counter series means, over every pattern of calls. */
module CounterRuns {
  import opened CounterSeries

  /** A call: an increment, or with nothing to add a query; each call reads the clock once. */
  datatype Call = Call(time: nat, add: nat)

  /** A call that was made, with the number of slots passed since the series began. */
  datatype Made = Made(time: nat, add: nat, slot: nat)

  /** The window, and a log of what was put into it. */
  datatype State = State(window: seq<nat>, updated: nat, slots: nat, log: seq<Made>)

  function Started(n: nat, time: nat): State {
    State(Zeros(n), time, 0, [])
  }

  /** One call: rotate, then add to the current bucket, as the methods of the class do. */
  function Step(st: State, size: nat, call: Call): State
    requires size > 0 && |st.window| > 0
  {
    var k := Slots(st.updated, call.time, size);
    var w := Shift(st.window, k);
    State(w[0 := SatAdd(w[0], call.add)], if k > 0 then call.time else st.updated, st.slots + k,
          st.log + [Made(call.time, call.add, st.slots + k)])
  }

  function Run(n: nat, size: nat, start: nat, calls: seq<Call>): (st: State)
    requires n > 0 && size > 0
    ensures |st.window| == n && |st.log| == |calls|
  {
    if calls == [] then Started(n, start)
    else Step(Run(n, size, start, calls[..|calls| - 1]), size, calls[|calls| - 1])
  }

  /** The clock never goes back. */
  ghost predicate InOrder(start: nat, calls: seq<Call>) {
    && (forall i | 0 <= i < |calls| :: start <= calls[i].time)
    && forall i, j | 0 <= i <= j < |calls| :: calls[i].time <= calls[j].time
  }

  function Added(calls: seq<Call>): nat {
    if calls == [] then 0 else Added(calls[..|calls| - 1]) + calls[|calls| - 1].add
  }

  // ---- where increments end up ----------------------------------------------------------

  /** The total of the increments made fewer than `m` slots ago. */
  function Within(log: seq<Made>, slots: nat, m: nat): nat {
    if log == [] then 0
    else
      var e := log[|log| - 1];
      Within(log[..|log| - 1], slots, m) + if e.slot + m > slots then e.add else 0
  }

  /** The newest m buckets hold exactly the increments of the last m slots. */
  ghost predicate Accounted(st: State) {
    && (forall e | e in st.log :: e.slot <= st.slots)
    && forall m | 0 <= m <= |st.window| :: AccountedFor(st, m)
  }

  ghost predicate AccountedFor(st: State, m: nat)
    requires m <= |st.window|
  {
    Sum(st.window[..m]) == Within(st.log, st.slots, m)
  }

  lemma {:induction false} SumZeros(n: nat)
    ensures Sum(Zeros(n)) == 0
  {
    if n > 0 {
      assert Zeros(n)[..n - 1] == Zeros(n - 1);
      SumZeros(n - 1);
    }
  }

  lemma {:induction false} WithinShift(log: seq<Made>, slots: nat, k: nat, m: nat)
    requires forall e | e in log :: e.slot <= slots
    ensures Within(log, slots + k, m) == if m <= k then 0 else Within(log, slots, m - k)
  {
    if log != [] {
      assert log[|log| - 1] in log;
      WithinShift(log[..|log| - 1], slots, k, m);
    }
  }

  lemma {:induction false} ShiftPrefix(w: seq<nat>, k: nat, m: nat)
    requires m <= |w|
    ensures Sum(Shift(w, k)[..m]) == if m <= k then 0 else Sum(w[..m - k])
  {
    if m <= k {
      assert Shift(w, k)[..m] == Zeros(m);
      SumZeros(m);
    } else {
      assert Shift(w, k)[..m] == Zeros(k) + w[..m - k];
      SumConcat(Zeros(k), w[..m - k]);
      SumZeros(k);
    }
  }

  lemma {:induction false} SumHead(w: seq<nat>, v: nat, m: nat)
    requires 0 < m <= |w|
    ensures Sum(w[0 := v][..m]) + w[0] == Sum(w[..m]) + v
  {
    var rest := w[1..m];
    assert w[0 := v][..m] == [v] + rest && w[..m] == [w[0]] + rest;
    SumConcat([v], rest);
    SumConcat([w[0]], rest);
    assert [v][..0] == [] && [w[0]][..0] == [];
  }

  lemma {:induction false} WithinSnoc(log: seq<Made>, e: Made, slots: nat, m: nat)
    ensures Within(log + [e], slots, m) == Within(log, slots, m) + if e.slot + m > slots then e.add else 0
  {
    assert (log + [e])[..|log|] == log;
  }

  lemma {:induction false} StepAccounted(st: State, size: nat, call: Call)
    requires size > 0 && |st.window| > 0 && Accounted(st)
    requires var w := Shift(st.window, Slots(st.updated, call.time, size)); w[0] + call.add <= U64_MAX
    ensures Accounted(Step(st, size, call))
  {
    var k, st' := Slots(st.updated, call.time, size), Step(st, size, call);
    forall m | 0 <= m <= |st'.window| ensures AccountedFor(st', m) {
      assert AccountedFor(st, if m <= k then 0 else m - k);
      StepAt(st, st', k, Made(call.time, call.add, st.slots + k), m);
    }
  }

  /** Rotating by `k` slots keeps what is accounted for. */
  lemma {:induction false} ShiftAt(st: State, k: nat, m: nat)
    requires m <= |st.window| && forall e | e in st.log :: e.slot <= st.slots
    requires AccountedFor(st, if m <= k then 0 else m - k)
    ensures Sum(Shift(st.window, k)[..m]) == Within(st.log, st.slots + k, m)
  {
    ShiftPrefix(st.window, k, m);
    WithinShift(st.log, st.slots, k, m);
  }

  lemma {:induction false} StepAt(st: State, st': State, k: nat, e: Made, m: nat)
    requires 0 < |st.window| && m <= |st.window| && forall e | e in st.log :: e.slot <= st.slots
    requires AccountedFor(st, if m <= k then 0 else m - k)
    requires var w := Shift(st.window, k); st'.window == w[0 := w[0] + e.add]
    requires st'.log == st.log + [e] && st'.slots == e.slot == st.slots + k
    ensures AccountedFor(st', m)
  {
    ShiftAt(st, k, m);
    NewestAt(Shift(st.window, k), st.log, e, m);
  }

  lemma {:induction false} NewestAt(w: seq<nat>, log: seq<Made>, e: Made, m: nat)
    requires 0 < |w| && m <= |w| && Sum(w[..m]) == Within(log, e.slot, m)
    ensures Sum(w[0 := w[0] + e.add][..m]) == Within(log + [e], e.slot, m)
  {
    WithinSnoc(log, e, e.slot, m);
    if m > 0 { SumHead(w, w[0] + e.add, m); }
  }

  lemma {:induction false} WithinAtMost(log: seq<Made>, slots: nat, m: nat, calls: seq<Call>)
    requires |log| == |calls| && forall i | 0 <= i < |log| :: log[i].add == calls[i].add
    ensures Within(log, slots, m) <= Added(calls)
  {
    if log != [] { WithinAtMost(log[..|log| - 1], slots, m, calls[..|calls| - 1]); }
  }

  lemma {:induction false} RunLog(n: nat, size: nat, start: nat, calls: seq<Call>)
    requires n > 0 && size > 0
    ensures var log := Run(n, size, start, calls).log;
            forall i | 0 <= i < |calls| :: log[i].time == calls[i].time && log[i].add == calls[i].add
  {
    if calls != [] { RunLog(n, size, start, calls[..|calls| - 1]); }
  }

  /** As long as all increments together fit in a bucket, none saturates and all are accounted for. */
  lemma {:induction false} RunAccounted(n: nat, size: nat, start: nat, calls: seq<Call>)
    requires n > 0 && size > 0 && Added(calls) <= U64_MAX
    ensures Accounted(Run(n, size, start, calls))
  {
    if calls == [] {
      forall m | 0 <= m <= n ensures Sum(Zeros(n)[..m]) == 0 {
        assert Zeros(n)[..m] == Zeros(m);
        SumZeros(m);
      }
      assert forall m | 0 <= m <= n :: AccountedFor(Run(n, size, start, calls), m);
    } else {
      var init, call := calls[..|calls| - 1], calls[|calls| - 1];
      var st := Run(n, size, start, init);
      RunAccounted(n, size, start, init);
      RunLog(n, size, start, init);
      HeadAtMost(st, size, call, init);
      StepAccounted(st, size, call);
    }
  }

  lemma {:induction false} HeadAtMost(st: State, size: nat, call: Call, calls: seq<Call>)
    requires size > 0 && |st.window| > 0 && Accounted(st) && |st.log| == |calls|
    requires forall i | 0 <= i < |calls| :: st.log[i].add == calls[i].add
    ensures Shift(st.window, Slots(st.updated, call.time, size))[0] <= Added(calls)
  {
    var k := Slots(st.updated, call.time, size);
    var w := Shift(st.window, k);
    assert AccountedFor(st, if k == 0 then 1 else 0);
    ShiftPrefix(st.window, k, 1);
    WithinShift(st.log, st.slots, k, 1);
    WithinAtMost(st.log, st.slots + k, 1, calls);
    assert w[..1] == [w[0]] && [w[0]][..0] == [];
  }

  // ---- slots and time ---------------------------------------------------------------------------

  /** The length of a bucket's interval on the clock. */
  function Interval(size: nat): nat { size * SECOND }

  lemma {:induction false} Quotient(x: nat, a: nat)
    requires a > 0
    ensures (x / a) * a <= x < (x / a + 1) * a
  {
    assert x == (x / a) * a + x % a;
  }

  lemma {:induction false} DivDiv(x: nat, a: nat, b: nat)
    requires a > 0 && b > 0
    ensures x / a / b * (b * a) <= x < (x / a / b + 1) * (b * a)
  {
    var q := x / a;
    var k := q / b;
    Quotient(x, a);
    Quotient(q, b);
    Nested(x, q, k, a, b);
  }

  lemma {:induction false} Nested(x: nat, q: nat, k: nat, a: nat, b: nat)
    requires q * a <= x < (q + 1) * a && k * b <= q < (k + 1) * b
    ensures k * (b * a) <= x < (k + 1) * (b * a)
  {
    MulMono(k * b, q, a);
    MulMono(q + 1, (k + 1) * b, a);
    MulAssoc(k, b, a);
    MulAssoc(k + 1, b, a);
  }

  lemma {:induction false} MulMono(x: nat, y: nat, a: nat)
    requires x <= y
    ensures x * a <= y * a
  {
  }

  lemma {:induction false} MulAssoc(x: nat, b: nat, a: nat)
    ensures (x * b) * a == x * (b * a)
  {
  }

  /** Between two states, time and slots keep in step: at least one interval a slot, at most two. */
  ghost predicate Paced(updated0: nat, slots0: nat, updated: nat, slots: nat, iv: nat) {
    && updated0 <= updated && slots0 <= slots
    && (slots - slots0) * iv <= updated - updated0 <= 2 * (slots - slots0) * iv
  }

  lemma {:induction false} PacedStep(u0: nat, s0: nat, u: nat, s: nat, now: nat, size: nat)
    requires size > 0 && Paced(u0, s0, u, s, Interval(size)) && u <= now
    ensures var k := Slots(u, now, size);
            var u' := if k > 0 then now else u;
            Paced(u0, s0, u', s + k, Interval(size)) && now < u' + Interval(size)
  {
    var k, iv := Slots(u, now, size), Interval(size);
    DivDiv(now - u, SECOND, size);
    if k > 0 {
      PacedAdd(s - s0, k, iv, u - u0, now - u);
    }
  }

  lemma {:induction false} PacedAdd(a: nat, k: nat, iv: nat, x: nat, y: nat)
    requires k > 0 && a * iv <= x <= 2 * a * iv && k * iv <= y < (k + 1) * iv
    ensures (a + k) * iv <= x + y <= 2 * (a + k) * iv
  {
    assert (a + k) * iv == a * iv + k * iv;
    assert 2 * (a + k) * iv == 2 * a * iv + 2 * k * iv;
    assert (k + 1) * iv <= 2 * k * iv by { MulMono(k + 1, 2 * k, iv); }
  }

  /** The state after the first `i` calls. */
  function After(n: nat, size: nat, start: nat, calls: seq<Call>, i: nat): State
    requires n > 0 && size > 0 && i <= |calls|
  {
    Run(n, size, start, calls[..i])
  }

  /** From any call to any later one, slots and time keep in step. */
  lemma {:induction false} RunPaced(n: nat, size: nat, start: nat, calls: seq<Call>, i: nat, j: nat)
    requires n > 0 && size > 0 && InOrder(start, calls) && i <= j <= |calls|
    ensures var a, b := After(n, size, start, calls, i), After(n, size, start, calls, j);
            && Paced(a.updated, a.slots, b.updated, b.slots, Interval(size))
            && b.updated <= (if j == 0 then start else calls[j - 1].time)
            && (if j == 0 then start else calls[j - 1].time) < b.updated + Interval(size)
    decreases j
  {
    if j > 0 {
      assert calls[..j][..j - 1] == calls[..j - 1];
      RunPaced(n, size, start, calls, 0, j - 1);
      var b := After(n, size, start, calls, j - 1);
      assert b.updated <= calls[j - 1].time by { if j > 1 { assert calls[j - 2].time <= calls[j - 1].time; } }
      PacedStep(b.updated, b.slots, b.updated, b.slots, calls[j - 1].time, size);
      if i < j {
        RunPaced(n, size, start, calls, i, j - 1);
        var a := After(n, size, start, calls, i);
        PacedStep(a.updated, a.slots, b.updated, b.slots, calls[j - 1].time, size);
      }
    }
  }

  lemma {:induction false} LogSlot(n: nat, size: nat, start: nat, calls: seq<Call>, i: nat)
    requires n > 0 && size > 0 && i < |calls|
    ensures Run(n, size, start, calls).log[i].slot == After(n, size, start, calls, i + 1).slots
  {
    var m := |calls| - 1;
    if i == m {
      assert calls[..i + 1] == calls;
    } else {
      LogSlot(n, size, start, calls[..m], i);
      assert calls[..m][..i + 1] == calls[..i + 1];
    }
  }

  /** The increment of call `i` is, after all calls, in one of the `m` newest buckets. */
  ghost predicate Counted(n: nat, size: nat, start: nat, calls: seq<Call>, i: nat, m: nat)
    requires n > 0 && size > 0 && i < |calls|
  {
    var st := Run(n, size, start, calls);
    st.log[i].slot + m > st.slots
  }

  /**
   * Whatever calls are made in between, the `m` newest buckets count an increment for at least
   * m - 1 intervals, and no longer count it after 2m - 1 intervals.
   */
  lemma {:induction false} CountedBounds(n: nat, size: nat, start: nat, calls: seq<Call>, i: nat, m: nat)
    requires n > 0 && size > 0 && InOrder(start, calls) && i < |calls| && m > 0
    ensures var now, iv := calls[|calls| - 1].time, Interval(size);
            && (calls[i].time >= now - (m - 1) * iv ==> Counted(n, size, start, calls, i, m))
            && (Counted(n, size, start, calls, i, m) ==> calls[i].time > now - (2 * m - 1) * iv)
  {
    var iv, c := Interval(size), |calls|;
    var a, b := After(n, size, start, calls, i + 1), After(n, size, start, calls, c);
    RunPaced(n, size, start, calls, i + 1, c);
    RunPaced(n, size, start, calls, i + 1, i + 1);
    LogSlot(n, size, start, calls, i);
    assert calls[..c] == calls;
    AgeBounds(m, iv, calls[c - 1].time, calls[i].time, b.updated, a.updated, b.slots - a.slots);
  }

  lemma {:induction false} AgeBounds(m: nat, iv: nat, now: nat, made: nat, u: nat, u0: nat, k: nat)
    requires m > 0 && u0 <= u <= now && u0 <= made <= now && now < u + iv && made < u0 + iv
    requires k * iv <= u - u0 <= 2 * k * iv
    ensures made >= now - (m - 1) * iv ==> k < m
    ensures k < m ==> made > now - (2 * m - 1) * iv
  {
    if k >= m {
      assert (m - 1) * iv + iv == m * iv;
      MulMono(m, k, iv);
    } else {
      assert (2 * m - 1) * iv == 2 * (m - 1) * iv + iv;
      MulMono(2 * k, 2 * (m - 1), iv);
    }
  }

  /** The total of the increments made at time `t` or later. */
  function Since(calls: seq<Call>, t: int): nat {
    if calls == [] then 0
    else Since(calls[..|calls| - 1], t) + if calls[|calls| - 1].time >= t then calls[|calls| - 1].add else 0
  }

  lemma {:induction false} WithinBetween(log: seq<Made>, calls: seq<Call>, slots: nat, m: nat, early: int, late: int)
    requires |log| == |calls|
    requires forall i | 0 <= i < |log| :: log[i].add == calls[i].add
    requires forall i | 0 <= i < |log| :: calls[i].time >= late ==> log[i].slot + m > slots
    requires forall i | 0 <= i < |log| :: log[i].slot + m > slots ==> calls[i].time > early
    ensures Since(calls, late) <= Within(log, slots, m) <= Since(calls, early + 1)
  {
    if log != [] {
      var last := |log| - 1;
      WithinBetween(log[..last], calls[..last], slots, m, early, late);
    }
  }

  lemma {:induction false} WithinBounds(n: nat, size: nat, start: nat, calls: seq<Call>, m: nat, early: int, late: int)
    requires n > 0 && size > 0 && InOrder(start, calls) && calls != [] && m > 0
    requires var now, iv := calls[|calls| - 1].time, Interval(size);
             late == now - (m - 1) * iv && early == now - (2 * m - 1) * iv
    ensures var st := Run(n, size, start, calls);
            Since(calls, late) <= Within(st.log, st.slots, m) <= Since(calls, early + 1)
  {
    var st := Run(n, size, start, calls);
    RunLog(n, size, start, calls);
    forall i | 0 <= i < |calls|
      ensures calls[i].time >= late ==> st.log[i].slot + m > st.slots
      ensures st.log[i].slot + m > st.slots ==> calls[i].time > early
    {
      CountedBounds(n, size, start, calls, i, m);
    }
    WithinBetween(st.log, calls, st.slots, m, early, late);
  }

  /**
   * The total of the `m` newest buckets lies between the increments of the last m - 1 intervals and
   * those of less than the last 2m - 1 intervals.
   */
  lemma {:induction false} SumBounds(n: nat, size: nat, start: nat, calls: seq<Call>, m: nat)
    requires size > 0 && InOrder(start, calls) && Added(calls) <= U64_MAX && calls != [] && 0 < m <= n
    ensures var now, total := calls[|calls| - 1].time, Sum(Run(n, size, start, calls).window[..m]);
            && Since(calls, now - (m - 1) * Interval(size)) <= total
            && total <= Since(calls, now - (2 * m - 1) * Interval(size) + 1)
  {
    var now, iv := calls[|calls| - 1].time, Interval(size);
    RunAccounted(n, size, start, calls);
    assert AccountedFor(Run(n, size, start, calls), m);
    WithinBounds(n, size, start, calls, m, now - (2 * m - 1) * iv, now - (m - 1) * iv);
  }

  // ---- the class takes the same steps -----------------------------------------------------------

  /** Makes the calls on a new series and reads the newest buckets that a span takes in. */
  method Replay(n: nat, size: nat, start: nat, calls: seq<Call>, seconds: nat) returns (total: nat)
    requires 0 < n < 256 && size > 0 && InOrder(start, calls) && Added(calls) <= U64_MAX && calls != []
    ensures total == Sum(Run(n, size, start, calls).window[..Span(seconds, size, n)])
  {
    var series := new CounterSeries(n, size, 0, start);
    assert series.Window() == Zeros(n);
    for i := 0 to |calls|
      invariant series.Valid() && fresh(series) && fresh(series.buckets)
      invariant series.size == size && series.buckets.Length == n
      invariant var st := After(n, size, start, calls, i); series.Window() == st.window && series.updated == st.updated
    {
      series.Increment(calls[i].time, calls[i].time, calls[i].add);
      assert calls[..i + 1][..i] == calls[..i];
    }
    assert calls[..|calls|] == calls;
    var now := calls[|calls| - 1].time;
    RunPaced(n, size, start, calls, |calls|, |calls|);
    StillNow(series.updated, now, size);
    ghost var w := series.Window();
    assert Shift(w, 0) == w;
    SumFits(n, size, start, calls, Span(seconds, size, n));
    total := series.TotalOver(now, now, seconds);
  }

  /** What fits in a bucket fits in a total. */
  lemma {:induction false} SumFits(n: nat, size: nat, start: nat, calls: seq<Call>, m: nat)
    requires n > 0 && size > 0 && Added(calls) <= U64_MAX && m <= n
    ensures Sum(Run(n, size, start, calls).window[..m]) <= U64_MAX
  {
    var st := Run(n, size, start, calls);
    RunAccounted(n, size, start, calls);
    assert AccountedFor(st, m);
    RunLog(n, size, start, calls);
    WithinAtMost(st.log, st.slots, m, calls);
  }

  lemma {:induction false} StillNow(updated: nat, now: nat, size: nat)
    requires size > 0 && updated <= now < updated + Interval(size)
    ensures Slots(updated, now, size) == 0
  {
    DivDiv(now - updated, SECOND, size);
    if Slots(updated, now, size) > 0 { MulMono(1, Slots(updated, now, size), Interval(size)); }
  }
}
