/**
  The request and error counters behind the health monitor: a ring of buckets, each tagged with the lap
  in which it was last written. Instants are nanoseconds since the counter's start, in exact arithmetic.
 */
module RollingCounter {

  const U32 := 0x1_0000_0000

  datatype RawShape = RawShape(window: nat, buckets: nat)
  type Shape = s: RawShape | s.window >= 1 && s.buckets >= 1 witness RawShape(60_000_000_000, 10)

  function Lap(sh: Shape, t: nat): nat
  {
    t / sh.window
  }

  function Index(sh: Shape, t: nat): (i: nat)
    ensures i < sh.buckets
  {
    t * sh.buckets / sh.window % sh.buckets
  }

  /** Lap `n` lasts exactly one window, and starts after `n` of them. */
  lemma LapExactly(sh: Shape, t: nat, n: nat)
    ensures Lap(sh, t) == n <==> n * sh.window <= t < (n + 1) * sh.window
  {
    QuotientExactly(t, sh.window, n);
  }

  /** Bucket `b` covers exactly its share of every lap. */
  lemma IndexExactly(sh: Shape, t: nat, b: nat)
    requires b < sh.buckets
    ensures Index(sh, t) == b <==> b * sh.window <= (t % sh.window) * sh.buckets < (b + 1) * sh.window
  {
    IndexInLap(t, sh.window, sh.buckets);
    QuotientExactly((t % sh.window) * sh.buckets, sh.window, b);
  }

  /** Whole laps do not matter to the index. */
  lemma IndexInLap(t: nat, w: nat, n: nat)
    requires w >= 1 && n >= 1
    ensures t * n / w % n == (t % w) * n / w
  {
    var q, r := t / w, t % w;
    var p, y := q * n, r * n;
    Expand(q, w, r, n);
    assert t * n == p * w + y;
    ShiftQuotient(p, w, y);
    QuotientBelow(r, w, n);
    Remainder(q, n, y / w);
  }

  lemma Expand(q: nat, w: nat, r: nat, n: nat)
    ensures (q * w + r) * n == q * n * w + r * n
  {
  }

  lemma ShiftQuotient(p: nat, w: nat, y: nat)
    requires w >= 1
    ensures (p * w + y) / w == p + y / w
  {
    var d := y / w;
    assert d * w <= y < d * w + w;
    assert (p + d) * w == p * w + d * w && (p + d + 1) * w == p * w + d * w + w;
    QuotientExactly(p * w + y, w, p + d);
  }

  lemma QuotientBelow(r: nat, w: nat, n: nat)
    requires r < w && n >= 1
    ensures r * n / w < n
  {
    var d := r * n / w;
    assert d * w <= r * n;
    assert (w - r) * n >= 1;
    assert d >= n ==> (d - n) * w >= 0;
  }

  lemma Remainder(q: nat, n: nat, d: nat)
    requires d < n
    ensures (q * n + d) % n == d
  {
    QuotientExactly(q * n + d, n, q);
  }

  lemma QuotientExactly(t: nat, w: nat, n: nat)
    requires w >= 1
    ensures t / w == n <==> n * w <= t < (n + 1) * w
  {
    var q := t / w;
    assert q * w <= t < q * w + w;
    if q < n {
      assert (n - q - 1) * w >= 0;
    } else if n < q {
      assert (q - n - 1) * w >= 0;
    }
  }

  // ---------- Plain event counts ----------

  /** Events that fall into bucket `b` during `lap`. */
  function CountIn(sh: Shape, events: seq<nat>, b: nat, lap: nat): nat
  {
    if events == [] then 0
    else
      var rest, t := CountIn(sh, events[..|events| - 1], b, lap), events[|events| - 1];
      if Index(sh, t) == b && Lap(sh, t) == lap then rest + 1 else rest
  }

  function CountLap(sh: Shape, events: seq<nat>, lap: nat): nat
  {
    if events == [] then 0
    else
      var rest := CountLap(sh, events[..|events| - 1], lap);
      if Lap(sh, events[|events| - 1]) == lap then rest + 1 else rest
  }

  /** Events of the window that ends at `now`. */
  function CountRecent(sh: Shape, events: seq<nat>, now: nat): nat
  {
    if events == [] then 0
    else
      var rest, t := CountRecent(sh, events[..|events| - 1], now), events[|events| - 1];
      if t <= now < t + sh.window then rest + 1 else rest
  }

  /** The lap of the latest event in bucket `b`; an untouched bucket belongs to lap 0. */
  function LatestLap(sh: Shape, events: seq<nat>, b: nat): nat
  {
    if events == [] then 0
    else if Index(sh, events[|events| - 1]) == b then Lap(sh, events[|events| - 1])
    else LatestLap(sh, events[..|events| - 1], b)
  }

  ghost predicate Monotone(events: seq<nat>)
  {
    forall i, j :: 0 <= i < j < |events| ==> events[i] <= events[j]
  }

  ghost predicate NotAfter(events: seq<nat>, now: nat)
  {
    forall i :: 0 <= i < |events| ==> events[i] <= now
  }

  lemma LapMonotone(sh: Shape, t: nat, u: nat)
    requires t <= u
    ensures Lap(sh, t) <= Lap(sh, u)
  {
    var w, gap := sh.window, t / sh.window - u / sh.window;
    assert t / w * w <= t && u < (u / w + 1) * w;
    assert gap * w == t / w * w - u / w * w;
    assert gap >= 1 ==> gap * w >= w;
  }

  /** A bucket that was last written in an earlier lap holds nothing of the current one. */
  lemma {:induction false} NothingInLap(sh: Shape, events: seq<nat>, b: nat, now: nat)
    requires Monotone(events) && NotAfter(events, now)
    ensures LatestLap(sh, events, b) <= Lap(sh, now)
    ensures LatestLap(sh, events, b) < Lap(sh, now) ==> CountIn(sh, events, b, Lap(sh, now)) == 0
  {
    if events != [] {
      var front, t := events[..|events| - 1], events[|events| - 1];
      LapMonotone(sh, t, now);
      if Index(sh, t) != b {
        NothingInLap(sh, front, b, now);
      } else if Lap(sh, t) < Lap(sh, now) {
        NothingBefore(sh, front, b, t, now);
      }
    }
  }

  lemma {:induction false} NothingBefore(sh: Shape, events: seq<nat>, b: nat, t: nat, now: nat)
    requires NotAfter(events, t) && Lap(sh, t) < Lap(sh, now)
    ensures CountIn(sh, events, b, Lap(sh, now)) == 0
  {
    if events != [] {
      NothingBefore(sh, events[..|events| - 1], b, t, now);
      LapMonotone(sh, events[|events| - 1], t);
    }
  }

  /** What one more event does to the lap and the count of each bucket. */
  lemma BucketSnoc(sh: Shape, events: seq<nat>, now: nat, b: nat)
    requires Monotone(events) && NotAfter(events, now)
    ensures var after := events + [now];
      if Index(sh, now) == b then
        LatestLap(sh, after, b) == Lap(sh, now) &&
        CountIn(sh, after, b, Lap(sh, now)) ==
          1 + if LatestLap(sh, events, b) == Lap(sh, now) then CountIn(sh, events, b, Lap(sh, now)) else 0
      else
        LatestLap(sh, after, b) == LatestLap(sh, events, b) &&
        CountIn(sh, after, b, LatestLap(sh, after, b)) == CountIn(sh, events, b, LatestLap(sh, events, b))
  {
    assert (events + [now])[..|events|] == events;
    NothingInLap(sh, events, b, now);
  }

  // ---------- Buckets add up to laps ----------

  function SumBuckets(sh: Shape, events: seq<nat>, lap: nat, n: nat): nat
  {
    if n == 0 then 0 else SumBuckets(sh, events, lap, n - 1) + CountIn(sh, events, n - 1, lap)
  }

  lemma {:induction false} SumSnoc(sh: Shape, events: seq<nat>, lap: nat, n: nat)
    requires events != []
    ensures var front, t := events[..|events| - 1], events[|events| - 1];
      SumBuckets(sh, events, lap, n) ==
        SumBuckets(sh, front, lap, n) + if Lap(sh, t) == lap && Index(sh, t) < n then 1 else 0
  {
    if n > 0 {
      SumSnoc(sh, events, lap, n - 1);
    }
  }

  lemma {:induction false} SumEmpty(sh: Shape, lap: nat, n: nat)
    ensures SumBuckets(sh, [], lap, n) == 0
  {
    if n > 0 {
      SumEmpty(sh, lap, n - 1);
    }
  }

  lemma {:induction false} BucketsPartitionLap(sh: Shape, events: seq<nat>, lap: nat)
    ensures SumBuckets(sh, events, lap, sh.buckets) == CountLap(sh, events, lap)
  {
    if events == [] {
      SumEmpty(sh, lap, sh.buckets);
    } else {
      SumSnoc(sh, events, lap, sh.buckets);
      BucketsPartitionLap(sh, events[..|events| - 1], lap);
    }
  }

  // ---------- The counter ----------

  class Counter {
    const shape: Shape
    const counters: array<nat>
    const laps: array<nat>
    ghost var events: seq<nat>  // the instants of all increments so far

    ghost predicate Valid()
      reads this, counters, laps
    {
      && counters.Length == shape.buckets && laps.Length == shape.buckets && counters != laps
      && Monotone(events)
      && forall b :: 0 <= b < shape.buckets ==> BucketValid(b)
    }

    ghost predicate BucketValid(b: nat)
      requires b < counters.Length && b < laps.Length
      reads this, counters, laps
    {
      && laps[b] == LatestLap(shape, events, b)
      && counters[b] == CountIn(shape, events, b, laps[b]) % U32
    }

    constructor (shape: Shape)
      ensures Valid() && fresh(counters) && fresh(laps) && this.shape == shape && events == []
    {
      this.shape := shape;
      counters := new nat[shape.buckets](_ => 0);
      laps := new nat[shape.buckets](_ => 0);
      events := [];
    }

    /** Counts one event at `now`; increments run one after the other on a clock that never goes back. */
    method Incr(now: nat)
      requires Valid() && NotAfter(events, now)
      modifies this`events, counters, laps
      ensures Valid() && events == old(events) + [now]
    {
      var idx, lap := Index(shape, now), Lap(shape, now);
      var lastLap := laps[idx];
      if lastLap != lap {
        laps[idx] := lap;
        counters[idx] := 0;
      }
      counters[idx] := (counters[idx] + 1) % U32;
      events := events + [now];
      forall b | 0 <= b < shape.buckets ensures BucketValid(b) {
        assert old(BucketValid(b));
        BucketSnoc(shape, old(events), now, b);
        AddMod(CountIn(shape, old(events), b, lap), 1);
      }
    }

    /** The number of increments made in the lap of `now`, in 32-bit arithmetic. */
    method Total(now: nat) returns (total: nat)
      requires Valid() && NotAfter(events, now)
      ensures total == CountLap(shape, events, Lap(shape, now)) % 0x1_0000_0000
    {
      var nowLap := Lap(shape, now);
      total := 0;
      for b := 0 to shape.buckets
        invariant total == SumBuckets(shape, events, nowLap, b) % U32
      {
        assert BucketValid(b);
        NothingInLap(shape, events, b, now);
        if laps[b] == nowLap {
          AddMod(SumBuckets(shape, events, nowLap, b), CountIn(shape, events, b, nowLap));
          total := (total + counters[b]) % U32;
        }
      }
      BucketsPartitionLap(shape, events, nowLap);
    }
  }

  lemma AddMod(a: nat, b: nat)
    ensures (a % U32 + b % U32) % U32 == (a + b) % U32
  {
  }

  // ---------- A tumbling window, not a rolling one ----------

  /** Everything the total counts happened less than one window ago. */
  lemma LapWithinWindow(sh: Shape, t: nat, now: nat)
    requires t <= now && Lap(sh, t) == Lap(sh, now)
    ensures now < t + sh.window
  {
  }

  /** Some event of the last window is in an earlier lap. */
  ghost predicate Straddles(sh: Shape, events: seq<nat>, now: nat)
  {
    exists i :: 0 <= i < |events| && now < events[i] + sh.window && Lap(sh, events[i]) != Lap(sh, now)
  }

  /** The total is the count of the last window exactly when no recent event lies before the current lap. */
  lemma {:induction false} RollingExactly(sh: Shape, events: seq<nat>, now: nat)
    requires NotAfter(events, now)
    ensures CountLap(sh, events, Lap(sh, now)) <= CountRecent(sh, events, now)
    ensures CountLap(sh, events, Lap(sh, now)) == CountRecent(sh, events, now) <==> !Straddles(sh, events, now)
  {
    if events != [] {
      var front, t := events[..|events| - 1], events[|events| - 1];
      RollingExactly(sh, front, now);
      if Lap(sh, t) == Lap(sh, now) {
        LapWithinWindow(sh, t, now);
      }
      if Straddles(sh, front, now) {
        var i :| 0 <= i < |front| && now < front[i] + sh.window && Lap(sh, front[i]) != Lap(sh, now);
        assert events[i] == front[i];
      }
      if Straddles(sh, events, now) && !(now < t + sh.window && Lap(sh, t) != Lap(sh, now)) {
        var i :| 0 <= i < |events| && now < events[i] + sh.window && Lap(sh, events[i]) != Lap(sh, now);
        assert i < |front| && front[i] == events[i];
      }
    }
  }

  /** One nanosecond can be enough to lose an event: the count restarts at each lap. */
  lemma LapBoundaryForgets(sh: Shape)
    requires sh.window >= 2
    ensures CountLap(sh, [sh.window - 1], Lap(sh, sh.window)) == 0
    ensures CountRecent(sh, [sh.window - 1], sh.window) == 1
  {
  }
}
