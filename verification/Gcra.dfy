/**
  The Redis-backed rate limiter: the virtual-scheduling form of the Generic Cell Rate Algorithm
  (Annex A of ITU-T Recommendation I.371) over one stored theoretical arrival time (TAT) per key.
  Instants are milliseconds.
 */
module Gcra {
  import opened Wrappers

  /** Milliseconds per token, tokens per burst, and how long the store keeps a key. */
  datatype RawLimits = RawLimits(interval: nat, capacity: nat, ttl: nat)
  type Limits = l: RawLimits | l.capacity >= 1 witness RawLimits(2, 500, 2000)

  /** The limits of a configured refill period and (non-zero) capacity, with the roundings of the source. */
  function FromConfig(refillNs: nat, capacity: nat): (l: Limits)
    requires capacity >= 1
    ensures Outlasts(l) && l.capacity == capacity
    ensures (l.interval * 1_000_000) * capacity <= refillNs < ((l.interval + 1) * 1_000_000) * capacity
    ensures refillNs < l.ttl * 1_000_000 <= refillNs + 1_000_000_000
  {
    var l := RawLimits(refillNs / capacity / 1_000_000, capacity, (refillNs / 1_000_000_000 + 1) * 1000);
    var perToken := refillNs / capacity;
    assert perToken * capacity <= refillNs < (perToken + 1) * capacity;
    Scaled(l.interval * 1_000_000, perToken, capacity);
    Scaled(perToken + 1, (l.interval + 1) * 1_000_000, capacity);
    assert (l.interval * 1_000_000) * capacity == Burst(l) * 1_000_000;
    l
  }

  lemma Scaled(a: nat, b: nat, c: nat)
    requires a <= b
    ensures a * c <= b * c
  {
    assert (b - a) * c >= 0;
  }

  function Burst(l: Limits): nat
  {
    l.interval * l.capacity
  }

  /** The store keeps a key for longer than any admission can push its TAT ahead. */
  predicate Outlasts(l: Limits)
  {
    Burst(l) < l.ttl
  }

  /** What an admitted request's header arithmetic yields: the advertised value, or an abort of the request. */
  datatype Header = Remaining(n: nat) | Aborts

  datatype Decision = Admit(newTat: int, header: Header) | Reject(retryAfter: nat)

  /** Integer division that truncates toward zero. */
  function TruncDiv(a: int, b: int): int
    requires b > 0
  {
    if a >= 0 then a / b else -(-a / b)
  }

  function HeaderFor(l: Limits, tat: int, now: int): Header
  {
    var interval := l.interval;
    if interval == 0 then Aborts
    else
      var used := TruncDiv(tat - now + (interval - 1), interval) + 1;
      if used < 0 then Aborts else Remaining(if used <= l.capacity then l.capacity - used else 0)
  }

  /** The TAT that an admission at `now` stores. */
  function NewTat(l: Limits, stored: Option<int>, now: int): int
  {
    var tat := if stored.Some? then stored.value else now;
    if tat < now then now + l.interval else tat + l.interval
  }

  predicate Admits(l: Limits, stored: Option<int>, now: int)
  {
    NewTat(l, stored, now) - Burst(l) <= now
  }

  function Decide(l: Limits, stored: Option<int>, now: int): Decision
  {
    var tat := if stored.Some? then stored.value else now;
    if Admits(l, stored, now) then Admit(NewTat(l, stored, now), HeaderFor(l, tat, now))
    else Reject((NewTat(l, stored, now) - Burst(l) - now) / 1000 + 1)
  }

  // ---------- One cell that never expires ----------

  function Next(l: Limits, stored: Option<int>, now: int): Option<int>
  {
    if Admits(l, stored, now) then Some(NewTat(l, stored, now)) else stored
  }

  function After(l: Limits, stored: Option<int>, times: seq<int>): Option<int>
  {
    if times == [] then stored else Next(l, After(l, stored, times[..|times| - 1]), times[|times| - 1])
  }

  function Verdicts(l: Limits, stored: Option<int>, times: seq<int>): (v: seq<bool>)
    ensures |v| == |times|
  {
    if times == [] then []
    else
      var front := times[..|times| - 1];
      Verdicts(l, stored, front) + [Admits(l, After(l, stored, front), times[|times| - 1])]
  }

  function CountTrue(v: seq<bool>): nat
  {
    if v == [] then 0 else CountTrue(v[..|v| - 1]) + if v[|v| - 1] then 1 else 0
  }

  ghost predicate Sorted(times: seq<int>)
  {
    forall i, j :: 0 <= i < j < |times| ==> times[i] <= times[j]
  }

  // ---------- Window bound ----------

  /** A full burst, plus one token for each whole interval of the window. */
  function Allowance(l: Limits, from: int, to: int): int
    requires l.interval >= 1
  {
    l.capacity + (to - from) / l.interval
  }

  lemma VerdictsSnoc(l: Limits, stored: Option<int>, times: seq<int>)
    requires times != []
    ensures var front := times[..|times| - 1];
      CountTrue(Verdicts(l, stored, times)) ==
        CountTrue(Verdicts(l, stored, front)) + if Admits(l, After(l, stored, front), times[|front|]) then 1 else 0
  {
  }

  /** The requests of a run that were admitted at an instant of the window. */
  function AdmittedWithin(v: seq<bool>, times: seq<int>, from: int, to: int): nat
    requires |v| == |times|
  {
    if v == [] then 0
    else
      var n := |v| - 1;
      AdmittedWithin(v[..n], times[..n], from, to) + if v[n] && from <= times[n] <= to then 1 else 0
  }

  lemma WithinSnoc(l: Limits, stored: Option<int>, times: seq<int>, from: int, to: int)
    requires times != []
    ensures var front, now := times[..|times| - 1], times[|times| - 1];
      AdmittedWithin(Verdicts(l, stored, times), times, from, to) ==
        AdmittedWithin(Verdicts(l, stored, front), front, from, to) +
        if Admits(l, After(l, stored, front), now) && from <= now <= to then 1 else 0
  {
  }

  /** `stored` is at least `n` intervals after `from`, if there is anything to say. */
  ghost predicate Ahead(l: Limits, stored: Option<int>, from: int, n: nat)
  {
    n > 0 ==> stored.Some? && from + n * l.interval <= stored.value
  }

  lemma AheadStep(l: Limits, stored: Option<int>, from: int, n: nat, now: int)
    requires Ahead(l, stored, from, n)
    ensures Ahead(l, Some(NewTat(l, stored, now)), from, n)
    ensures from <= now ==> Ahead(l, Some(NewTat(l, stored, now)), from, n + 1)
  {
  }

  /** Each admission of the window pushes the TAT up by one interval from the window's start ... */
  lemma {:induction false} Climbs(l: Limits, stored: Option<int>, times: seq<int>, from: int, to: int)
    ensures Ahead(l, After(l, stored, times), from, AdmittedWithin(Verdicts(l, stored, times), times, from, to))
  {
    if times != [] {
      var front, now := times[..|times| - 1], times[|times| - 1];
      Climbs(l, stored, front, from, to);
      WithinSnoc(l, stored, times, from, to);
      AheadStep(l, After(l, stored, front), from, AdmittedWithin(Verdicts(l, stored, front), front, from, to), now);
    }
  }

  /** ... and no admission pushes it further ahead than the burst. */
  lemma {:induction false} Capped(l: Limits, stored: Option<int>, times: seq<int>, from: int, to: int)
    requires AdmittedWithin(Verdicts(l, stored, times), times, from, to) > 0
    requires forall i :: 0 <= i < |times| ==> times[i] <= to
    ensures After(l, stored, times).Some? && After(l, stored, times).value <= to + Burst(l)
  {
    var front := times[..|times| - 1];
    WithinSnoc(l, stored, times, from, to);
    if !Admits(l, After(l, stored, front), times[|front|]) {
      Capped(l, stored, front, from, to);
    }
  }

  /** From any stored state, the requests admitted in any window number at most its allowance. */
  lemma {:induction false} WindowBound(l: Limits, stored: Option<int>, times: seq<int>, from: int, to: int)
    requires Sorted(times) && from <= to && l.interval >= 1
    ensures AdmittedWithin(Verdicts(l, stored, times), times, from, to) <= Allowance(l, from, to)
  {
    if times != [] && times[|times| - 1] > to {
      WithinSnoc(l, stored, times, from, to);
      WindowBound(l, stored, times[..|times| - 1], from, to);
    } else {
      var n := AdmittedWithin(Verdicts(l, stored, times), times, from, to);
      if n > 0 {
        Climbs(l, stored, times, from, to);
        Capped(l, stored, times, from, to);
      }
      TokensFit(n, l.interval, l.capacity, to - from);
    }
  }

  lemma TokensFit(n: nat, interval: int, capacity: nat, w: int)
    requires interval >= 1 && w >= 0 && (n == 0 || n * interval <= w + interval * capacity)
    ensures n <= capacity + w / interval
  {
    if n > capacity {
      assert (n - capacity) * interval == n * interval - interval * capacity;
      QuotientAtLeast(w, interval, n - capacity);
    } else {
      QuotientAtLeast(w, interval, 0);
    }
  }

  lemma MulBound(a: int, d: int)
    requires d >= 1
    ensures a >= 1 ==> a * d >= d
    ensures a <= -1 ==> a * d <= -d
  {
  }

  lemma QuotientAtLeast(w: int, d: int, q: nat)
    requires d >= 1 && q * d <= w
    ensures q <= w / d
  {
    MulBound(w / d - q, d);
    assert w / d * d + w % d == w && (w / d - q) * d == w / d * d - q * d;
  }

  lemma QuotientIs(w: int, d: int, q: int, r: int)
    requires d >= 1 && w == q * d + r && 0 <= r < d
    ensures w / d == q
  {
    MulBound(w / d - q, d);
    assert w / d * d + w % d == w && (w / d - q) * d == w / d * d - q * d;
  }

  // ---------- Same-instant bursts and the advertised remaining ----------

  function Later(stored: Option<int>, now: int): int
  {
    if stored.Some? && stored.value > now then stored.value else now
  }

  /** How many requests arriving at `now` the cell still admits. */
  function Spare(l: Limits, stored: Option<int>, now: int): nat
    requires l.interval >= 1
  {
    var room := now + Burst(l) - Later(stored, now);
    if room < 0 then 0 else room / l.interval
  }

  lemma SpareStep(l: Limits, stored: Option<int>, now: int)
    requires l.interval >= 1
    ensures Admits(l, stored, now) <==> Spare(l, stored, now) > 0
    ensures Admits(l, stored, now) ==> Spare(l, Next(l, stored, now), now) == Spare(l, stored, now) - 1
  {
    var room, interval := now + Burst(l) - Later(stored, now), l.interval;
    if room >= interval {
      QuotientAtLeast(room, interval, 1);
      assert room / interval * interval + room % interval == room;
      assert (room / interval - 1) * interval + room % interval == room - interval;
      QuotientIs(room - interval, interval, room / interval - 1, room % interval);
    } else if room >= 0 {
      QuotientIs(room, interval, 0, room);
    }
  }

  function Repeat(now: int, n: nat): seq<int>
  {
    seq(n, _ => now)
  }

  /** Of `n` simultaneous requests exactly `Spare` are admitted, or all of them. */
  lemma {:induction false} SameInstant(l: Limits, stored: Option<int>, now: int, n: nat)
    requires l.interval >= 1
    ensures var spare := Spare(l, stored, now);
      CountTrue(Verdicts(l, stored, Repeat(now, n))) == (if n <= spare then n else spare)
    ensures var spare := Spare(l, stored, now);
      Spare(l, After(l, stored, Repeat(now, n)), now) == if n <= spare then spare - n else 0
  {
    if n > 0 {
      var times, front := Repeat(now, n), Repeat(now, n - 1);
      assert times[..n - 1] == front;
      SameInstant(l, stored, now, n - 1);
      SpareStep(l, After(l, stored, front), now);
      VerdictsSnoc(l, stored, times);
    }
  }

  /** Once the TAT has passed, exactly `capacity` simultaneous requests get through. */
  lemma FullBurst(l: Limits, stored: Option<int>, now: int, n: nat)
    requires l.interval >= 1 && (stored.Some? ==> stored.value <= now) && n >= l.capacity
    ensures CountTrue(Verdicts(l, stored, Repeat(now, n))) == l.capacity
  {
    QuotientIs(Burst(l), l.interval, l.capacity, 0);
    SameInstant(l, stored, now, n);
  }

  /**
    The advertised remaining is exactly what the cell still admits at that instant if and only if the
    stored TAT lies at most 2I - 2 ms in the past; at 3I - 1 ms and beyond the request aborts.
   */
  lemma RemainingExact(l: Limits, stored: Option<int>, now: int)
    requires l.interval >= 1 && Decide(l, stored, now).Admit?
    ensures var d := Decide(l, stored, now);
      && (d.header == Remaining(Spare(l, Some(d.newTat), now)) <==>
            stored.None? || now - stored.value <= 2 * l.interval - 2)
      && (d.header.Aborts? <==> stored.Some? && now - stored.value >= 3 * l.interval - 1)
      && (stored.Some? && 2 * l.interval - 2 < now - stored.value < 3 * l.interval - 1 ==>
            d.header == Remaining(l.capacity) && Spare(l, Some(d.newTat), now) == l.capacity - 1)
  {
    var tat := if stored.Some? then stored.value else now;
    if tat >= now {
      HeaderAhead(l, tat, now);
    } else {
      HeaderBehind(l, tat, now);
      SpareAfterLull(l, now);
    }
  }

  lemma HeaderAhead(l: Limits, tat: int, now: int)
    requires l.interval >= 1 && now <= tat && tat + l.interval - Burst(l) <= now
    ensures HeaderFor(l, tat, now) == Remaining(Spare(l, Some(tat + l.interval), now))
  {
    var x := tat - now + (l.interval - 1);
    var q, r := x / l.interval, x % l.interval;
    assert q * l.interval + r == x;
    var left := l.capacity - q - 1;
    var room := now + Burst(l) - (tat + l.interval);
    assert left * l.interval == Burst(l) - q * l.interval - l.interval;
    MulBound(left, l.interval);
    QuotientIs(room, l.interval, left, l.interval - 1 - r);
  }

  lemma SpareAfterLull(l: Limits, now: int)
    requires l.interval >= 1
    ensures Spare(l, Some(now + l.interval), now) == l.capacity - 1
  {
    assert (l.capacity - 1) * l.interval == Burst(l) - l.interval;
    MulBound(l.capacity - 1, l.interval);
    QuotientIs(Burst(l) - l.interval, l.interval, l.capacity - 1, 0);
  }

  lemma HeaderBehind(l: Limits, tat: int, now: int)
    requires l.interval >= 1 && tat < now
    ensures now - tat <= 2 * l.interval - 2 ==> HeaderFor(l, tat, now) == Remaining(l.capacity - 1)
    ensures 2 * l.interval - 2 < now - tat < 3 * l.interval - 1 ==> HeaderFor(l, tat, now) == Remaining(l.capacity)
    ensures now - tat >= 3 * l.interval - 1 ==> HeaderFor(l, tat, now).Aborts?
  {
    var x := tat - now + (l.interval - 1);
    if x >= 0 {
      QuotientIs(x, l.interval, 0, x);
    } else if -x < l.interval {
      QuotientIs(-x, l.interval, 0, -x);
    } else if -x < 2 * l.interval {
      QuotientIs(-x, l.interval, 1, -x - l.interval);
    } else {
      QuotientAtLeast(-x, l.interval, 2);
    }
  }

  /** With an interval below one millisecond every admitted request aborts. */
  lemma ZeroIntervalAborts(l: Limits, stored: Option<int>, now: int)
    requires l.interval == 0 && Decide(l, stored, now).Admit?
    ensures Decide(l, stored, now).header.Aborts?
  {
  }

  // ---------- Retry-After ----------

  lemma IntervalFits(l: Limits)
    ensures l.interval <= Burst(l)
  {
  }

  /** A cell admits from one instant on, and Retry-After names the first whole second past it. */
  lemma AdmitFrom(l: Limits, tat: int, now: int)
    ensures Decide(l, Some(tat), now).Admit? <==> tat + l.interval - Burst(l) <= now
    ensures Decide(l, Some(tat), now).Reject? ==>
      var wait := tat + l.interval - Burst(l) - now;
      (Decide(l, Some(tat), now).retryAfter - 1) * 1000 <= wait < Decide(l, Some(tat), now).retryAfter * 1000
  {
  }

  lemma {:induction false} NoAdmitNoChange(l: Limits, stored: Option<int>, times: seq<int>)
    requires CountTrue(Verdicts(l, stored, times)) == 0
    ensures After(l, stored, times) == stored
  {
    if times != [] {
      VerdictsSnoc(l, stored, times);
      NoAdmitNoChange(l, stored, times[..|times| - 1]);
    }
  }

  /** After a rejection and any number of further rejections, a request that waited is admitted. */
  lemma RetryAfterHonoured(l: Limits, stored: Option<int>, now: int, between: seq<int>, later: int)
    requires Decide(l, stored, now).Reject? && CountTrue(Verdicts(l, stored, between)) == 0
    requires now + Decide(l, stored, now).retryAfter * 1000 <= later
    ensures stored.Some? && Decide(l, After(l, stored, between), later).Admit?
    ensures Decide(l, None, later).Admit?  // also when the store has dropped the key meanwhile
  {
    NoAdmitNoChange(l, stored, between);
    IntervalFits(l);
    AdmitFrom(l, stored.value, now);
    AdmitFrom(l, stored.value, later);
  }

  // ---------- Leaky bucket ----------

  /** The continuous-state leaky bucket: it drains one unit per millisecond and gains an interval per admission. */
  datatype Bucket = Bucket(level: int, last: int)

  function Leaked(b: Bucket, now: int): int
  {
    if b.level - (now - b.last) > 0 then b.level - (now - b.last) else 0
  }

  predicate Conforms(l: Limits, b: Bucket, now: int)
  {
    Leaked(b, now) + l.interval <= Burst(l)
  }

  function Poured(l: Limits, b: Bucket, times: seq<int>): Bucket
  {
    if times == [] then b
    else
      var front, now := Poured(l, b, times[..|times| - 1]), times[|times| - 1];
      if Conforms(l, front, now) then Bucket(Leaked(front, now) + l.interval, now) else front
  }

  function BucketVerdicts(l: Limits, b: Bucket, times: seq<int>): seq<bool>
  {
    if times == [] then []
    else
      var front := times[..|times| - 1];
      BucketVerdicts(l, b, front) + [Conforms(l, Poured(l, b, front), times[|times| - 1])]
  }

  ghost predicate Mirrors(stored: Option<int>, b: Bucket)
  {
    b.level >= 0 && if stored.Some? then b.level + b.last == stored.value else b.level == 0
  }

  /** The stored TAT and the bucket decide alike on every sorted run. */
  lemma {:induction false} RefinesLeakyBucket(l: Limits, stored: Option<int>, b: Bucket, times: seq<int>)
    requires Sorted(times) && Mirrors(stored, b)
    requires forall i :: 0 <= i < |times| ==> b.last <= times[i]
    ensures Verdicts(l, stored, times) == BucketVerdicts(l, b, times)
    ensures Mirrors(After(l, stored, times), Poured(l, b, times))
    ensures times != [] ==> Poured(l, b, times).last <= times[|times| - 1]
  {
    if times != [] {
      var front := times[..|times| - 1];
      RefinesLeakyBucket(l, stored, b, front);
    }
  }
}
