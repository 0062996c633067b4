/**
  The health monitor: one check walks over a router's targets, compares each provider's error ratio with
  the threshold, and reports the providers whose status changed. Its state and its changes are those of
  the health monitor in `ProviderPool`, so everything proved there about interleavings applies to them.
 */
module HealthMonitor {
  import opened Wrappers
  import opened Changes
  import opened ProviderPool
  import RollingCounter

  datatype Counts = Counts(requests: nat, errors: nat)

  datatype Policy = Policy(minRequests: nat, threshold: real)

  /** The error ratio in floating point: no requests at all give infinity or, without errors, no number. */
  predicate RatioExceeds(c: Counts, threshold: real)
  {
    if c.requests == 0 then c.errors > 0 else c.errors as real / c.requests as real > threshold
  }

  predicate Failing(p: Policy, c: Counts)
  {
    p.minRequests <= c.requests && RatioExceeds(c, p.threshold)
  }

  lemma RatioIs(errors: nat, requests: nat, threshold: real)
    requires requests > 0
    ensures errors as real / requests as real > threshold <==> errors as real > threshold * requests as real
  {
    var e, n := errors as real, requests as real;
    assert e / n * n == e;
    if e / n > threshold {
      assert (e / n - threshold) * n > 0.0;
    } else {
      assert (threshold - e / n) * n >= 0.0;
    }
  }

  /** An endpoint fails exactly if it has enough requests and more errors than the threshold's share of them. */
  lemma FailingExactly(p: Policy, c: Counts)
    ensures Failing(p, c) <==>
      c.requests >= p.minRequests &&
      if c.requests == 0 then c.errors > 0 else c.errors as real > p.threshold * c.requests as real
  {
    if c.requests > 0 {
      RatioIs(c.errors, c.requests, p.threshold);
    }
  }

  /** More errors never make a failing endpoint healthy, and without errors none fails. */
  lemma ErrorsOnlyHurt(p: Policy, c: Counts, more: nat)
    requires p.threshold >= 0.0 && c.errors <= more
    ensures Failing(p, c) ==> Failing(p, c.(errors := more))
    ensures !Failing(p, c.(errors := 0))
  {
    FailingExactly(p, c);
    FailingExactly(p, c.(errors := more));
    FailingExactly(p, c.(errors := 0));
    assert p.threshold * c.requests as real >= 0.0;
  }

  predicate Known(metrics: map<string, Counts>, endpoints: seq<string>)
  {
    forall i :: 0 <= i < |endpoints| ==> endpoints[i] in metrics
  }

  predicate Healthy(p: Policy, metrics: map<string, Counts>, endpoints: seq<string>)
    requires Known(metrics, endpoints)
  {
    forall i :: 0 <= i < |endpoints| ==> !Failing(p, metrics[endpoints[i]])
  }

  /** One of the endpoints has enough requests, and more errors than the threshold's share of them. */
  ghost predicate SomeFails(p: Policy, metrics: map<string, Counts>, endpoints: seq<string>)
  {
    exists e :: e in endpoints && e in metrics && metrics[e].requests >= p.minRequests &&
      if metrics[e].requests == 0 then metrics[e].errors > 0
      else metrics[e].errors as real > p.threshold * metrics[e].requests as real
  }

  lemma HealthyExactly(p: Policy, metrics: map<string, Counts>, endpoints: seq<string>)
    requires Known(metrics, endpoints)
    ensures Healthy(p, metrics, endpoints) <==> !SomeFails(p, metrics, endpoints)
  {
    forall e | e in endpoints { FailingExactly(p, metrics[e]); }
    forall i | 0 <= i < |endpoints| ensures endpoints[i] in endpoints {}
  }

  /** A provider is healthy when none of its endpoints fails; an endpoint without metrics is an error. */
  method CheckHealth(p: Policy, metrics: map<string, Counts>, endpoints: seq<string>) returns (r: Result<bool, string>)
    ensures r.Ok? <==> Known(metrics, endpoints)
    ensures r.Ok? ==> (r.value <==> Healthy(p, metrics, endpoints))
    ensures r.Ok? ==> (r.value <==> !SomeFails(p, metrics, endpoints))
  {
    var allHealthy := true;
    for i := 0 to |endpoints|
      invariant Known(metrics, endpoints[..i])
      invariant allHealthy <==> forall j :: 0 <= j < i ==> !Failing(p, metrics[endpoints[j]])
    {
      if endpoints[i] !in metrics {
        return Err(endpoints[i]);
      }
      var counts := metrics[endpoints[i]];
      if counts.requests < p.minRequests {
        continue;
      }
      if RatioExceeds(counts, p.threshold) {
        allHealthy := false;
      }
    }
    assert endpoints[..|endpoints|] == endpoints;
    HealthyExactly(p, metrics, endpoints);
    r := Ok(allHealthy);
  }

  // ---------- One check as protocol steps ----------

  datatype View = View(health: HealthState, sent: seq<Sent>)

  /** Handling one target without interruption: the protocol steps of `ProviderPool`, one after the other. */
  function AfterTarget(v: View, k: Key, healthy: bool, now: nat): (w: View)
    requires v.health.pc.HealthIdle?
    ensures w.health.pc.HealthIdle? && |v.sent| <= |w.sent|
  {
    var found := StepHealth(v.health, HealthFinds(k, healthy));
    if found.pc.HealthRemoving? then
      View(StepHealth(StepHealth(found, HealthSends), HealthNotes), v.sent + [Sent(Health, Remove(k), now, None)])
    else if found.pc.HealthRestoring? then
      View(StepHealth(found, HealthSends), v.sent + [Sent(Health, Insert(k), now, None)])
    else v
  }

  /** What a check finds at one target, and when; the counters are read anew for every target. */
  datatype Look = Look(key: Key, healthy: bool, at: nat)

  function AfterLooks(v: View, looks: seq<Look>): (w: View)
    requires v.health.pc.HealthIdle?
    ensures w.health.pc.HealthIdle? && |v.sent| <= |w.sent|
  {
    if looks == [] then v
    else
      var l := looks[|looks| - 1];
      AfterTarget(AfterLooks(v, looks[..|looks| - 1]), l.key, l.healthy, l.at)
  }

  /** The status that the latest look at a key finds. */
  function LatestLook(looks: seq<Look>, k: Key): Option<bool>
  {
    if looks == [] then None
    else if looks[|looks| - 1].key == k then Some(looks[|looks| - 1].healthy)
    else LatestLook(looks[..|looks| - 1], k)
  }

  /** After a check the monitor holds a key exactly if its latest look found it failing, or it did and nobody looked. */
  lemma {:induction false} CheckSettles(v: View, looks: seq<Look>, k: Key)
    requires v.health.pc.HealthIdle?
    ensures k in AfterLooks(v, looks).health.unhealthy <==>
      if LatestLook(looks, k).Some? then !LatestLook(looks, k).value else k in v.health.unhealthy
  {
    if looks != [] {
      CheckSettles(v, looks[..|looks| - 1], k);
    }
  }

  lemma AfterOneMore(v: View, looks: seq<Look>, l: Look)
    requires v.health.pc.HealthIdle?
    ensures AfterLooks(v, looks + [l]) == AfterTarget(AfterLooks(v, looks), l.key, l.healthy, l.at)
  {
    assert (looks + [l])[..|looks|] == looks;
  }

  lemma TargetKeepsInv(cfg: Config, v: View, k: Key, healthy: bool, now: nat)
    requires v.health.pc.HealthIdle? && HealthInv(cfg, v.health, v.sent) && Alternating(v.sent) && k in cfg.configured
    ensures var w := AfterTarget(v, k, healthy, now); HealthInv(cfg, w.health, w.sent) && Alternating(w.sent)
  {
  }

  lemma {:induction false} CheckKeepsInv(cfg: Config, v: View, looks: seq<Look>)
    requires v.health.pc.HealthIdle? && HealthInv(cfg, v.health, v.sent) && Alternating(v.sent)
    requires forall i :: 0 <= i < |looks| ==> looks[i].key in cfg.configured
    ensures var w := AfterLooks(v, looks); HealthInv(cfg, w.health, w.sent) && Alternating(w.sent)
  {
    if looks != [] {
      var front, l := looks[..|looks| - 1], looks[|looks| - 1];
      CheckKeepsInv(cfg, v, front);
      TargetKeepsInv(cfg, AfterLooks(v, front), l.key, l.healthy, l.at);
    }
  }

  // ---------- What a check reports ----------

  ghost predicate DistinctKeys(looks: seq<Look>)
  {
    forall i, j :: 0 <= i < j < |looks| ==> looks[i].key != looks[j].key
  }

  /** The look differs from the status so far. */
  predicate IsNews(unhealthy: set<Key>, l: Look)
  {
    l.healthy <==> l.key in unhealthy
  }

  function ReportOf(l: Look): Sent
  {
    Sent(Health, if l.healthy then Insert(l.key) else Remove(l.key), l.at, None)
  }

  /** One report for each look that brings news, in order. */
  function News(unhealthy: set<Key>, looks: seq<Look>): seq<Sent>
  {
    if looks == [] then []
    else
      var front, l := News(unhealthy, looks[..|looks| - 1]), looks[|looks| - 1];
      if IsNews(unhealthy, l) then front + [ReportOf(l)] else front
  }

  lemma {:induction false} UnseenIsUnknown(looks: seq<Look>, k: Key)
    ensures LatestLook(looks, k).None? <==> forall i :: 0 <= i < |looks| ==> looks[i].key != k
  {
    if looks != [] {
      UnseenIsUnknown(looks[..|looks| - 1], k);
      assert looks[|looks| - 1].key == k || forall i :: 0 <= i < |looks| - 1 ==> looks[..|looks| - 1][i] == looks[i];
    }
  }

  lemma {:induction false} LatestIs(looks: seq<Look>, i: nat)
    requires DistinctKeys(looks) && i < |looks|
    ensures LatestLook(looks, looks[i].key) == Some(looks[i].healthy)
  {
    if i < |looks| - 1 {
      LatestIs(looks[..|looks| - 1], i);
    }
  }

  /** With distinct targets, each of them is held exactly if it was found failing. */
  lemma EachSettles(v: View, looks: seq<Look>)
    requires v.health.pc.HealthIdle? && DistinctKeys(looks)
    ensures forall i :: 0 <= i < |looks| ==> (looks[i].key in AfterLooks(v, looks).health.unhealthy <==> !looks[i].healthy)
  {
    forall i | 0 <= i < |looks| ensures looks[i].key in AfterLooks(v, looks).health.unhealthy <==> !looks[i].healthy {
      LatestIs(looks, i);
      CheckSettles(v, looks, looks[i].key);
    }
  }

  /** A check over distinct targets sends exactly the reports of the looks that bring news, in their order. */
  lemma {:induction false} CheckReportsChanges(v: View, looks: seq<Look>)
    requires v.health.pc.HealthIdle? && DistinctKeys(looks)
    ensures AfterLooks(v, looks).sent == v.sent + News(v.health.unhealthy, looks)
  {
    if looks != [] {
      var front, l := looks[..|looks| - 1], looks[|looks| - 1];
      CheckReportsChanges(v, front);
      CheckSettles(v, front, l.key);
      UnseenIsUnknown(front, l.key);
      assert IsNews(v.health.unhealthy, l) <==> IsNews(AfterLooks(v, front).health.unhealthy, l);
    }
  }

  /** The look that a report comes from. */
  lemma {:induction false} NewsComesFrom(unhealthy: set<Key>, looks: seq<Look>, j: nat) returns (i: nat)
    requires j < |News(unhealthy, looks)|
    ensures i < |looks| && IsNews(unhealthy, looks[i]) && News(unhealthy, looks)[j] == ReportOf(looks[i])
  {
    var front := looks[..|looks| - 1];
    i := |looks| - 1;
    if j < |News(unhealthy, front)| {
      i := NewsComesFrom(unhealthy, front, j);
    }
  }

  lemma {:induction false} NewsIsReported(unhealthy: set<Key>, looks: seq<Look>, i: nat)
    requires i < |looks| && IsNews(unhealthy, looks[i])
    ensures ReportOf(looks[i]) in News(unhealthy, looks)
  {
    if i < |looks| - 1 {
      NewsIsReported(unhealthy, looks[..|looks| - 1], i);
    }
  }

  /** No key is reported twice. */
  lemma {:induction false} NewsOnce(unhealthy: set<Key>, looks: seq<Look>)
    requires DistinctKeys(looks)
    ensures var sent := News(unhealthy, looks);
      forall i, j :: 0 <= i < j < |sent| ==> sent[i].change.key != sent[j].change.key
  {
    if looks != [] {
      var front, l := looks[..|looks| - 1], looks[|looks| - 1];
      var before, sent := News(unhealthy, front), News(unhealthy, looks);
      NewsOnce(unhealthy, front);
      forall j | 0 <= j < |before| ensures sent[j] == before[j] && before[j].change.key != l.key {
        var i := NewsComesFrom(unhealthy, front, j);
        assert front[i] == looks[i];
      }
      assert |sent| == |before| || (|sent| == |before| + 1 && sent[|before|].change.key == l.key);
    }
  }

  // ---------- The monitor ----------

  datatype Outcome = Completed | MetricsMissing(at: nat) | DispatcherFailed(at: nat)

  class Monitor {
    const targets: seq<Key>
    const endpoints: map<string, seq<string>>  // per built-in provider; a named provider has none
    var unhealthyKeys: set<Key>
    var sent: seq<Sent>

    ghost function Cfg(): Config
    {
      Config(Weighted, KeySet(targets))
    }

    ghost function Now(): View
      reads this
    {
      View(HealthState(unhealthyKeys, HealthIdle), sent)
    }

    ghost predicate Valid()
      reads this
    {
      HealthInv(Cfg(), Now().health, sent) && Alternating(sent) && Distinct(targets)
    }

    function EndpointsOf(k: Key): seq<string>
    {
      if k.provider in endpoints then endpoints[k.provider] else []
    }

    /** The readings of a check fit its targets: for each one the counters found, and when. */
    predicate Fits(metrics: seq<map<string, Counts>>, times: seq<nat>)
    {
      |metrics| == |targets| && |times| == |targets|
    }

    /** What the first `n` looks of a check find. */
    function Looks(p: Policy, metrics: seq<map<string, Counts>>, times: seq<nat>, n: nat): (looks: seq<Look>)
      requires Fits(metrics, times) && n <= |targets|
      ensures |looks| == n && forall i :: 0 <= i < n ==> looks[i] == LookAt(p, metrics, times, i)
    {
      seq(n, i requires 0 <= i < n => LookAt(p, metrics, times, i))
    }

    function LookAt(p: Policy, metrics: seq<map<string, Counts>>, times: seq<nat>, i: nat): Look
      requires Fits(metrics, times) && i < |targets|
    {
      var endpoints := EndpointsOf(targets[i]);
      Look(targets[i], Known(metrics[i], endpoints) && Healthy(p, metrics[i], endpoints), times[i])
    }

    predicate AllKnown(metrics: seq<map<string, Counts>>, n: nat)
      requires |metrics| == |targets| && n <= |targets|
    {
      forall i :: 0 <= i < n ==> Known(metrics[i], EndpointsOf(targets[i]))
    }

    /** Of the targets, `held` has exactly those that failed when they were looked at. */
    predicate HoldsFailing(p: Policy, metrics: seq<map<string, Counts>>, held: set<Key>)
      requires |metrics| == |targets| && AllKnown(metrics, |targets|)
    {
      forall i :: 0 <= i < |targets| ==> (targets[i] in held <==> !Healthy(p, metrics[i], EndpointsOf(targets[i])))
    }

    lemma HeldExactly(p: Policy, metrics: seq<map<string, Counts>>, held: set<Key>)
      requires |metrics| == |targets| && AllKnown(metrics, |targets|) && HoldsFailing(p, metrics, held)
      ensures forall i :: 0 <= i < |targets| ==>
        (targets[i] in held <==> targets[i].provider in endpoints && SomeFails(p, metrics[i], endpoints[targets[i].provider]))
    {
      forall i | 0 <= i < |targets|
        ensures targets[i] in held <==>
          targets[i].provider in endpoints && SomeFails(p, metrics[i], endpoints[targets[i].provider])
      {
        HealthyExactly(p, metrics[i], EndpointsOf(targets[i]));
      }
    }

    lemma LooksOneMore(v: View, p: Policy, metrics: seq<map<string, Counts>>, times: seq<nat>, n: nat)
      requires v.health.pc.HealthIdle? && Fits(metrics, times) && n < |targets|
      ensures var l := LookAt(p, metrics, times, n);
        AfterLooks(v, Looks(p, metrics, times, n + 1)) ==
          AfterTarget(AfterLooks(v, Looks(p, metrics, times, n)), l.key, l.healthy, l.at)
    {
      AfterOneMore(v, Looks(p, metrics, times, n), LookAt(p, metrics, times, n));
      assert Looks(p, metrics, times, n + 1) == Looks(p, metrics, times, n) + [LookAt(p, metrics, times, n)];
    }

    lemma LooksKeepInv(v: View, p: Policy, metrics: seq<map<string, Counts>>, times: seq<nat>, n: nat)
      requires v.health.pc.HealthIdle? && Fits(metrics, times) && n <= |targets|
      requires HealthInv(Cfg(), v.health, v.sent) && Alternating(v.sent)
      ensures var w := AfterLooks(v, Looks(p, metrics, times, n));
        HealthInv(Cfg(), w.health, w.sent) && Alternating(w.sent) && w.health.unhealthy <= KeySet(targets)
    {
      CheckKeepsInv(Cfg(), v, Looks(p, metrics, times, n));
    }

    lemma LooksSettle(v: View, p: Policy, metrics: seq<map<string, Counts>>, times: seq<nat>)
      requires v.health.pc.HealthIdle? && Fits(metrics, times) && Distinct(targets) && AllKnown(metrics, |targets|)
      ensures HoldsFailing(p, metrics, AfterLooks(v, Looks(p, metrics, times, |targets|)).health.unhealthy)
    {
      var looks := Looks(p, metrics, times, |targets|);
      EachSettles(v, looks);
      forall i | 0 <= i < |targets|
        ensures targets[i] in AfterLooks(v, looks).health.unhealthy <==> !Healthy(p, metrics[i], EndpointsOf(targets[i]))
      {
        assert looks[i].key == targets[i];
      }
    }

    constructor (targets: seq<Key>, endpoints: map<string, seq<string>>)
      requires Distinct(targets)  // the source keeps them in a set
      ensures Valid() && unhealthyKeys == {} && sent == [] && this.targets == targets && this.endpoints == endpoints
    {
      this.targets := targets;
      this.endpoints := endpoints;
      unhealthyKeys := {};
      sent := [];
    }

    /** Compares one target's health with its status and reports a change; false if the dispatcher fails. */
    method SettleTarget(k: Key, isHealthy: bool, dispatches: bool, now: nat) returns (done: bool)
      modifies this
      ensures done <==> !(isHealthy && k in old(unhealthyKeys) && !dispatches)
      ensures done ==> Now() == AfterTarget(old(Now()), k, isHealthy, now)
      ensures !done ==> unhealthyKeys == old(unhealthyKeys) - {k} && sent == old(sent)
    {
      var wasUnhealthy := k in unhealthyKeys;
      if !isHealthy && !wasUnhealthy {
        sent := sent + [Sent(Health, Remove(k), now, None)];
        unhealthyKeys := unhealthyKeys + {k};
      } else if isHealthy && wasUnhealthy {
        unhealthyKeys := unhealthyKeys - {k};
        if !dispatches {
          return false;
        }
        sent := sent + [Sent(Health, Insert(k), now, None)];
      }
      return true;
    }

    /** One check; `metrics[i]` and `times[i]` are what the counters show at the `i`-th target, and when. */
    method CheckMonitor(p: Policy, metrics: seq<map<string, Counts>>, times: seq<nat>, dispatchable: set<Key>)
      returns (r: Outcome)
      requires Valid() && Fits(metrics, times)
      modifies this
      ensures r.Completed? ==> Valid() && Now() == AfterLooks(old(Now()), Looks(p, metrics, times, |targets|))
      ensures r.Completed? ==> AllKnown(metrics, |targets|) && HoldsFailing(p, metrics, unhealthyKeys)
      ensures r.Completed? ==> unhealthyKeys <= KeySet(targets)
      ensures r.Completed? ==> forall i :: 0 <= i < |targets| ==>
        (targets[i] in unhealthyKeys <==> targets[i].provider in endpoints && SomeFails(p, metrics[i], endpoints[targets[i].provider]))
      ensures !r.Completed? ==> r.at < |targets|
      ensures r.MetricsMissing? ==> Valid() && !Known(metrics[r.at], EndpointsOf(targets[r.at]))
      ensures r.MetricsMissing? ==> Now() == AfterLooks(old(Now()), Looks(p, metrics, times, r.at))
      ensures r.DispatcherFailed? ==> targets[r.at] !in dispatchable
      // then the provider is forgotten and never re-inserted: the protocol's HealthFailed state
      ensures r.DispatcherFailed? ==>
        (var v := AfterLooks(old(Now()), Looks(p, metrics, times, r.at));
         targets[r.at] in v.health.unhealthy && unhealthyKeys == v.health.unhealthy - {targets[r.at]} && sent == v.sent)
    {
      ghost var start := Now();
      for i := 0 to |targets|
        invariant Now() == AfterLooks(start, Looks(p, metrics, times, i))
        invariant AllKnown(metrics, i)
      {
        LooksOneMore(start, p, metrics, times, i);
        var health := CheckHealth(p, metrics[i], EndpointsOf(targets[i]));
        if health.Err? {
          LooksKeepInv(start, p, metrics, times, i);
          return MetricsMissing(i);
        }
        var done := SettleTarget(targets[i], health.value, targets[i] in dispatchable, times[i]);
        if !done {
          return DispatcherFailed(i);
        }
      }
      LooksKeepInv(start, p, metrics, times, |targets|);
      LooksSettle(start, p, metrics, times);
      HeldExactly(p, metrics, unhealthyKeys);
      r := Completed;
    }
  }

  // ---------- Recovery ----------

  /** The totals an endpoint's two counters report at `now`. */
  ghost predicate Reports(sh: RollingCounter.Shape, requests: seq<nat>, errors: seq<nat>, now: nat, c: Counts)
  {
    && c.requests == RollingCounter.CountLap(sh, requests, RollingCounter.Lap(sh, now)) % RollingCounter.U32
    && c.errors == RollingCounter.CountLap(sh, errors, RollingCounter.Lap(sh, now)) % RollingCounter.U32
  }

  /** An endpoint with fewer than `minRequests` requests in the current lap does not fail, whatever came before. */
  lemma QuietLapDoesNotFail(p: Policy, sh: RollingCounter.Shape, requests: seq<nat>, errors: seq<nat>, now: nat, c: Counts)
    requires Reports(sh, requests, errors, now, c)
    requires RollingCounter.CountLap(sh, requests, RollingCounter.Lap(sh, now)) < p.minRequests
    ensures !Failing(p, c)
  {
  }

  lemma {:induction false} EarlierLapsDoNotCount(sh: RollingCounter.Shape, events: seq<nat>, last: nat, now: nat)
    requires RollingCounter.NotAfter(events, last) && RollingCounter.Lap(sh, last) < RollingCounter.Lap(sh, now)
    ensures RollingCounter.CountLap(sh, events, RollingCounter.Lap(sh, now)) == 0
  {
    if events != [] {
      EarlierLapsDoNotCount(sh, events[..|events| - 1], last, now);
      RollingCounter.LapMonotone(sh, events[|events| - 1], last);
    }
  }

  /** Each endpoint of the `i`-th target shows its counters at that instant, with a quiet lap. */
  ghost predicate QuietTarget(
    m: Monitor, p: Policy, sh: RollingCounter.Shape, requests: map<string, seq<nat>>, errors: map<string, seq<nat>>,
    metrics: map<string, Counts>, now: nat, i: nat)
    requires i < |m.targets|
  {
    forall e :: e in m.EndpointsOf(m.targets[i]) ==>
      && e in requests && e in errors && e in metrics
      && Reports(sh, requests[e], errors[e], now, metrics[e])
      && RollingCounter.CountLap(sh, requests[e], RollingCounter.Lap(sh, now)) < p.minRequests
  }

  /** A removed provider comes back at the first check in which each of its endpoints has a quiet lap. */
  lemma QuietProviderReturns(
      m: Monitor, p: Policy, sh: RollingCounter.Shape, requests: map<string, seq<nat>>, errors: map<string, seq<nat>>,
      metrics: seq<map<string, Counts>>, times: seq<nat>, i: nat)
    requires m.Valid() && m.Fits(metrics, times) && i < |m.targets| && m.targets[i] in m.unhealthyKeys
    requires QuietTarget(m, p, sh, requests, errors, metrics[i], times[i], i)
    ensures var w := AfterLooks(m.Now(), m.Looks(p, metrics, times, |m.targets|));
      && m.targets[i] !in w.health.unhealthy
      && Sent(Health, Insert(m.targets[i]), times[i], None) in w.sent[|m.sent|..]
  {
    var endpoints, looks := m.EndpointsOf(m.targets[i]), m.Looks(p, metrics, times, |m.targets|);
    forall j | 0 <= j < |endpoints| ensures endpoints[j] in metrics[i] && !Failing(p, metrics[i][endpoints[j]]) {
      var e := endpoints[j];
      assert e in endpoints;
      QuietLapDoesNotFail(p, sh, requests[e], errors[e], times[i], metrics[i][e]);
    }
    assert looks[i].healthy;
    EachSettles(m.Now(), looks);
    CheckReportsChanges(m.Now(), looks);
    NewsIsReported(m.unhealthyKeys, looks, i);
  }

  /** ... in particular at any check in a later lap than its last request, if `minRequests` is at least one. */
  lemma IdleEndpointIsQuiet(p: Policy, sh: RollingCounter.Shape, requests: seq<nat>, last: nat, now: nat)
    requires p.minRequests >= 1 && RollingCounter.NotAfter(requests, last)
    requires RollingCounter.Lap(sh, last) < RollingCounter.Lap(sh, now)
    ensures RollingCounter.CountLap(sh, requests, RollingCounter.Lap(sh, now)) < p.minRequests
  {
    EarlierLapsDoNotCount(sh, requests, last, now);
  }
}
