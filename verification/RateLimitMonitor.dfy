/**
  The rate-limit monitor: one method per branch of its select loop. Each branch, run to completion, is a
  sequence of the protocol steps of `ProviderPool`, and keeps the same invariants.
 */
module RateLimitMonitor {
  import opened Wrappers
  import opened Changes
  import opened ProviderPool

  datatype View = View(rate: RateState, sent: seq<Sent>)

  /** A rate-limit event handled without interruption. */
  function AfterEvent(cfg: Config, v: View, k: Key, retryAfter: Option<nat>, now: nat): View
  {
    var seen := StepRate(cfg, v.rate, now, RateEvent(k, retryAfter));
    if seen.pc.RateRemoving? then
      View(StepRate(cfg, StepRate(cfg, seen, now, RateSends), now, RateNotes),
           v.sent + [Sent(RateLimit, Remove(k), now, retryAfter)])
    else View(seen, v.sent)
  }

  /** What that comes to: nothing for a key that is limited already, and otherwise a removal and a restore. */
  lemma AfterEventIs(cfg: Config, v: View, k: Key, retryAfter: Option<nat>, now: nat)
    requires v.rate.pc.RateIdle? && (cfg.strategy.Weighted? ==> k in cfg.configured)
    ensures var r, due := v.rate, now + match retryAfter case Some(seconds) => 1000 * seconds + 30_000 case None => 60_000;
      AfterEvent(cfg, v, k, retryAfter, now) ==
        if k in r.limited then v
        else View(r.(limited := r.limited + {k}, pending := r.pending + [Restore(k, due)]),
                  v.sent + [Sent(RateLimit, Remove(k), now, retryAfter)])
  {
  }

  /** A due restore handled without interruption, with a dispatcher that can be built. */
  function AfterRestore(cfg: Config, v: View, i: nat, now: nat): View
    requires i < |v.rate.pending|
  {
    var fired := StepRate(cfg, v.rate, now, RateTimer(i));
    View(StepRate(cfg, StepRate(cfg, fired, now, RateSends), now, RateNotes),
         v.sent + [Sent(RateLimit, Insert(v.rate.pending[i].key), now, None)])
  }

  ghost predicate Sound(r: RateState, now: nat, sent: seq<Sent>)
  {
    RateInv(r, sent) && TimersInv(r) && ClockInv(r, now, sent) && HistoryInv(sent)
  }

  /** The protocol state in which only this monitor acts. */
  ghost function Alone(r: RateState, now: nat, sent: seq<Sent>): State
  {
    State(now, [], [], {}, HealthState({}, HealthIdle), r, sent)
  }

  lemma SendKeepsSound(cfg: Config, r: RateState, now: nat, sent: seq<Sent>)
    requires Sound(r, now, sent) && (r.pc.RateRemoving? || r.pc.RateRestoring?)
    ensures Sound(StepRate(cfg, r, now, RateSends), now, sent + [RateMessage(Alone(r, now, sent))])
  {
    var s := Alone(r, now, sent);
    StepKeepsRate(cfg, s, RateSends);
    SendKeepsHistory(sent, RateMessage(s));
  }

  lemma TimeKeepsSound(r: RateState, now: nat, later: nat, sent: seq<Sent>)
    requires Sound(r, now, sent) && now <= later
    ensures Sound(r, later, sent)
  {
  }

  lemma NotesKeepSound(cfg: Config, r: RateState, now: nat, sent: seq<Sent>)
    requires Sound(r, now, sent) && (r.pc.RateRemoved? || r.pc.RateRestored?)
    ensures Sound(StepRate(cfg, r, now, RateNotes), now, sent)
  {
    RateNotesKeepsRate(cfg, r, now, sent);
  }

  lemma EventKeepsSound(cfg: Config, v: View, k: Key, retryAfter: Option<nat>, before: nat, now: nat)
    requires v.rate.pc.RateIdle? && Sound(v.rate, before, v.sent) && before <= now
    ensures var w := AfterEvent(cfg, v, k, retryAfter, now); Sound(w.rate, now, w.sent)
  {
    TimeKeepsSound(v.rate, before, now, v.sent);
    var seen := StepRate(cfg, v.rate, now, RateEvent(k, retryAfter));
    assert Sound(seen, now, v.sent);
    if seen.pc.RateRemoving? {
      SendKeepsSound(cfg, seen, now, v.sent);
      NotesKeepSound(cfg, StepRate(cfg, seen, now, RateSends), now, v.sent + [Sent(RateLimit, Remove(k), now, retryAfter)]);
    }
  }

  lemma RestoreKeepsSound(cfg: Config, v: View, i: nat, before: nat, now: nat)
    requires v.rate.pc.RateIdle? && Sound(v.rate, before, v.sent) && before <= now
    requires i < |v.rate.pending| && v.rate.pending[i].due <= now
    ensures var w := AfterRestore(cfg, v, i, now); Sound(w.rate, now, w.sent)
  {
    TimeKeepsSound(v.rate, before, now, v.sent);
    RateTimerKeepsRate(cfg, v.rate, now, v.sent, i);
    var fired := StepRate(cfg, v.rate, now, RateTimer(i));
    SendKeepsSound(cfg, fired, now, v.sent);
    NotesKeepSound(cfg, StepRate(cfg, fired, now, RateSends), now,
                   v.sent + [Sent(RateLimit, Insert(v.rate.pending[i].key), now, None)]);
  }

  // ---------- Keys of events ----------

  /** Under the weighted strategy the first target of that provider, if there is one. */
  function KeyFor(strategy: Strategy, targets: seq<Key>, provider: string): Option<Key>
  {
    if strategy.Latency? then Some(Key(provider, 0))
    else if targets == [] then None
    else if targets[0].provider == provider then Some(targets[0])
    else KeyFor(strategy, targets[1..], provider)
  }

  /** With one target per provider an event removes exactly the target of its provider, or stops the monitor. */
  lemma {:induction false} KeyForFinds(targets: seq<Key>, provider: string)
    ensures KeyFor(Weighted, targets, provider).None? <==> forall i :: 0 <= i < |targets| ==> targets[i].provider != provider
    ensures KeyFor(Weighted, targets, provider).Some? ==>
      KeyFor(Weighted, targets, provider).value in targets && KeyFor(Weighted, targets, provider).value.provider == provider
    ensures (forall i, j :: 0 <= i < j < |targets| ==> targets[i].provider != targets[j].provider) ==>
      forall k :: k in targets && k.provider == provider ==> KeyFor(Weighted, targets, provider) == Some(k)
  {
    if targets != [] {
      KeyForFinds(targets[1..], provider);
      assert targets == [targets[0]] + targets[1..];
    }
  }

  class Monitor {
    const strategy: Strategy
    const targets: seq<Key>
    var clock: nat
    var rateLimited: set<Key>
    var pendingRestores: seq<Restore>
    var sent: seq<Sent>

    ghost function Cfg(): Config
    {
      Config(strategy, KeySet(targets))
    }

    ghost function Now(): View
      reads this
    {
      View(RateState(rateLimited, pendingRestores, RateIdle, false), sent)
    }

    ghost predicate Valid()
      reads this
    {
      Sound(Now().rate, clock, sent)
    }

    constructor (strategy: Strategy, targets: seq<Key>)
      ensures Valid() && this.strategy == strategy && this.targets == targets
      ensures rateLimited == {} && pendingRestores == [] && sent == []
    {
      this.strategy, this.targets := strategy, targets;
      clock, rateLimited, pendingRestores, sent := 0, {}, [], [];
      new;
      assert PendingKeys([]) == {};
    }

    /** The key of an event. */
    method KeyForEndpoint(provider: string) returns (key: Option<Key>)
      ensures key == KeyFor(strategy, targets, provider)
    {
      if strategy.Latency? {
        return Some(Key(provider, 0));
      }
      for i := 0 to |targets|
        invariant KeyFor(strategy, targets, provider) == KeyFor(strategy, targets[i..], provider)
      {
        if targets[i].provider == provider {
          return Some(targets[i]);
        }
        assert targets[i..][1..] == targets[i + 1..];
      }
      return None;
    }

    /** A rate-limit event; it stops the monitor when it names no target. */
    method HandleEvent(provider: string, retryAfter: Option<nat>, now: nat) returns (key: Option<Key>)
      requires Valid() && clock <= now
      modifies this
      ensures key == KeyFor(strategy, targets, provider)
      ensures strategy.Latency? ==> key == Some(Key(provider, 0))
      ensures strategy.Weighted? ==> (key.None? <==> forall k :: k in targets ==> k.provider != provider)
      ensures strategy.Weighted? && key.Some? ==> key.value in targets && key.value.provider == provider
      ensures key.None? ==> unchanged(this)
      ensures key.Some? ==> Valid() && clock == now
      ensures key.Some? ==> Now() == AfterEvent(Cfg(), old(Now()), key.value, retryAfter, now)
      ensures key.Some? && key.value in old(rateLimited) ==>
        rateLimited == old(rateLimited) && pendingRestores == old(pendingRestores) && sent == old(sent)
      ensures key.Some? && key.value !in old(rateLimited) ==>
        (var due := now + match retryAfter case Some(seconds) => 1000 * seconds + 30_000 case None => 60_000;
         && rateLimited == old(rateLimited) + {key.value}
         && pendingRestores == old(pendingRestores) + [Restore(key.value, due)]
         && sent == old(sent) + [Sent(RateLimit, Remove(key.value), now, retryAfter)])
    {
      key := KeyForEndpoint(provider);
      if strategy.Weighted? {
        KeyForFinds(targets, provider);
      }
      if key.Some? {
        Limit(key.value, retryAfter, now);
      }
    }

    method Limit(k: Key, retryAfter: Option<nat>, now: nat)
      requires Valid() && clock <= now && (strategy.Weighted? ==> k in Cfg().configured)
      modifies this
      ensures Valid() && clock == now && Now() == AfterEvent(Cfg(), old(Now()), k, retryAfter, now)
      ensures k in old(rateLimited) ==>
        rateLimited == old(rateLimited) && pendingRestores == old(pendingRestores) && sent == old(sent)
      ensures k !in old(rateLimited) ==>
        (var due := now + match retryAfter case Some(seconds) => 1000 * seconds + 30_000 case None => 60_000;
         && rateLimited == old(rateLimited) + {k}
         && pendingRestores == old(pendingRestores) + [Restore(k, due)]
         && sent == old(sent) + [Sent(RateLimit, Remove(k), now, retryAfter)])
    {
      ghost var after := AfterEvent(Cfg(), Now(), k, retryAfter, now);
      AfterEventIs(Cfg(), Now(), k, retryAfter, now);
      EventKeepsSound(Cfg(), Now(), k, retryAfter, clock, now);
      assert Sound(after.rate, now, after.sent);
      clock := now;
      if k !in rateLimited {
        sent := sent + [Sent(RateLimit, Remove(k), now, retryAfter)];
        var duration := (if retryAfter.Some? then retryAfter.value else DEFAULT_WAIT_SECONDS) * 1000 + RATE_LIMIT_BUFFER_MS;
        pendingRestores := pendingRestores + [Restore(k, now + duration)];
        rateLimited := rateLimited + {k};
      }
      assert Now() == after;
    }

    /** The `i`-th pending restore is due; `dispatchable` says whether its dispatcher could be built. */
    method HandleRestore(i: nat, now: nat, dispatchable: bool) returns (ok: bool)
      requires Valid() && clock <= now && i < |pendingRestores| && pendingRestores[i].due <= now
      modifies this
      ensures ok == dispatchable
      ensures ok ==> Valid() && clock == now && Now() == AfterRestore(Cfg(), old(Now()), i, now)
      ensures ok ==>
        (var key := old(pendingRestores)[i].key;
         && rateLimited == old(rateLimited) - {key} && sent == old(sent) + [Sent(RateLimit, Insert(key), now, None)]
         && pendingRestores == old(pendingRestores[..i] + pendingRestores[i + 1..]))
      // a failure stops the monitor: the restore is gone, the key stays removed
      ensures !ok ==> rateLimited == old(rateLimited) && sent == old(sent)
      ensures !ok ==> pendingRestores == old(pendingRestores[..i] + pendingRestores[i + 1..])
    {
      var key := pendingRestores[i].key;
      RestoreKeepsSound(Cfg(), Now(), i, clock, now);
      ghost var after := AfterRestore(Cfg(), Now(), i, now);
      clock := now;
      pendingRestores := pendingRestores[..i] + pendingRestores[i + 1..];
      if !dispatchable {
        return false;
      }
      sent := sent + [Sent(RateLimit, Insert(key), now, None)];
      rateLimited := rateLimited - {key};
      assert Now() == after;
      ok := true;
    }

    /** The loop ends when the event channel is closed, which it only notices once no restore is pending. */
    method Shutdown() returns (ended: bool)
      requires Valid()
      ensures ended <==> pendingRestores == []
      ensures ended <==> rateLimited == {}
      ensures ended ==> forall k :: !Holds(sent, RateLimit, k)
    {
      ended := pendingRestores == [];
      assert PendingKeys(pendingRestores) == rateLimited;
      if ended {
        assert PendingKeys(pendingRestores) == {};
      } else {
        assert pendingRestores[0].key in PendingKeys(pendingRestores);
      }
    }
  }
}
