/**
  The provider-pool protocol of one router. A health monitor and a rate-limit monitor, which do not
  know of each other, send changes into one bounded FIFO channel; the balancer consumes the configured
  services first and the channel afterwards. Every await point of a handler is a separate step, so a
  run is an arbitrary interleaving of both monitors, the balancer, the clock and failures.
 */
module ProviderPool {
  import opened Wrappers
  import opened Changes

  const CHANNEL_CAPACITY := 16
  const DEFAULT_WAIT_SECONDS := 30
  const RATE_LIMIT_BUFFER_MS := 30_000

  datatype Strategy = Weighted | Latency
  datatype Config = Config(strategy: Strategy, configured: set<Key>)

  datatype Monitor = Health | RateLimit

  /** A change put on the channel: who sent it, when, and the retry-after that caused a rate-limit removal. */
  datatype Sent = Sent(who: Monitor, change: Change, at: nat, retryAfter: Option<nat>)

  datatype Restore = Restore(key: Key, due: nat)

  datatype HealthPc =
    | HealthIdle
    | HealthRemoving(k: Key)   // about to send Remove
    | HealthRemoved(k: Key)    // Remove sent, key not yet recorded
    | HealthRestoring(k: Key)  // key forgotten, building a dispatcher to send Insert
    | HealthFailed(k: Key)     // the dispatcher could not be built: the monitor stopped

  datatype RatePc =
    | RateIdle
    | RateRemoving(k: Key, retryAfter: Option<nat>)
    | RateRemoved(k: Key, retryAfter: Option<nat>)
    | RateRestoring(k: Key)    // timer fired, building a dispatcher to send Insert
    | RateRestored(k: Key)     // Insert sent, key not yet forgotten
    | RateFailed(k: Key)       // the dispatcher could not be built: the monitor stopped
    | RateRefused              // an event named no configured target: the monitor stopped
    | RateDone                 // event channel closed and no restore pending: graceful exit

  datatype HealthState = HealthState(unhealthy: set<Key>, pc: HealthPc)
  datatype RateState = RateState(limited: set<Key>, pending: seq<Restore>, pc: RatePc, closed: bool)

  datatype State = State(
    now: nat,
    initial: seq<Key>,  // configured services the balancer has not consumed yet
    queue: seq<Change>,
    pool: set<Key>,
    health: HealthState,
    rate: RateState,
    sent: seq<Sent>)    // history of everything ever put on the channel

  datatype Step =
    | Tick(ms: nat)
    | Consume
    | HealthFinds(k: Key, healthy: bool)
    | HealthSends
    | HealthNotes
    | HealthDispatcherFails
    | RateEvent(k: Key, retryAfter: Option<nat>)
    | RateSends
    | RateNotes
    | RateTimer(i: nat)
    | RateDispatcherFails
    | CloseEvents
    | RateExits

  function HoldMs(retryAfter: Option<nat>): nat
  {
    (if retryAfter.Some? then retryAfter.value else DEFAULT_WAIT_SECONDS) * 1000 + RATE_LIMIT_BUFFER_MS
  }

  ghost predicate Lists(order: seq<Key>, keys: set<Key>)
  {
    forall k :: k in order <==> k in keys
  }

  function Start(order: seq<Key>): State
  {
    State(0, order, [], {}, HealthState({}, HealthIdle), RateState({}, [], RateIdle, false), [])
  }

  predicate Enabled(cfg: Config, s: State, step: Step)
  {
    var h, r := s.health.pc, s.rate.pc;
    match step
    case Tick(_) => true
    case Consume => s.initial != [] || s.queue != []
    case HealthFinds(k, _) => h.HealthIdle? && k in cfg.configured
    case HealthSends => (h.HealthRemoving? || h.HealthRestoring?) && |s.queue| < CHANNEL_CAPACITY
    case HealthNotes => h.HealthRemoved?
    case HealthDispatcherFails => h.HealthRestoring?
    case RateEvent(_, _) => r.RateIdle? && !s.rate.closed
    case RateSends => (r.RateRemoving? || r.RateRestoring?) && |s.queue| < CHANNEL_CAPACITY
    case RateNotes => r.RateRemoved? || r.RateRestored?
    case RateTimer(i) => r.RateIdle? && i < |s.rate.pending| && s.rate.pending[i].due <= s.now
    case RateDispatcherFails => r.RateRestoring?
    case CloseEvents => true
    case RateExits => r.RateIdle? && s.rate.closed && s.rate.pending == []
  }

  function Emit(s: State, e: Sent): State
  {
    s.(queue := s.queue + [e.change], sent := s.sent + [e])
  }

  /** The change the health monitor is about to send. */
  function HealthMessage(s: State): Sent
    requires s.health.pc.HealthRemoving? || s.health.pc.HealthRestoring?
  {
    var k := s.health.pc.k;
    Sent(Health, if s.health.pc.HealthRemoving? then Remove(k) else Insert(k), s.now, None)
  }

  /** The change the rate-limit monitor is about to send. */
  function RateMessage(s: State): Sent
    requires s.rate.pc.RateRemoving? || s.rate.pc.RateRestoring?
  {
    var k := s.rate.pc.k;
    if s.rate.pc.RateRemoving? then Sent(RateLimit, Remove(k), s.now, s.rate.pc.retryAfter)
    else Sent(RateLimit, Insert(k), s.now, None)
  }

  function StepHealth(h: HealthState, step: Step): HealthState
    requires step.HealthSends? ==> h.pc.HealthRemoving? || h.pc.HealthRestoring?
    requires step.HealthNotes? ==> h.pc.HealthRemoved?
    requires step.HealthDispatcherFails? ==> h.pc.HealthRestoring?
  {
    match step
    case HealthFinds(k, healthy) =>
      if !healthy && k !in h.unhealthy then h.(pc := HealthRemoving(k))
      else if healthy && k in h.unhealthy then HealthState(h.unhealthy - {k}, HealthRestoring(k))
      else h
    case HealthSends => h.(pc := if h.pc.HealthRemoving? then HealthRemoved(h.pc.k) else HealthIdle)
    case HealthNotes => HealthState(h.unhealthy + {h.pc.k}, HealthIdle)
    case HealthDispatcherFails => h.(pc := HealthFailed(h.pc.k))
    case _ => h
  }

  function StepRate(cfg: Config, r: RateState, now: nat, step: Step): RateState
    requires step.RateSends? ==> r.pc.RateRemoving? || r.pc.RateRestoring?
    requires step.RateNotes? ==> r.pc.RateRemoved? || r.pc.RateRestored?
    requires step.RateTimer? ==> step.i < |r.pending|
    requires step.RateDispatcherFails? ==> r.pc.RateRestoring?
  {
    match step
    case RateEvent(k, retryAfter) =>
      if cfg.strategy.Weighted? && k !in cfg.configured then r.(pc := RateRefused)
      else if k in r.limited then r
      else r.(pc := RateRemoving(k, retryAfter))
    case RateSends =>
      r.(pc := if r.pc.RateRemoving? then RateRemoved(r.pc.k, r.pc.retryAfter) else RateRestored(r.pc.k))
    case RateNotes =>
      if r.pc.RateRemoved? then
        r.(limited := r.limited + {r.pc.k},
           pending := r.pending + [Restore(r.pc.k, now + HoldMs(r.pc.retryAfter))],
           pc := RateIdle)
      else r.(limited := r.limited - {r.pc.k}, pc := RateIdle)
    case RateTimer(i) => r.(pending := r.pending[..i] + r.pending[i + 1..], pc := RateRestoring(r.pending[i].key))
    case RateDispatcherFails => r.(pc := RateFailed(r.pc.k))
    case CloseEvents => r.(closed := true)
    case RateExits => r.(pc := RateDone)
    case _ => r
  }

  /** What a step does to the clock, the channel and the balancer. */
  function StepChannel(cfg: Config, s: State, step: Step): State
    requires Enabled(cfg, s, step)
  {
    match step
    case Tick(ms) => s.(now := s.now + ms)
    case Consume =>
      if s.initial != [] then s.(initial := s.initial[1..], pool := s.pool + {s.initial[0]})
      else s.(queue := s.queue[1..], pool := ApplyChange(s.pool, s.queue[0]))
    case HealthSends => Emit(s, HealthMessage(s))
    case RateSends => Emit(s, RateMessage(s))
    case _ => s
  }

  function Apply(cfg: Config, s: State, step: Step): State
    requires Enabled(cfg, s, step)
  {
    StepChannel(cfg, s, step).(
      health := StepHealth(s.health, step),
      rate := StepRate(cfg, s.rate, s.now, step))
  }

  /** The state after `steps`, or None when one of them is not possible. */
  function Run(cfg: Config, s: State, steps: seq<Step>): Option<State>
    decreases |steps|
  {
    if steps == [] then Some(s)
    else if Enabled(cfg, s, steps[0]) then Run(cfg, Apply(cfg, s, steps[0]), steps[1..])
    else None
  }

  // ---------- What the history says ----------

  function Messages(sent: seq<Sent>): (log: seq<Change>)
    ensures |log| == |sent| && forall i :: 0 <= i < |log| ==> log[i] == sent[i].change
  {
    seq(|sent|, i requires 0 <= i < |sent| => sent[i].change)
  }

  /** The latest change that `m` sent about `k` is a removal. */
  predicate Holds(sent: seq<Sent>, m: Monitor, k: Key)
  {
    sent != [] &&
    var e := sent[|sent| - 1];
    if e.who == m && e.change.key == k then e.change.Remove? else Holds(sent[..|sent| - 1], m, k)
  }

  /** Each monitor's changes about each key alternate, beginning with a removal. */
  ghost predicate Alternating(sent: seq<Sent>)
  {
    sent != [] ==>
      var e, front := sent[|sent| - 1], sent[..|sent| - 1];
      Alternating(front) && (e.change.Insert? <==> Holds(front, e.who, e.change.key))
  }

  /** The latest instant until which some rate-limit removal of `k` asks to wait. */
  function WaitUntil(sent: seq<Sent>, k: Key): nat
  {
    if sent == [] then 0
    else
      var e, before := sent[|sent| - 1], WaitUntil(sent[..|sent| - 1], k);
      if e.who.RateLimit? && e.change == Remove(k) && e.at + HoldMs(e.retryAfter) > before
      then e.at + HoldMs(e.retryAfter) else before
  }

  /** The rate-limit monitor re-inserts no key before its removals allow it. */
  ghost predicate Punctual(sent: seq<Sent>)
  {
    sent != [] ==>
      var e, front := sent[|sent| - 1], sent[..|sent| - 1];
      Punctual(front) && (e.who.RateLimit? && e.change.Insert? ==> WaitUntil(front, e.change.key) <= e.at)
  }

  // ---------- What a state says ----------

  /** The pool once everything already on its way has been consumed. */
  ghost function Drained(s: State): set<Key>
  {
    Replay(s.pool + KeySet(s.initial), s.queue)
  }

  /** Keys whose latest health change is a removal, read off the monitor's own variables. */
  ghost function HealthHeld(h: HealthState): set<Key>
  {
    h.unhealthy + if h.pc.HealthRemoved? || h.pc.HealthRestoring? || h.pc.HealthFailed? then {h.pc.k} else {}
  }

  ghost function RateHeld(r: RateState): set<Key>
  {
    if r.pc.RateRemoved? then r.limited + {r.pc.k}
    else if r.pc.RateRestored? then r.limited - {r.pc.k}
    else r.limited
  }

  /** The key whose timer has fired but which the rate-limit monitor has not forgotten yet. */
  ghost function InRestore(r: RateState): set<Key>
  {
    if r.pc.RateRestoring? || r.pc.RateRestored? || r.pc.RateFailed? then {r.pc.k} else {}
  }

  ghost function PendingKeys(pending: seq<Restore>): set<Key>
  {
    set i | 0 <= i < |pending| :: pending[i].key
  }

  ghost predicate OnePerKey(pending: seq<Restore>)
  {
    forall i, j :: 0 <= i < j < |pending| ==> pending[i].key != pending[j].key
  }

  ghost predicate ChannelInv(cfg: Config, s: State)
  {
    && Drained(s) == Replay(cfg.configured, Messages(s.sent))
    && |s.queue| <= CHANNEL_CAPACITY
  }

  ghost predicate HealthInv(cfg: Config, h: HealthState, sent: seq<Sent>)
  {
    && (forall k :: Holds(sent, Health, k) <==> k in HealthHeld(h))
    && h.unhealthy <= cfg.configured
    && (!h.pc.HealthIdle? ==> h.pc.k in cfg.configured && h.pc.k !in h.unhealthy)
  }

  ghost predicate RateInv(r: RateState, sent: seq<Sent>)
  {
    && (forall k :: Holds(sent, RateLimit, k) <==> k in RateHeld(r))
    && (r.pc.RateRemoving? || r.pc.RateRemoved? ==> r.pc.k !in r.limited)
    && InRestore(r) <= r.limited
    && (r.pc.RateDone? ==> r.limited == {})
  }

  /** Limited keys and pending restores correspond one to one, apart from the key being restored. */
  ghost predicate TimersInv(r: RateState)
  {
    OnePerKey(r.pending) && PendingKeys(r.pending) == r.limited - InRestore(r)
  }

  ghost predicate ClockInv(r: RateState, now: nat, sent: seq<Sent>)
  {
    && (forall p :: p in r.pending ==> WaitUntil(sent, p.key) <= p.due)
    && (r.pc.RateRemoved? ==> WaitUntil(sent, r.pc.k) <= now + HoldMs(r.pc.retryAfter))
    && (forall k :: k !in RateHeld(r) || k in InRestore(r) ==> WaitUntil(sent, k) <= now)
  }

  ghost predicate Names(cfg: Config, sent: seq<Sent>)
  {
    forall e :: e in sent && (cfg.strategy.Weighted? || e.who.Health?) ==> e.change.key in cfg.configured
  }

  /** Only the latency strategy's rate-limit monitor ever names a key outside the configuration. */
  ghost predicate NamesInv(cfg: Config, r: RateState, sent: seq<Sent>)
  {
    && Names(cfg, sent)
    && (cfg.strategy.Weighted? && !(r.pc.RateIdle? || r.pc.RateRefused? || r.pc.RateDone?) ==> r.pc.k in cfg.configured)
    && (cfg.strategy.Weighted? ==> PendingKeys(r.pending) <= cfg.configured)
  }

  ghost predicate HistoryInv(sent: seq<Sent>)
  {
    Alternating(sent) && Punctual(sent)
  }

  ghost predicate Inv(cfg: Config, s: State)
  {
    && ChannelInv(cfg, s) && HistoryInv(s.sent) && HealthInv(cfg, s.health, s.sent)
    && RateInv(s.rate, s.sent) && TimersInv(s.rate) && ClockInv(s.rate, s.now, s.sent) && NamesInv(cfg, s.rate, s.sent)
  }

  // ---------- One step keeps the invariant ----------

  lemma HoldsSnoc(sent: seq<Sent>, e: Sent, m: Monitor, k: Key)
    ensures Holds(sent + [e], m, k) <==>
      (if e.who == m && e.change.key == k then e.change.Remove? else Holds(sent, m, k))
  {
  }

  lemma WaitSnoc(sent: seq<Sent>, e: Sent, k: Key)
    ensures !(e.who.RateLimit? && e.change == Remove(k)) ==> WaitUntil(sent + [e], k) == WaitUntil(sent, k)
    ensures e.who.RateLimit? && e.change == Remove(k) && WaitUntil(sent, k) <= e.at ==>
      WaitUntil(sent + [e], k) == e.at + HoldMs(e.retryAfter)
  {
  }

  lemma ConsumeKeepsDrained(cfg: Config, s: State)
    requires Enabled(cfg, s, Consume)
    ensures Drained(Apply(cfg, s, Consume)) == Drained(s)
  {
    var t := Apply(cfg, s, Consume);
    var all := s.pool + KeySet(s.initial);
    if s.initial != [] {
      assert s.initial == [s.initial[0]] + s.initial[1..];
      assert t.pool + KeySet(t.initial) == all;
    } else {
      assert s.queue == [s.queue[0]] + s.queue[1..];
      assert all == s.pool && t.pool + KeySet(t.initial) == t.pool;
      ReplayConcat(all, [s.queue[0]], s.queue[1..]);
      assert Replay(all, [s.queue[0]]) == ApplyChange(Replay(all, []), s.queue[0]);
    }
  }

  lemma StepKeepsChannel(cfg: Config, s: State, step: Step)
    requires ChannelInv(cfg, s) && Enabled(cfg, s, step)
    ensures ChannelInv(cfg, StepChannel(cfg, s, step))
  {
    var t := StepChannel(cfg, s, step);
    var all := s.pool + KeySet(s.initial);
    if step.HealthSends? || step.RateSends? {
      var e := if step.HealthSends? then HealthMessage(s) else RateMessage(s);
      assert Messages(t.sent) == Messages(s.sent) + [e.change];
      ReplayConcat(all, s.queue, [e.change]);
      ReplayConcat(cfg.configured, Messages(s.sent), [e.change]);
    } else if step.Consume? {
      ConsumeKeepsDrained(cfg, s);
    }
  }

  lemma SendKeepsHistory(sent: seq<Sent>, e: Sent)
    requires HistoryInv(sent)
    requires e.change.Insert? <==> Holds(sent, e.who, e.change.key)
    requires e.who.RateLimit? && e.change.Insert? ==> WaitUntil(sent, e.change.key) <= e.at
    ensures HistoryInv(sent + [e])
  {
  }

  lemma StepKeepsHistory(cfg: Config, s: State, step: Step)
    requires Inv(cfg, s) && Enabled(cfg, s, step)
    ensures HistoryInv(StepChannel(cfg, s, step).sent)
  {
  }

  lemma StepKeepsHealth(cfg: Config, s: State, step: Step)
    requires HealthInv(cfg, s.health, s.sent) && Enabled(cfg, s, step)
    ensures HealthInv(cfg, StepHealth(s.health, step), StepChannel(cfg, s, step).sent)
  {
  }

  /** A change of the health monitor is invisible to everything the rate-limit monitor relies on. */
  lemma HealthSendKeepsRate(r: RateState, now: nat, sent: seq<Sent>, e: Sent)
    requires RateInv(r, sent) && ClockInv(r, now, sent) && e.who.Health?
    ensures RateInv(r, sent + [e]) && ClockInv(r, now, sent + [e])
  {
  }

  lemma RateSendKeepsRate(cfg: Config, s: State)
    requires RateInv(s.rate, s.sent) && TimersInv(s.rate) && ClockInv(s.rate, s.now, s.sent)
    requires Enabled(cfg, s, RateSends)
    ensures var r := StepRate(cfg, s.rate, s.now, RateSends);
      RateInv(r, s.sent + [RateMessage(s)]) && TimersInv(r) && ClockInv(r, s.now, s.sent + [RateMessage(s)])
  {
    var r, e := StepRate(cfg, s.rate, s.now, RateSends), RateMessage(s);
    forall k { HoldsSnoc(s.sent, e, RateLimit, k); }
    forall k { WaitSnoc(s.sent, e, k); }
    forall p | p in r.pending ensures p.key != e.change.key {
      assert p.key in PendingKeys(s.rate.pending);
    }
  }

  lemma WithRestore(pending: seq<Restore>, p: Restore)
    requires OnePerKey(pending) && p.key !in PendingKeys(pending)
    ensures OnePerKey(pending + [p]) && PendingKeys(pending + [p]) == PendingKeys(pending) + {p.key}
  {
    var more := pending + [p];
    forall i | 0 <= i < |pending| ensures more[i] == pending[i] && pending[i].key in PendingKeys(pending) {}
    assert more[|pending|] == p;
  }

  lemma RateNotesKeepsRate(cfg: Config, r: RateState, now: nat, sent: seq<Sent>)
    requires RateInv(r, sent) && TimersInv(r) && ClockInv(r, now, sent) && (r.pc.RateRemoved? || r.pc.RateRestored?)
    ensures var t := StepRate(cfg, r, now, RateNotes); RateInv(t, sent) && TimersInv(t) && ClockInv(t, now, sent)
  {
    if r.pc.RateRemoved? {
      WithRestore(r.pending, Restore(r.pc.k, now + HoldMs(r.pc.retryAfter)));
    }
  }

  lemma WithoutRestore(pending: seq<Restore>, i: nat)
    requires OnePerKey(pending) && i < |pending|
    ensures var rest := pending[..i] + pending[i + 1..];
      && OnePerKey(rest) && PendingKeys(rest) == PendingKeys(pending) - {pending[i].key}
      && forall p :: p in rest ==> p in pending
  {
    var rest := pending[..i] + pending[i + 1..];
    forall j | 0 <= j < |pending| && j != i ensures pending[j].key in PendingKeys(rest) {
      assert rest[if j < i then j else j - 1] == pending[j];
    }
  }

  lemma RateTimerKeepsRate(cfg: Config, r: RateState, now: nat, sent: seq<Sent>, i: nat)
    requires RateInv(r, sent) && TimersInv(r) && ClockInv(r, now, sent)
    requires r.pc.RateIdle? && i < |r.pending| && r.pending[i].due <= now
    ensures var t := StepRate(cfg, r, now, RateTimer(i)); RateInv(t, sent) && TimersInv(t) && ClockInv(t, now, sent)
  {
    assert r.pending[i] in r.pending && r.pending[i].key in PendingKeys(r.pending);
    WithoutRestore(r.pending, i);
  }

  lemma StepKeepsRate(cfg: Config, s: State, step: Step)
    requires RateInv(s.rate, s.sent) && TimersInv(s.rate) && ClockInv(s.rate, s.now, s.sent) && Enabled(cfg, s, step)
    ensures var r, t := StepRate(cfg, s.rate, s.now, step), StepChannel(cfg, s, step);
      RateInv(r, t.sent) && TimersInv(r) && ClockInv(r, t.now, t.sent)
  {
    match step
    case HealthSends => HealthSendKeepsRate(s.rate, s.now, s.sent, HealthMessage(s));
    case RateSends => RateSendKeepsRate(cfg, s);
    case RateNotes => RateNotesKeepsRate(cfg, s.rate, s.now, s.sent);
    case RateTimer(i) => RateTimerKeepsRate(cfg, s.rate, s.now, s.sent, i);
    case RateExits => assert PendingKeys(s.rate.pending) == {};
    case _ =>
  }

  lemma StepKeepsNames(cfg: Config, s: State, step: Step)
    requires NamesInv(cfg, s.rate, s.sent) && HealthInv(cfg, s.health, s.sent) && Enabled(cfg, s, step)
    ensures NamesInv(cfg, StepRate(cfg, s.rate, s.now, step), StepChannel(cfg, s, step).sent)
  {
  }

  lemma StepKeepsInv(cfg: Config, s: State, step: Step)
    requires Inv(cfg, s) && Enabled(cfg, s, step)
    ensures Inv(cfg, Apply(cfg, s, step))
  {
    StepKeepsChannel(cfg, s, step);
    StepKeepsHistory(cfg, s, step);
    StepKeepsHealth(cfg, s, step);
    StepKeepsRate(cfg, s, step);
    StepKeepsNames(cfg, s, step);
  }

  lemma {:induction false} RunKeepsInv(cfg: Config, s: State, steps: seq<Step>)
    requires Inv(cfg, s) && Run(cfg, s, steps).Some?
    ensures Inv(cfg, Run(cfg, s, steps).value)
    decreases |steps|
  {
    if steps != [] {
      StepKeepsInv(cfg, s, steps[0]);
      RunKeepsInv(cfg, Apply(cfg, s, steps[0]), steps[1..]);
    }
  }

  /** Every state of every run satisfies the invariant, whatever order the configured services come in. */
  lemma Reachable(cfg: Config, order: seq<Key>, steps: seq<Step>)
    requires Lists(order, cfg.configured) && Run(cfg, Start(order), steps).Some?
    ensures Inv(cfg, Run(cfg, Start(order), steps).value)
  {
    assert KeySet(order) == cfg.configured;
    RunKeepsInv(cfg, Start(order), steps);
  }

  // ---------- The sandwich ----------

  /** A key nobody holds is in, a key both hold is out; one held by a single monitor depends on who spoke last. */
  lemma {:induction false} HoldersDecide(base: set<Key>, sent: seq<Sent>, k: Key)
    ensures k in base && !Holds(sent, Health, k) && !Holds(sent, RateLimit, k) ==> k in Replay(base, Messages(sent))
    ensures Holds(sent, Health, k) && Holds(sent, RateLimit, k) ==> k !in Replay(base, Messages(sent))
    ensures k in Replay(base, Messages(sent)) ==> k in base || exists e :: e in sent && e.change.key == k
  {
    if sent != [] {
      var front, e := sent[..|sent| - 1], sent[|sent| - 1];
      HoldersDecide(base, front, k);
      assert Messages(sent)[..|sent| - 1] == Messages(front);
      assert e in sent && forall x :: x in front ==> x in sent;
    }
  }

  /**
    The pool in every interleaving. With `HealthHeld`/`RateHeld` a mid-handler key counts as held exactly
    while its removal is the monitor's latest change, so the bounds hold in every reachable state.
   */
  lemma Sandwich(cfg: Config, order: seq<Key>, steps: seq<Step>)
    requires Lists(order, cfg.configured) && Run(cfg, Start(order), steps).Some?
    ensures var s := Run(cfg, Start(order), steps).value;
      && cfg.configured - (HealthHeld(s.health) + RateHeld(s.rate)) <= Drained(s)
      && Drained(s) !! HealthHeld(s.health) * RateHeld(s.rate)
      && (EventsConfigured(cfg, steps) ==> Drained(s) <= cfg.configured)
  {
    Reachable(cfg, order, steps);
    var s := Run(cfg, Start(order), steps).value;
    forall k { HoldersDecide(cfg.configured, s.sent, k); }
    if EventsConfigured(cfg, steps) {
      forall k | k in Drained(s) ensures k in cfg.configured {
        if cfg.strategy.Latency? {
          PoolNamesOnly(cfg, order, steps, k);
        }
      }
    }
  }

  /** Every rate-limit event names a configured key, or the strategy refuses the others itself. */
  ghost predicate EventsConfigured(cfg: Config, steps: seq<Step>)
  {
    cfg.strategy.Weighted? || forall i :: 0 <= i < |steps| && steps[i].RateEvent? ==> steps[i].k in cfg.configured
  }

  ghost predicate Quiet(s: State)
  {
    s.health.pc.HealthIdle? && (s.rate.pc.RateIdle? || s.rate.pc.RateDone? || s.rate.pc.RateRefused?)
  }

  /** When neither monitor is mid-handler, the bounds speak of the monitors' own sets. */
  lemma SandwichAtRest(cfg: Config, order: seq<Key>, steps: seq<Step>)
    requires Lists(order, cfg.configured) && EventsConfigured(cfg, steps)
    requires Run(cfg, Start(order), steps).Some? && Quiet(Run(cfg, Start(order), steps).value)
    ensures var s := Run(cfg, Start(order), steps).value;
      cfg.configured - (s.health.unhealthy + s.rate.limited) <= Drained(s)
        <= cfg.configured - s.health.unhealthy * s.rate.limited
  {
    Sandwich(cfg, order, steps);
  }

  /** The monitor that sent the latest change about `k`. */
  function LastSpeaker(sent: seq<Sent>, k: Key): Option<Monitor>
  {
    if sent == [] then None
    else if sent[|sent| - 1].change.key == k then Some(sent[|sent| - 1].who)
    else LastSpeaker(sent[..|sent| - 1], k)
  }

  lemma {:induction false} OneHolderDecides(base: set<Key>, sent: seq<Sent>, holder: Monitor, other: Monitor, k: Key)
    requires holder != other && Holds(sent, holder, k) && !Holds(sent, other, k)
    ensures k in Replay(base, Messages(sent)) <==> LastSpeaker(sent, k) == Some(other)
  {
    var front := sent[..|sent| - 1];
    assert Messages(sent)[..|sent| - 1] == Messages(front);
    if sent[|sent| - 1].change.key != k {
      OneHolderDecides(base, front, holder, other, k);
    }
  }

  /** Which side of the gap a key held by one monitor is on: in the pool, exactly when the other spoke last. */
  lemma HeldByOne(cfg: Config, order: seq<Key>, steps: seq<Step>, k: Key)
    requires Lists(order, cfg.configured) && Run(cfg, Start(order), steps).Some?
    requires var s := Run(cfg, Start(order), steps).value; k in HealthHeld(s.health) <==> k !in RateHeld(s.rate)
    ensures var s := Run(cfg, Start(order), steps).value;
      k in Drained(s) <==> LastSpeaker(s.sent, k) == Some(if k in HealthHeld(s.health) then RateLimit else Health)
  {
    Reachable(cfg, order, steps);
    var s := Run(cfg, Start(order), steps).value;
    if k in HealthHeld(s.health) {
      OneHolderDecides(cfg.configured, s.sent, Health, RateLimit, k);
    } else {
      OneHolderDecides(cfg.configured, s.sent, RateLimit, Health, k);
    }
  }

  /** The consumer alone turns the drained pool into the actual one. */
  lemma {:induction false} DrainSteps(cfg: Config, s: State) returns (steps: seq<Step>)
    ensures forall i :: 0 <= i < |steps| ==> steps[i] == Consume
    ensures Run(cfg, s, steps).Some?
    ensures var t := Run(cfg, s, steps).value; t.initial == [] && t.queue == [] && t.pool == Drained(s)
    ensures var t := Run(cfg, s, steps).value; t.health == s.health && t.rate == s.rate
    decreases |s.initial| + |s.queue|
  {
    if s.initial == [] && s.queue == [] {
      steps := [];
    } else {
      var t := Apply(cfg, s, Consume);
      var rest := DrainSteps(cfg, t);
      steps := [Consume] + rest;
      assert steps[1..] == rest;
      ConsumeKeepsDrained(cfg, s);
    }
  }

  // ---------- Timers ----------

  lemma {:induction false} WaitCovers(sent: seq<Sent>, i: nat)
    requires i < |sent| && sent[i].who.RateLimit? && sent[i].change.Remove?
    ensures sent[i].at + HoldMs(sent[i].retryAfter) <= WaitUntil(sent, sent[i].change.key)
  {
    if i < |sent| - 1 {
      WaitCovers(sent[..|sent| - 1], i);
    }
  }

  lemma {:induction false} PunctualPairs(sent: seq<Sent>, i: nat, j: nat)
    requires Punctual(sent) && i < j < |sent|
    requires sent[i].who.RateLimit? && sent[j].who.RateLimit?
    requires sent[i].change.Remove? && sent[j].change == Insert(sent[i].change.key)
    ensures sent[i].at + HoldMs(sent[i].retryAfter) <= sent[j].at
  {
    var front := sent[..|sent| - 1];
    if j < |sent| - 1 {
      PunctualPairs(front, i, j);
    } else {
      WaitCovers(front, i);
    }
  }

  /** No rate-limit insert comes sooner after a removal of its key than retry-after plus 30 s, or 60 s without one. */
  lemma NoEarlyRestore(cfg: Config, order: seq<Key>, steps: seq<Step>, i: nat, j: nat)
    requires Lists(order, cfg.configured) && Run(cfg, Start(order), steps).Some?
    requires var sent := Run(cfg, Start(order), steps).value.sent;
      && i < j < |sent| && sent[i].who.RateLimit? && sent[j].who.RateLimit?
      && sent[i].change.Remove? && sent[j].change == Insert(sent[i].change.key)
    ensures var sent := Run(cfg, Start(order), steps).value.sent;
      match sent[i].retryAfter
      case Some(seconds) => sent[j].at >= sent[i].at + 1000 * seconds + 30_000
      case None => sent[j].at >= sent[i].at + 60_000
  {
    Reachable(cfg, order, steps);
    PunctualPairs(Run(cfg, Start(order), steps).value.sent, i, j);
  }

  /** Restores and removals match one to one, and a graceful exit leaves nothing removed. */
  lemma TimersMatch(cfg: Config, order: seq<Key>, steps: seq<Step>)
    requires Lists(order, cfg.configured) && Run(cfg, Start(order), steps).Some?
    ensures var r := Run(cfg, Start(order), steps).value.rate;
      && OnePerKey(r.pending)
      && PendingKeys(r.pending) == r.limited - InRestore(r)
      && (r.pc.RateDone? ==> r.limited == {} && r.pending == [])
      && (r.pc.RateDone? ==> forall k :: !Holds(Run(cfg, Start(order), steps).value.sent, RateLimit, k))
  {
    Reachable(cfg, order, steps);
    NoKeysNoTimers(Run(cfg, Start(order), steps).value.rate.pending);
  }

  // ---------- Alternation ----------

  /** Two changes of one monitor about one key. */
  predicate SameLine(a: Sent, b: Sent)
  {
    a.who == b.who && a.change.key == b.change.key
  }

  lemma {:induction false} AlternatingAt(sent: seq<Sent>, j: nat)
    requires Alternating(sent) && j < |sent|
    ensures sent[j].change.Insert? <==> Holds(sent[..j], sent[j].who, sent[j].change.key)
  {
    if j < |sent| - 1 {
      var front := sent[..|sent| - 1];
      AlternatingAt(front, j);
      assert front[..j] == sent[..j];
    }
  }

  lemma {:induction false} UnnamedNotHeld(sent: seq<Sent>, e: Sent)
    requires forall i :: 0 <= i < |sent| ==> !SameLine(sent[i], e)
    ensures !Holds(sent, e.who, e.change.key)
  {
    if sent != [] {
      UnnamedNotHeld(sent[..|sent| - 1], e);
    }
  }

  /** Holding is decided by the latest change of that monitor about that key. */
  lemma {:induction false} LatestDecides(sent: seq<Sent>, e: Sent, i: nat)
    requires i < |sent| && SameLine(sent[i], e) && forall m :: i < m < |sent| ==> !SameLine(sent[m], e)
    ensures Holds(sent, e.who, e.change.key) <==> sent[i].change.Remove?
  {
    if i < |sent| - 1 {
      assert !SameLine(sent[|sent| - 1], e);
      LatestDecides(sent[..|sent| - 1], e, i);
    }
  }

  /** The change at `j` is a removal if it is the first of its line, and otherwise differs from the one before. */
  ghost predicate AlternatesAt(sent: seq<Sent>, j: nat)
    requires j < |sent|
  {
    && ((forall i :: 0 <= i < j ==> !SameLine(sent[i], sent[j])) ==> sent[j].change.Remove?)
    && (forall i :: 0 <= i < j && SameLine(sent[i], sent[j]) && (forall m :: i < m < j ==> !SameLine(sent[m], sent[j])) ==>
          sent[i].change != sent[j].change)
  }

  lemma AlternatingMeans(sent: seq<Sent>, j: nat)
    requires Alternating(sent) && j < |sent|
    ensures AlternatesAt(sent, j)
  {
    var before := sent[..j];
    AlternatingAt(sent, j);
    if forall i :: 0 <= i < j ==> !SameLine(sent[i], sent[j]) {
      UnnamedNotHeld(before, sent[j]);
    }
    forall i | 0 <= i < j && SameLine(sent[i], sent[j]) && (forall m :: i < m < j ==> !SameLine(sent[m], sent[j]))
      ensures sent[i].change != sent[j].change
    {
      LatestDecides(before, sent[j], i);
    }
  }

  /** In every run, each monitor's changes about a key alternate, beginning with a removal. */
  lemma ChangesAlternate(cfg: Config, order: seq<Key>, steps: seq<Step>, j: nat)
    requires Lists(order, cfg.configured) && Run(cfg, Start(order), steps).Some?
    requires j < |Run(cfg, Start(order), steps).value.sent|
    ensures AlternatesAt(Run(cfg, Start(order), steps).value.sent, j)
  {
    Reachable(cfg, order, steps);
    AlternatingMeans(Run(cfg, Start(order), steps).value.sent, j);
  }

  /** An event stops the monitor exactly if its strategy is weighted and it names no configured key. */
  lemma RefusesStrangers(cfg: Config, s: State, k: Key, retryAfter: Option<nat>)
    requires Enabled(cfg, s, RateEvent(k, retryAfter))
    ensures Apply(cfg, s, RateEvent(k, retryAfter)).rate.pc.RateRefused? <==> cfg.strategy.Weighted? && k !in cfg.configured
  {
  }

  /** In every run the channel holds at most 16 changes. */
  lemma ChannelBounded(cfg: Config, order: seq<Key>, steps: seq<Step>)
    requires Lists(order, cfg.configured) && Run(cfg, Start(order), steps).Some?
    ensures |Run(cfg, Start(order), steps).value.queue| <= 16
  {
    Reachable(cfg, order, steps);
  }

  // ---------- What is not true ----------

  /** Rate limited once, then restored when the default wait and the buffer are over. */
  function OutAndBack(k: Key): seq<Step>
  {
    [RateEvent(k, None), RateSends, RateNotes, Tick(60_000), RateTimer(0), RateSends, RateNotes]
  }

  lemma RunCons(cfg: Config, s: State, step: Step, rest: seq<Step>)
    requires Enabled(cfg, s, step)
    ensures Run(cfg, s, [step] + rest) == Run(cfg, Apply(cfg, s, step), rest)
  {
  }

  lemma {:induction false} RunConcat(cfg: Config, s: State, a: seq<Step>, b: seq<Step>)
    requires Run(cfg, s, a).Some?
    ensures Run(cfg, s, a + b) == Run(cfg, Run(cfg, s, a).value, b)
    decreases |a|
  {
    if a == [] {
      assert a + b == b;
    } else {
      RunConcat(cfg, Apply(cfg, s, a[0]), a[1..], b);
      assert (a + b)[1..] == a[1..] + b;
    }
  }

  lemma RunTwo(cfg: Config, s: State, a: Step, b: Step)
    requires Enabled(cfg, s, a) && Enabled(cfg, Apply(cfg, s, a), b)
    ensures Run(cfg, s, [a, b]) == Some(Apply(cfg, Apply(cfg, s, a), b))
  {
    RunCons(cfg, s, a, [b]);
    RunCons(cfg, Apply(cfg, s, a), b, []);
    assert [a] + [b] == [a, b] && [b] + [] == [b];
  }

  /** An event handled at once: the removal is sent, and its restore is due after retry-after plus 30 s, or 60 s. */
  lemma OutSteps(cfg: Config, s: State, k: Key, retryAfter: Option<nat>)
    requires s.rate.pc.RateIdle? && !s.rate.closed && k !in s.rate.limited && |s.queue| < 16
    requires cfg.strategy.Weighted? ==> k in cfg.configured
    ensures var r, due := s.rate, s.now + match retryAfter case Some(seconds) => 1000 * seconds + 30_000 case None => 60_000;
      Run(cfg, s, [RateEvent(k, retryAfter), RateSends, RateNotes]) ==
        Some(Emit(s, Sent(RateLimit, Remove(k), s.now, retryAfter)).(
               rate := RateState(r.limited + {k}, r.pending + [Restore(k, due)], RateIdle, false)))
  {
    var named := Apply(cfg, s, RateEvent(k, retryAfter));
    RunTwo(cfg, named, RateSends, RateNotes);
    RunCons(cfg, s, RateEvent(k, retryAfter), [RateSends, RateNotes]);
    assert [RateEvent(k, retryAfter)] + [RateSends, RateNotes] == [RateEvent(k, retryAfter), RateSends, RateNotes];
  }

  /** The restore of such an event can fire as soon as that time is over, and not before. */
  lemma RestoreExactly(cfg: Config, s: State, k: Key, retryAfter: Option<nat>, wait: nat)
    requires s.rate.pc.RateIdle? && !s.rate.closed && k !in s.rate.limited && |s.queue| < 16
    requires cfg.strategy.Weighted? ==> k in cfg.configured
    ensures Run(cfg, s, [RateEvent(k, retryAfter), RateSends, RateNotes] + [Tick(wait), RateTimer(|s.rate.pending|)]).Some? <==>
      wait >= match retryAfter case Some(seconds) => 1000 * seconds + 30_000 case None => 60_000
  {
    var out, i := [RateEvent(k, retryAfter), RateSends, RateNotes], |s.rate.pending|;
    OutSteps(cfg, s, k, retryAfter);
    RunConcat(cfg, s, out, [Tick(wait), RateTimer(i)]);
    var m := Run(cfg, s, out).value;
    var late := Apply(cfg, m, Tick(wait));
    RunCons(cfg, m, Tick(wait), [RateTimer(i)]);
    assert [Tick(wait)] + [RateTimer(i)] == [Tick(wait), RateTimer(i)];
    assert late.rate.pending[i].key == k;
    if Enabled(cfg, late, RateTimer(i)) {
      RunCons(cfg, late, RateTimer(i), []);
      assert [RateTimer(i)] + [] == [RateTimer(i)];
    }
  }

  /** A timer that has fired, with its key then sent and forgotten. */
  lemma FiredSteps(cfg: Config, s: State, k: Key)
    requires s.rate == RateState({k}, [], RateRestoring(k), false) && |s.queue| < CHANNEL_CAPACITY
    ensures Run(cfg, s, [RateSends, RateNotes]) ==
      Some(Emit(s, Sent(RateLimit, Insert(k), s.now, None)).(rate := RateState({}, [], RateIdle, false)))
  {
    RunTwo(cfg, s, RateSends, RateNotes);
    assert Apply(cfg, Apply(cfg, s, RateSends), RateNotes).rate.limited == {};
  }

  lemma BackSteps(cfg: Config, s: State, k: Key)
    requires s.rate == RateState({k}, [Restore(k, s.now + 60_000)], RateIdle, false) && |s.queue| < CHANNEL_CAPACITY
    ensures var late := s.(now := s.now + 60_000);
      Run(cfg, s, [Tick(60_000), RateTimer(0)] + [RateSends, RateNotes]) ==
        Some(Emit(late, Sent(RateLimit, Insert(k), late.now, None)).(rate := RateState({}, [], RateIdle, false)))
  {
    var fired := Apply(cfg, Apply(cfg, s, Tick(60_000)), RateTimer(0));
    assert fired.rate.pending == [];
    RunTwo(cfg, s, Tick(60_000), RateTimer(0));
    FiredSteps(cfg, fired, k);
    RunConcat(cfg, s, [Tick(60_000), RateTimer(0)], [RateSends, RateNotes]);
  }

  lemma OutAndBackReturns(cfg: Config, s: State, k: Key)
    requires s.rate == RateState({}, [], RateIdle, false) && |s.queue| < CHANNEL_CAPACITY - 1
    requires cfg.strategy.Weighted? ==> k in cfg.configured
    ensures Run(cfg, s, OutAndBack(k)).Some?
    ensures var t := Run(cfg, s, OutAndBack(k)).value;
      k in Drained(t) && t.health == s.health && t.rate == s.rate
  {
    var out, back := [RateEvent(k, None), RateSends, RateNotes], [Tick(60_000), RateTimer(0)] + [RateSends, RateNotes];
    OutSteps(cfg, s, k, None);
    var m := Run(cfg, s, out).value;
    assert m.rate.limited == {k} && m.rate.pending == [Restore(k, s.now + 60_000)];
    BackSteps(cfg, m, k);
    RunConcat(cfg, s, out, back);
    assert out + back == OutAndBack(k);
    ReplayConcat(s.pool + KeySet(s.initial), m.queue, [Insert(k)]);
  }

  lemma HealthRemovesSteps(cfg: Config, s: State, k: Key)
    requires s.health == HealthState({}, HealthIdle) && k in cfg.configured && |s.queue| < CHANNEL_CAPACITY
    ensures Run(cfg, s, [HealthFinds(k, false), HealthSends, HealthNotes]) ==
      Some(Emit(s, Sent(Health, Remove(k), s.now, None)).(health := HealthState({k}, HealthIdle)))
  {
    var found := Apply(cfg, s, HealthFinds(k, false));
    RunTwo(cfg, found, HealthSends, HealthNotes);
    RunCons(cfg, s, HealthFinds(k, false), [HealthSends, HealthNotes]);
    assert [HealthFinds(k, false)] + [HealthSends, HealthNotes] == [HealthFinds(k, false), HealthSends, HealthNotes];
    assert Apply(cfg, Apply(cfg, found, HealthSends), HealthNotes).health.unhealthy == {k};
  }

  /**
    The pool is not simply "configured minus held": for every configured key there is a run in which the balancer
    first takes up every service and which ends, with nothing on its way and both monitors at rest, with the key
    in the pool although the health monitor still holds it.
   */
  lemma HeldYetInPool(cfg: Config, order: seq<Key>, k: Key) returns (steps: seq<Step>, n: nat)
    requires Lists(order, cfg.configured) && k in cfg.configured
    ensures n <= |steps| && forall i :: 0 <= i < n ==> steps[i] == Consume
    ensures Run(cfg, Start(order), steps[..n]).Some? && Run(cfg, Start(order), steps[..n]).value.pool == cfg.configured
    ensures Run(cfg, Start(order), steps).Some?
    ensures var s := Run(cfg, Start(order), steps).value;
      Quiet(s) && s.initial == [] && s.queue == [] && k in s.health.unhealthy && k in s.pool
  {
    var first := DrainSteps(cfg, Start(order));
    assert Drained(Start(order)) == cfg.configured;
    var removal := [HealthFinds(k, false), HealthSends, HealthNotes];
    var s1 := Run(cfg, Start(order), first).value;
    HealthRemovesSteps(cfg, s1, k);
    var s2 := Run(cfg, s1, removal).value;
    OutAndBackReturns(cfg, s2, k);
    var s3 := Run(cfg, s2, OutAndBack(k)).value;
    var last := DrainSteps(cfg, s3);
    RunConcat(cfg, s2, OutAndBack(k), last);
    RunConcat(cfg, s1, removal, OutAndBack(k) + last);
    RunConcat(cfg, Start(order), first, removal + (OutAndBack(k) + last));
    steps, n := first + (removal + (OutAndBack(k) + last)), |first|;
    assert steps[..n] == first;
  }

  /**
    Under the latency strategy the upper bound needs every rate-limit event to name a configured key: any
    other key could be taken into the pool. The dispatchers that send the events name their own provider.
   */
  lemma StrangerEntersPool(configured: set<Key>, order: seq<Key>, k: Key)
    requires Lists(order, configured) && k !in configured
    ensures var cfg := Config(Latency, configured);
      Run(cfg, Start(order), OutAndBack(k)).Some? && k in Drained(Run(cfg, Start(order), OutAndBack(k)).value)
  {
    OutAndBackReturns(Config(Latency, configured), Start(order), k);
  }

  /** ... and that condition is enough: the pool holds only configured keys and keys some event named. */
  lemma PoolNamesOnly(cfg: Config, order: seq<Key>, steps: seq<Step>, k: Key)
    requires Lists(order, cfg.configured) && Run(cfg, Start(order), steps).Some?
    requires k in Drained(Run(cfg, Start(order), steps).value)
    ensures k in cfg.configured || exists i :: 0 <= i < |steps| && steps[i].RateEvent? && steps[i].k == k
  {
    Reachable(cfg, order, steps);
    HoldersDecide(cfg.configured, Run(cfg, Start(order), steps).value.sent, k);
    if k !in cfg.configured && forall i :: 0 <= i < |steps| && steps[i].RateEvent? ==> steps[i].k != k {
      NeverNamed(cfg, Start(order), steps, k);
    }
  }

  lemma {:induction false} NeverNamed(cfg: Config, s: State, steps: seq<Step>, k: Key)
    requires Run(cfg, s, steps).Some? && k !in cfg.configured
    requires forall i :: 0 <= i < |steps| && steps[i].RateEvent? ==> steps[i].k != k
    requires Unnamed(cfg, s, k)
    ensures forall e :: e in Run(cfg, s, steps).value.sent ==> e.change.key != k
    decreases |steps|
  {
    if steps != [] {
      var t := Apply(cfg, s, steps[0]);
      if steps[0].RateTimer? {
        assert s.rate.pending[steps[0].i] in s.rate.pending;
      }
      assert Unnamed(cfg, t, k);
      NeverNamed(cfg, t, steps[1..], k);
    }
  }

  ghost predicate Unnamed(cfg: Config, s: State, k: Key)
  {
    && (forall e :: e in s.sent ==> e.change.key != k)
    && (forall p :: p in s.rate.pending ==> p.key != k)
    && (!s.health.pc.HealthIdle? ==> s.health.pc.k in cfg.configured)
    && s.health.unhealthy <= cfg.configured
    && (!(s.rate.pc.RateIdle? || s.rate.pc.RateRefused? || s.rate.pc.RateDone?) ==> s.rate.pc.k != k)
  }

  // ---------- Recovery ----------

  /** Neither monitor has stopped on an error. */
  ghost predicate Alive(s: State)
  {
    !s.health.pc.HealthFailed? && !s.rate.pc.RateFailed? && !s.rate.pc.RateRefused?
  }

  /** Nothing goes wrong any more: no new limits, no failing checks, no failing dispatchers. */
  predicate Benign(step: Step)
  {
    match step
    case HealthFinds(_, healthy) => healthy
    case Tick(_) => true
    case RateTimer(_) => true
    case _ => step in {Consume, HealthSends, HealthNotes, RateSends, RateNotes}
  }

  /** Nothing is on its way, nothing is held, and no timer runs. */
  ghost predicate Recovered(s: State)
  {
    && s.initial == [] && s.queue == [] && s.health == HealthState({}, HealthIdle)
    && (s.rate.pc.RateIdle? || s.rate.pc.RateDone?) && s.rate.pending == []
  }

  /** How far the health monitor is from holding nothing, counting a step of the balancer per change to send. */
  ghost function HealthToDo(h: HealthState): nat
  {
    3 * |h.unhealthy| +
    match h.pc
    case HealthRemoving(_) => 6
    case HealthRemoved(_) => 4
    case HealthRestoring(_) => 2
    case _ => 0
  }

  ghost function RateToDo(r: RateState, now: nat): nat
  {
    5 * |r.pending| + (if r.pending != [] && r.pending[0].due > now then 1 else 0) +
    match r.pc
    case RateRemoving(_, _) => 9
    case RateRemoved(_, _) => 7
    case RateRestoring(_) => 3
    case RateRestored(_) => 1
    case _ => 0
  }

  ghost function ToDo(s: State): nat
  {
    |s.initial| + |s.queue| + HealthToDo(s.health) + RateToDo(s.rate, s.now)
  }

  /** What a monitor can do next, once the channel is empty. */
  lemma HealthMoves(cfg: Config, s: State) returns (step: Step)
    requires HealthInv(cfg, s.health, s.sent) && Alive(s) && s.queue == [] && s.health != HealthState({}, HealthIdle)
    ensures Enabled(cfg, s, step) && Benign(step) && (step.HealthFinds? || step.HealthSends? || step.HealthNotes?)
    ensures ToDo(Apply(cfg, s, step)) < ToDo(s)
  {
    match s.health.pc
    case HealthIdle =>
      var k :| k in s.health.unhealthy;
      step := HealthFinds(k, true);
    case HealthRemoved(_) => step := HealthNotes;
    case _ => step := HealthSends;
  }

  lemma RateMoves(cfg: Config, s: State) returns (step: Step)
    requires TimersInv(s.rate) && Alive(s) && s.queue == []
    requires !s.rate.pc.RateDone? && (s.rate.pc.RateIdle? ==> s.rate.pending != [])
    ensures Enabled(cfg, s, step) && Benign(step)
    ensures step.RateSends? || step.RateNotes? || step.RateTimer? || step.Tick?
    ensures ToDo(Apply(cfg, s, step)) < ToDo(s)
  {
    match s.rate.pc
    case RateIdle =>
      var due := s.rate.pending[0].due;
      step := if due <= s.now then RateTimer(0) else Tick(due - s.now);
    case RateRemoved(_, _) => step := RateNotes;
    case RateRestored(_) => step := RateNotes;
    case _ => step := RateSends;
  }

  lemma NoKeysNoTimers(pending: seq<Restore>)
    ensures PendingKeys(pending) == {} ==> pending == []
  {
    if pending != [] {
      assert pending[0].key in PendingKeys(pending);
    }
  }

  /** A full channel never blocks: from every state that has not recovered some benign step leads closer. */
  lemma SomeMove(cfg: Config, s: State) returns (step: Step)
    requires Inv(cfg, s) && Alive(s) && !Recovered(s)
    ensures Enabled(cfg, s, step) && Benign(step) && Alive(Apply(cfg, s, step))
    ensures ToDo(Apply(cfg, s, step)) < ToDo(s)
  {
    if s.initial != [] || s.queue != [] {
      step := Consume;
    } else if s.health != HealthState({}, HealthIdle) {
      step := HealthMoves(cfg, s);
    } else {
      NoKeysNoTimers(s.rate.pending);
      step := RateMoves(cfg, s);
    }
  }

  lemma {:induction false} RecoverySteps(cfg: Config, s: State) returns (more: seq<Step>)
    requires Inv(cfg, s) && Alive(s)
    ensures forall i :: 0 <= i < |more| ==> Benign(more[i])
    ensures Run(cfg, s, more).Some? && Recovered(Run(cfg, s, more).value)
    decreases ToDo(s)
  {
    more := [];
    if !Recovered(s) {
      var step := SomeMove(cfg, s);
      StepKeepsInv(cfg, s, step);
      var rest := RecoverySteps(cfg, Apply(cfg, s, step));
      RunCons(cfg, s, step, rest);
      more := [step] + rest;
    }
  }

  /**
    No provider is lost for good: every run in which no monitor has stopped on an error can be continued so that,
    once everything is consumed, every configured provider is in the pool, and nothing else if events name
    configured keys.
   */
  lemma NothingLostForGood(cfg: Config, order: seq<Key>, steps: seq<Step>) returns (more: seq<Step>)
    requires Lists(order, cfg.configured) && Run(cfg, Start(order), steps).Some?
    requires Alive(Run(cfg, Start(order), steps).value)
    ensures forall i :: 0 <= i < |more| ==> Benign(more[i])
    ensures Run(cfg, Start(order), steps + more).Some?
    ensures var s := Run(cfg, Start(order), steps + more).value;
      Recovered(s) && cfg.configured <= s.pool && (EventsConfigured(cfg, steps) ==> s.pool == cfg.configured)
  {
    Reachable(cfg, order, steps);
    more := RecoverySteps(cfg, Run(cfg, Start(order), steps).value);
    RunConcat(cfg, Start(order), steps, more);
    assert EventsConfigured(cfg, steps) ==> EventsConfigured(cfg, steps + more);
    RecoveredPool(cfg, order, steps + more);
  }

  lemma RecoveredPool(cfg: Config, order: seq<Key>, steps: seq<Step>)
    requires Lists(order, cfg.configured) && Run(cfg, Start(order), steps).Some?
    requires Recovered(Run(cfg, Start(order), steps).value)
    ensures var s := Run(cfg, Start(order), steps).value;
      cfg.configured <= s.pool && (EventsConfigured(cfg, steps) ==> s.pool == cfg.configured)
  {
    Reachable(cfg, order, steps);
    Sandwich(cfg, order, steps);
    var s := Run(cfg, Start(order), steps).value;
    assert PendingKeys(s.rate.pending) == {} && KeySet(s.initial) == {};
  }

  /** From a recovered state in which the rate-limit monitor still listens, closing its events lets it exit. */
  lemma CanExit(cfg: Config, s: State)
    requires Recovered(s) && s.rate.pc.RateIdle?
    ensures Run(cfg, s, [CloseEvents, RateExits]).Some?
    ensures var t := Run(cfg, s, [CloseEvents, RateExits]).value; t.rate.pc.RateDone? && t.pool == s.pool
  {
    RunTwo(cfg, s, CloseEvents, RateExits);
  }
}
