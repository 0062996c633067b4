/**
  The weighted balancer: it drains its discovery stream, promotes services that became ready, picks one of
  them and sends the next request to it. The cache of services and the sampler belong to libraries; their
  classes here state the contract the balancer relies on, with every choice of theirs left open.
 */
module WeightedBalance {
  import opened Wrappers
  import opened Changes
  import ProviderPool

  function Inserts(keys: seq<Key>): (log: seq<Change>)
    ensures |log| == |keys| && forall i :: 0 <= i < |log| ==> log[i] == Insert(keys[i])
  {
    seq(|keys|, i requires 0 <= i < |keys| => Insert(keys[i]))
  }

  // ---------- Discovery ----------

  datatype DiscoverPoll = Changed(change: Change) | Waiting | Ended

  /** The configured services, each yielded once, and then the live changes from the channel. */
  class ConfigDiscovery {
    var initial: seq<Key>
    var events: seq<Change>
    var closed: bool

    ghost function Remaining(): seq<Change>
      reads this
    {
      Inserts(initial) + events
    }

    constructor (services: seq<Key>)
      ensures initial == services && events == [] && !closed
    {
      initial, events, closed := services, [], false;
    }

    method PollNext() returns (p: DiscoverPoll)
      modifies this
      ensures closed == old(closed)
      ensures old(Remaining()) == [] ==> unchanged(this) && p == if closed then Ended else Waiting
      ensures old(Remaining()) != [] ==> p == Changed(old(Remaining())[0]) && Remaining() == old(Remaining())[1..]
    {
      if initial != [] {
        p := Changed(Insert(initial[0]));
        initial := initial[1..];
        assert Remaining() == old(Remaining())[1..];
      } else if events != [] {
        p := Changed(events[0]);
        events := events[1..];
        assert Remaining() == old(Remaining())[1..];
      } else if closed {
        p := Ended;
      } else {
        p := Waiting;
      }
    }
  }

  // ---------- The cache of services ----------

  function SwapRemove(s: seq<Key>, i: nat): seq<Key>
    requires i < |s|
  {
    s[i := s[|s| - 1]][..|s| - 1]
  }

  lemma SwapRemoveKeys(s: seq<Key>, i: nat)
    requires Distinct(s) && i < |s|
    ensures Distinct(SwapRemove(s, i)) && KeySet(SwapRemove(s, i)) == KeySet(s) - {s[i]}
  {
    var t := SwapRemove(s, i);
    forall j | 0 <= j < |s| && j != i ensures s[j] in KeySet(t) {
      assert t[if j == |s| - 1 then i else j] == s[j];
    }
  }

  /** An index kept across an eviction names the same service exactly if it was neither the evicted one's nor the last. */
  lemma KeptIndex(s: seq<Key>, i: nat, j: nat)
    requires Distinct(s) && i < |s| && j < |s|
    ensures j < |SwapRemove(s, i)| && SwapRemove(s, i)[j] == s[j] <==> j != i && j != |s| - 1
  {
  }

  datatype PendingPoll = NonePending | StillPending | PendingFailed
  datatype ReadyCheck = StillReady | NotReady | ReadyFailed

  class ReadyCache {
    var ready: seq<Key>       // in index order
    var pending: set<Key>
    var willing: set<Key>     // keys whose services answer that they are ready
    var failing: set<Key>     // keys whose services answer with an error
    ghost var lost: set<Key>  // dropped because the service failed

    ghost predicate Valid()
      reads this
    {
      Distinct(ready) && lost !! KeySet(ready) + pending && willing !! failing
    }

    ghost function Tracked(): set<Key>
      reads this
    {
      KeySet(ready) + pending
    }

    constructor ()
      ensures Valid() && ready == [] && pending == {} && lost == {}
    {
      ready, pending, willing, failing, lost := [], {}, {}, {}, {};
      new;
      assert KeySet([]) == {};
    }

    method Push(k: Key)
      requires Valid()
      modifies this`pending, this`lost
      ensures Valid() && pending == old(pending) + {k} && lost == old(lost) - {k}
    {
      pending, lost := pending + {k}, lost - {k};
    }

    /** Removes the key everywhere; the last ready service takes the place of a removed one. */
    method Evict(k: Key)
      requires Valid()
      modifies this`ready, this`pending, this`lost
      ensures Valid() && k !in Tracked() && k !in lost
      ensures Tracked() == old(Tracked()) - {k} && lost == old(lost) - {k}
    {
      pending, lost := pending - {k}, lost - {k};
      if i :| 0 <= i < |ready| && ready[i] == k {
        SwapRemoveKeys(ready, i);
        ready := SwapRemove(ready, i);
      }
    }

    /** Pending services that answer become ready, in any order, until one fails or none is left that answers. */
    method PollPending() returns (p: PendingPoll)
      requires Valid()
      modifies this`ready, this`pending, this`lost
      ensures Valid() && Tracked() + lost == old(Tracked() + lost) && old(lost) <= lost <= old(lost) + failing
      ensures pending <= old(pending) && KeySet(ready) <= old(KeySet(ready)) + willing
      ensures p.PendingFailed? ==> pending < old(pending)
      ensures !p.PendingFailed? ==> pending !! willing + failing && (p.NonePending? <==> pending == {})
    {
      while pending * (willing + failing) != {}
        invariant Valid() && Tracked() + lost == old(Tracked() + lost) && old(lost) <= lost <= old(lost) + failing
        invariant pending <= old(pending) && KeySet(ready) <= old(KeySet(ready)) + willing
        decreases pending
      {
        var k :| k in pending * (willing + failing);
        pending := pending - {k};
        if k in failing {
          if k !in KeySet(ready) {
            lost := lost + {k};
          }
          return PendingFailed;
        }
        if k !in ready {
          ghost var before := ready;
          ready := ready + [k];
          assert KeySet(ready) == KeySet(before) + {k};
        }
      }
      assert forall k :: k in pending && k in willing + failing ==> k in pending * (willing + failing);
      p := if pending == {} then NonePending else StillPending;
    }

    /** A service that no longer answers leaves the ready list; an index out of range changes nothing. */
    method CheckReadyIndex(i: nat) returns (c: ReadyCheck)
      requires Valid()
      modifies this`ready, this`pending, this`lost
      ensures Valid() && Tracked() + lost == old(Tracked() + lost) && old(lost) <= lost <= old(lost) + failing
      ensures c.StillReady? <==> i < |old(ready)| && old(ready)[i] in willing
      ensures c.StillReady? || i >= |old(ready)| ==> unchanged(this)
      ensures !c.StillReady? && i < |old(ready)| ==>
        ready == SwapRemove(old(ready), i) && pending == old(pending) + ({old(ready)[i]} - failing)
    {
      if i >= |ready| {
        return NotReady;
      }
      var k := ready[i];
      if k in willing {
        return StillReady;
      }
      SwapRemoveKeys(ready, i);
      assert k in KeySet(ready);
      ready := SwapRemove(ready, i);
      if k in failing {
        if k !in pending {
          lost := lost + {k};
        }
        return ReadyFailed;
      }
      pending := pending + {k};
      return NotReady;
    }

    /** Sends a request to a ready service, which then has to become ready again. */
    method CallReadyIndex(i: nat) returns (k: Key)
      requires Valid() && i < |ready|
      modifies this`ready, this`pending
      ensures Valid() && k == old(ready)[i] && Tracked() == old(Tracked())
      ensures ready == SwapRemove(old(ready), i) && pending == old(pending) + {k}
    {
      k := ready[i];
      SwapRemoveKeys(ready, i);
      assert k in KeySet(ready);
      ready := SwapRemove(ready, i);
      pending := pending + {k};
    }
  }

  // ---------- The balancer ----------

  datatype ReadyPoll = Ready | Pending | SampleFailed

  class Balance {
    const discover: ConfigDiscovery
    const services: ReadyCache
    var readyIndex: Option<nat>
    ghost var consumed: seq<Change>  // every change taken from discovery so far

    /** What is cached, together with what was dropped for failing, is what discovery says is there. */
    ghost predicate Valid()
      reads this, services
    {
      services.Valid() && services.Tracked() + services.lost == Replay({}, consumed)
    }

    constructor (discover: ConfigDiscovery)
      ensures Valid() && this.discover == discover && fresh(services) && readyIndex == None && consumed == []
    {
      this.discover := discover;
      services := new ReadyCache();
      readyIndex, consumed := None, [];
      new;
      assert KeySet([]) == {};
    }

    /** Evicts a removed key, or adds an inserted one to the pending services. */
    method TakeChange(change: Change)
      requires Valid()
      modifies services`ready, services`pending, services`lost, this`consumed
      ensures Valid() && consumed == old(consumed) + [change] && services.lost <= old(services.lost)
    {
      consumed := consumed + [change];
      assert consumed[..|consumed| - 1] == old(consumed);
      match change {
        case Remove(k) => services.Evict(k);
        case Insert(k) => services.Push(k);
      }
    }

    /** Takes every change that is waiting. */
    method UpdatePendingFromDiscover()
      requires Valid()
      modifies services`ready, services`pending, services`lost, discover, this`consumed
      ensures Valid() && services.lost <= old(services.lost)
      ensures consumed == old(consumed) + old(discover.Remaining()) && discover.Remaining() == []
    {
      while true
        invariant Valid() && services.lost <= old(services.lost)
        invariant consumed + discover.Remaining() == old(consumed) + old(discover.Remaining())
        decreases |discover.Remaining()|
      {
        ghost var before, rest := consumed, discover.Remaining();
        var p := discover.PollNext();
        match p {
          case Waiting => return;
          case Ended => return;
          case Changed(change) =>
            ghost var left := discover.Remaining();
            assert rest == [change] + left;
            assert before + rest == (before + [change]) + left;
            TakeChange(change);
        }
      }
    }

    /** Afterwards no pending service is left that would answer. */
    method PromotePendingToReady()
      requires Valid()
      modifies services`ready, services`pending, services`lost
      ensures Valid() && old(services.lost) <= services.lost <= old(services.lost) + services.failing
      ensures services.pending !! services.willing + services.failing
    {
      while true
        invariant Valid() && old(services.lost) <= services.lost <= old(services.lost) + services.failing
        decreases services.pending
      {
        var p := services.PollPending();
        match p {
          case NonePending => break;
          case StillPending => break;
          case PendingFailed =>
        }
      }
    }

    /** Picks a ready service; with more than one the sampler may choose any of them, or fail. */
    method ReadyIndex() returns (r: Result<Option<nat>, ()>)
      ensures r.Ok? ==> (r.value.None? <==> services.ready == [])
      ensures r.Ok? && r.value.Some? ==> r.value.value < |services.ready|
      ensures r.Err? ==> |services.ready| > 1
    {
      if |services.ready| == 0 {
        return Ok(None);
      }
      if |services.ready| == 1 {
        return Ok(Some(0));
      }
      var fails: bool := *;
      if fails {
        return Err(());
      }
      var chosen: nat :| chosen < |services.ready|;
      return Ok(Some(chosen));
    }

    /**
      Finds a ready service. Discovery is drained first, and a choice made earlier is checked again. Waiting means
      that no service answers at all, and a service chosen does; only failing ones are dropped.
     */
    method PollReady() returns (p: ReadyPoll)
      requires Valid()
      modifies services`ready, services`pending, services`lost, discover, this
      ensures Valid() && services.lost <= old(services.lost) + services.failing
      ensures consumed == old(consumed) + old(discover.Remaining()) && discover.Remaining() == []
      ensures p.Ready? ==>
        readyIndex.Some? && readyIndex.value < |services.ready| && services.ready[readyIndex.value] in services.willing
      ensures p.Pending? ==> services.ready == [] && readyIndex.None? && services.Tracked() !! services.willing
      ensures p.SampleFailed? ==> |services.ready| > 1 && readyIndex.None?
    {
      UpdatePendingFromDiscover();
      PromotePendingToReady();
      while true
        invariant Valid() && consumed == old(consumed) + old(discover.Remaining()) && discover.Remaining() == []
        invariant services.lost <= old(services.lost) + services.failing
        invariant services.pending !! services.willing + services.failing
        decreases |services.ready|, if readyIndex.Some? && readyIndex.value < |services.ready| then 0 else 1
      {
        if readyIndex.Some? {
          var index := readyIndex.value;
          readyIndex := None;
          var c := services.CheckReadyIndex(index);
          if c.StillReady? {
            readyIndex := Some(index);
            return Ready;
          }
        }
        var choice := ReadyIndex();
        if choice.Err? {
          return SampleFailed;
        }
        readyIndex := choice.value;
        if readyIndex.None? {
          assert KeySet([]) == {};
          return Pending;
        }
      }
    }

    /** Sends a request to the chosen service: one that discovery has inserted and not removed since. */
    method Call() returns (k: Key)
      requires Valid() && readyIndex.Some? && readyIndex.value < |services.ready|
      modifies services`ready, services`pending, this`readyIndex
      ensures Valid() && readyIndex.None?
      ensures k == old(services.ready)[old(readyIndex).value]
      ensures IsLatest(consumed, Insert(k)) && !IsLatest(consumed, Remove(k))
    {
      var index := readyIndex.value;
      readyIndex := None;
      k := services.CallReadyIndex(index);
      assert k in Replay({}, consumed);
      ReplayIsLatest({}, consumed, k);
    }
  }

  // ---------- The balancer behind the monitors ----------

  lemma {:induction false} InsertsReplay(keys: seq<Key>)
    ensures Replay({}, Inserts(keys)) == KeySet(keys)
  {
    if keys != [] {
      var front := keys[..|keys| - 1];
      InsertsReplay(front);
      assert Inserts(keys)[..|keys| - 1] == Inserts(front);
      assert keys == front + [keys[|keys| - 1]];
    }
  }

  /** Everything discovery has to tell in a state: the configured services and then what the monitors sent. */
  ghost function Stream(order: seq<Key>, s: ProviderPool.State): seq<Change>
  {
    Inserts(order) + ProviderPool.Messages(s.sent)
  }

  /** The pool of the protocol is the replay of a consumed prefix of the stream, and the rest is still on its way. */
  ghost predicate Split(order: seq<Key>, s: ProviderPool.State, consumed: seq<Change>)
  {
    Stream(order, s) == consumed + (Inserts(s.initial) + s.queue) && s.pool == Replay({}, consumed)
  }

  lemma StepKeepsSplit(
      cfg: ProviderPool.Config, order: seq<Key>, s: ProviderPool.State, step: ProviderPool.Step, consumed: seq<Change>)
    returns (after: seq<Change>)
    requires ProviderPool.Enabled(cfg, s, step) && Split(order, s, consumed)
    ensures Split(order, ProviderPool.Apply(cfg, s, step), after)
  {
    var t := ProviderPool.Apply(cfg, s, step);
    after := consumed;
    if step.Consume? {
      after := ConsumeKeepsSplit(cfg, order, s, consumed);
    } else if step.HealthSends? || step.RateSends? {
      SendKeepsSplit(order, s, t, if step.HealthSends? then ProviderPool.HealthMessage(s) else ProviderPool.RateMessage(s), consumed);
    }
  }

  lemma ConsumeKeepsSplit(cfg: ProviderPool.Config, order: seq<Key>, s: ProviderPool.State, consumed: seq<Change>)
    returns (after: seq<Change>)
    requires ProviderPool.Enabled(cfg, s, ProviderPool.Consume) && Split(order, s, consumed)
    ensures Split(order, ProviderPool.Apply(cfg, s, ProviderPool.Consume), after)
  {
    var t := ProviderPool.Apply(cfg, s, ProviderPool.Consume);
    var rest := Inserts(s.initial) + s.queue;
    after := consumed + [rest[0]];
    assert after[..|consumed|] == consumed;
    assert Inserts(t.initial) + t.queue == rest[1..];
    assert consumed + rest == after + rest[1..];
  }

  lemma SendKeepsSplit(
      order: seq<Key>, s: ProviderPool.State, t: ProviderPool.State, e: ProviderPool.Sent, consumed: seq<Change>)
    requires Split(order, s, consumed) && t.initial == s.initial && t.pool == s.pool
    requires t.sent == s.sent + [e] && t.queue == s.queue + [e.change]
    ensures Split(order, t, consumed)
  {
    assert ProviderPool.Messages(t.sent) == ProviderPool.Messages(s.sent) + [e.change];
    assert Stream(order, t) == Stream(order, s) + [e.change];
    assert Inserts(t.initial) + t.queue == (Inserts(s.initial) + s.queue) + [e.change];
  }

  lemma {:induction false} RunKeepsSplit(
      cfg: ProviderPool.Config, order: seq<Key>, s: ProviderPool.State, steps: seq<ProviderPool.Step>, consumed: seq<Change>)
    returns (after: seq<Change>)
    requires ProviderPool.Run(cfg, s, steps).Some? && Split(order, s, consumed)
    ensures Split(order, ProviderPool.Run(cfg, s, steps).value, after)
    decreases |steps|
  {
    after := consumed;
    if steps != [] {
      after := StepKeepsSplit(cfg, order, s, steps[0], consumed);
      after := RunKeepsSplit(cfg, order, ProviderPool.Apply(cfg, s, steps[0]), steps[1..], after);
    }
  }

  /** How much of the stream a protocol state has consumed. */
  ghost function ConsumedCount(order: seq<Key>, s: ProviderPool.State): int
  {
    |Stream(order, s)| - |s.initial| - |s.queue|
  }

  /** In every run, the pool is the replay of what has been consumed from discovery. */
  lemma PoolIsReplay(cfg: ProviderPool.Config, order: seq<Key>, steps: seq<ProviderPool.Step>)
    requires ProviderPool.Run(cfg, ProviderPool.Start(order), steps).Some?
    ensures var s := ProviderPool.Run(cfg, ProviderPool.Start(order), steps).value;
      && 0 <= ConsumedCount(order, s) <= |Stream(order, s)|
      && s.pool == Replay({}, Stream(order, s)[..ConsumedCount(order, s)])
  {
    var start, s := ProviderPool.Start(order), ProviderPool.Run(cfg, ProviderPool.Start(order), steps).value;
    assert Split(order, start, []);
    var consumed := RunKeepsSplit(cfg, order, start, steps, []);
    assert Stream(order, s)[..|consumed|] == consumed;
  }

  /** A balancer as far along as the protocol only ever has services of the protocol's pool to call. */
  lemma BalancerTracksPool(b: Balance, cfg: ProviderPool.Config, order: seq<Key>, steps: seq<ProviderPool.Step>)
    requires b.Valid() && ProviderPool.Run(cfg, ProviderPool.Start(order), steps).Some?
    requires var s := ProviderPool.Run(cfg, ProviderPool.Start(order), steps).value;
      |b.consumed| == ConsumedCount(order, s) && b.consumed <= Stream(order, s)
    ensures var s := ProviderPool.Run(cfg, ProviderPool.Start(order), steps).value;
      KeySet(b.services.ready) + b.services.pending + b.services.lost == s.pool
  {
    PoolIsReplay(cfg, order, steps);
    var s := ProviderPool.Run(cfg, ProviderPool.Start(order), steps).value;
    assert b.consumed == Stream(order, s)[..|b.consumed|];
  }

  /** Once it has taken everything in, it has the drained pool: in it no key that both monitors hold. */
  lemma NeverServesDoublyHeld(
      b: Balance, cfg: ProviderPool.Config, order: seq<Key>, steps: seq<ProviderPool.Step>, k: Key)
    requires ProviderPool.Lists(order, cfg.configured)
    requires ProviderPool.Run(cfg, ProviderPool.Start(order), steps).Some?
    requires b.Valid() && b.consumed == Stream(order, ProviderPool.Run(cfg, ProviderPool.Start(order), steps).value)
    requires k in b.services.ready
    ensures var s := ProviderPool.Run(cfg, ProviderPool.Start(order), steps).value;
      k in ProviderPool.Drained(s) && !(k in ProviderPool.HealthHeld(s.health) && k in ProviderPool.RateHeld(s.rate))
  {
    var s := ProviderPool.Run(cfg, ProviderPool.Start(order), steps).value;
    ReplayConcat({}, Inserts(order), ProviderPool.Messages(s.sent));
    InsertsReplay(order);
    assert KeySet(order) == cfg.configured;
    ProviderPool.Reachable(cfg, order, steps);
    ProviderPool.Sandwich(cfg, order, steps);
    assert k in KeySet(b.services.ready);
  }

  /** Polling and then calling, at any state of any run: the request goes to a key of the drained pool. */
  method ServeOne(
      b: Balance, ghost cfg: ProviderPool.Config, ghost order: seq<Key>, ghost steps: seq<ProviderPool.Step>)
    returns (served: Option<Key>)
    requires b.Valid() && ProviderPool.Lists(order, cfg.configured)
    requires ProviderPool.Run(cfg, ProviderPool.Start(order), steps).Some?
    requires b.consumed + b.discover.Remaining() ==
      Stream(order, ProviderPool.Run(cfg, ProviderPool.Start(order), steps).value)
    modifies b, b.services, b.discover
    ensures b.Valid() && b.consumed == old(b.consumed + b.discover.Remaining()) && b.discover.Remaining() == []
    ensures served.Some? ==>
      var s, k := ProviderPool.Run(cfg, ProviderPool.Start(order), steps).value, served.value;
      k in ProviderPool.Drained(s) && !(k in ProviderPool.HealthHeld(s.health) && k in ProviderPool.RateHeld(s.rate))
  {
    var p := b.PollReady();
    if !p.Ready? {
      return None;
    }
    NeverServesDoublyHeld(b, cfg, order, steps, b.services.ready[b.readyIndex.value]);
    var k := b.Call();
    served := Some(k);
  }
}
