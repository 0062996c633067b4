/**
  The limiter over its shared store: which requests share a cell, keys that expire, and the guarantees of
  `Gcra` for one (router, user) pair inside an arbitrary interleaving of all tenants.
 */
module RedisRateLimit {
  import opened Wrappers
  import opened Gcra

  // ---------- Key text ----------

  const PREFIX := "rl:per-api-key:"
  const GLOBAL := "GLOBAL"

  predicate RouterIdChar(c: char)
  {
    'A' <= c <= 'Z' || 'a' <= c <= 'z' || '0' <= c <= '9' || c == '_' || c == '-'
  }

  /** The router-id rule that configuration validation enforces. */
  predicate ValidRouterId(id: string)
  {
    1 <= |id| <= 12 && forall i :: 0 <= i < |id| ==> RouterIdChar(id[i])
  }

  /** The middle part of a key: a router's limiter uses its id, the application-wide one a reserved word. */
  function LayerText(layer: Option<string>): string
  {
    if layer.Some? then layer.value else GLOBAL
  }

  function KeyText(layer: Option<string>, user: string): string
  {
    PREFIX + (LayerText(layer) + ([':'] + user))
  }

  /** The keys as they are written in the store. */
  lemma KeyTextReads(id: string, user: string)
    ensures KeyText(Some(id), user) == "rl:per-api-key:" + id + ":" + user
    ensures KeyText(None, user) == "rl:per-api-key:GLOBAL:" + user
  {
    assert "rl:per-api-key:GLOBAL:" == "rl:per-api-key:" + "GLOBAL" + ":";
  }

  ghost predicate ValidLayer(layer: Option<string>)
  {
    layer.Some? ==> ValidRouterId(layer.value)
  }

  lemma ColonSplit(x: string, u: string, y: string, v: string)
    requires ':' !in x && ':' !in y && x + ([':'] + u) == y + ([':'] + v)
    ensures x == y && u == v
  {
    var s, t := x + ([':'] + u), y + ([':'] + v);
    assert s[|x|] == ':' && t[|y|] == ':';
    assert |x| == |y|;
    assert s[..|x|] == x && t[..|y|] == y && s[|x| + 1..] == u && t[|y| + 1..] == v;
  }

  /** Two requests share a cell exactly when their users and layer texts agree, whatever the user text is. */
  lemma KeyTextDetermines(a: Option<string>, u: string, b: Option<string>, v: string)
    requires ValidLayer(a) && ValidLayer(b)
    ensures KeyText(a, u) == KeyText(b, v) <==> LayerText(a) == LayerText(b) && u == v
  {
    if KeyText(a, u) == KeyText(b, v) {
      var x, y := LayerText(a), LayerText(b);
      assert ':' !in x && ':' !in y by { assert !RouterIdChar(':'); }
      assert KeyText(a, u)[|PREFIX|..] == x + ([':'] + u) && KeyText(b, v)[|PREFIX|..] == y + ([':'] + v);
      ColonSplit(x, u, y, v);
    }
  }

  /** So the key text is injective, except that a router called GLOBAL shares the application-wide cells. */
  lemma KeyTextInjective(a: Option<string>, u: string, b: Option<string>, v: string)
    requires ValidLayer(a) && ValidLayer(b)
    ensures KeyText(a, u) == KeyText(b, v) && (a, u) != (b, v) <==>
      u == v && a != b && LayerText(a) == GLOBAL && LayerText(b) == GLOBAL
  {
    KeyTextDetermines(a, u, b, v);
  }

  // ---------- A cell that may expire ----------

  datatype Entry = Entry(tat: int, expires: int)

  /** One request to a cell; `lost` says that the store no longer has the entry. */
  datatype Hit = Hit(now: int, lost: bool)

  function Lookup(cell: Option<Entry>, lost: bool): Option<int>
  {
    if cell.Some? && !lost then Some(cell.value.tat) else None
  }

  function CellNext(l: Limits, cell: Option<Entry>, h: Hit): Option<Entry>
  {
    match Decide(l, Lookup(cell, h.lost), h.now)
    case Admit(newTat, _) => Some(Entry(newTat, h.now + l.ttl))
    case Reject(_) => if h.lost then None else cell
  }

  function CellAfter(l: Limits, cell: Option<Entry>, hits: seq<Hit>): Option<Entry>
  {
    if hits == [] then cell else CellNext(l, CellAfter(l, cell, hits[..|hits| - 1]), hits[|hits| - 1])
  }

  function CellDecisions(l: Limits, cell: Option<Entry>, hits: seq<Hit>): (ds: seq<Decision>)
    ensures |ds| == |hits|
  {
    if hits == [] then []
    else
      var front, h := hits[..|hits| - 1], hits[|hits| - 1];
      CellDecisions(l, cell, front) + [Decide(l, Lookup(CellAfter(l, cell, front), h.lost), h.now)]
  }

  function Times(hits: seq<Hit>): (ts: seq<int>)
    ensures |ts| == |hits| && forall i :: 0 <= i < |ts| ==> ts[i] == hits[i].now
  {
    seq(|hits|, i requires 0 <= i < |hits| => hits[i].now)
  }

  function Granted(ds: seq<Decision>): (v: seq<bool>)
    ensures |v| == |ds| && forall i :: 0 <= i < |v| ==> v[i] == ds[i].Admit?
  {
    seq(|ds|, i requires 0 <= i < |ds| => ds[i].Admit?)
  }

  /** The store drops an entry only once its time to live is over. */
  ghost predicate Faithful(l: Limits, cell: Option<Entry>, hits: seq<Hit>)
  {
    hits != [] ==>
      var front, h := hits[..|hits| - 1], hits[|hits| - 1];
      var before := CellAfter(l, cell, front);
      Faithful(l, cell, front) && (h.lost && before.Some? ==> before.value.expires <= h.now)
  }

  /** An expiring cell and one that never expires: equal, or forgotten after its TAT had passed. */
  ghost predicate Forgot(cell: Option<Entry>, stored: Option<int>, now: int)
  {
    && (cell.Some? ==> stored == Some(cell.value.tat) && cell.value.tat < cell.value.expires)
    && (cell.None? && stored.Some? ==> stored.value <= now)
  }

  lemma ForgotStep(l: Limits, cell: Option<Entry>, stored: Option<int>, before: int, h: Hit)
    requires Outlasts(l) && before <= h.now && Forgot(cell, stored, before)
    requires h.lost && cell.Some? ==> cell.value.expires <= h.now
    ensures Decide(l, Lookup(cell, h.lost), h.now).Admit? == Admits(l, stored, h.now)
    ensures Forgot(CellNext(l, cell, h), Next(l, stored, h.now), h.now)
  {
  }

  lemma CellSnoc(l: Limits, cell: Option<Entry>, hits: seq<Hit>, h: Hit)
    ensures CellAfter(l, cell, hits + [h]) == CellNext(l, CellAfter(l, cell, hits), h)
    ensures CellDecisions(l, cell, hits + [h]) ==
      CellDecisions(l, cell, hits) + [Decide(l, Lookup(CellAfter(l, cell, hits), h.lost), h.now)]
  {
  }

  lemma ForeverSnoc(l: Limits, stored: Option<int>, times: seq<int>, now: int)
    ensures After(l, stored, times + [now]) == Next(l, After(l, stored, times), now)
    ensures Verdicts(l, stored, times + [now]) == Verdicts(l, stored, times) + [Admits(l, After(l, stored, times), now)]
  {
  }

  /** Expiry never changes whether a request is admitted, because the time to live outlasts the stored TAT. */
  lemma {:induction false} ExpiryInvisible(l: Limits, hits: seq<Hit>)
    requires Outlasts(l) && Sorted(Times(hits)) && Faithful(l, None, hits)
    ensures Granted(CellDecisions(l, None, hits)) == Verdicts(l, None, Times(hits))
    ensures hits != [] ==> Forgot(CellAfter(l, None, hits), After(l, None, Times(hits)), hits[|hits| - 1].now)
    decreases |hits|, 1
  {
    if hits != [] {
      var front, h := hits[..|hits| - 1], hits[|hits| - 1];
      assert hits == front + [h];
      ExpirySnoc(l, front, h);
    }
  }

  lemma GrantedSnoc(ds: seq<Decision>, d: Decision)
    ensures Granted(ds + [d]) == Granted(ds) + [d.Admit?]
  {
  }

  lemma {:induction false} ExpirySnoc(l: Limits, front: seq<Hit>, h: Hit)
    requires Outlasts(l) && Sorted(Times(front + [h])) && Faithful(l, None, front + [h])
    ensures Granted(CellDecisions(l, None, front + [h])) == Verdicts(l, None, Times(front + [h]))
    ensures Forgot(CellAfter(l, None, front + [h]), After(l, None, Times(front + [h])), h.now)
    decreases |front| + 1, 0
  {
    var hits := front + [h];
    assert Times(hits) == Times(front) + [h.now] && hits[..|front|] == front;
    assert front != [] ==> Times(hits)[|front| - 1] <= Times(hits)[|front|];
    ExpiryInvisible(l, front);
    CellSnoc(l, None, front, h);
    ForeverSnoc(l, None, Times(front), h.now);
    var cell, stored := CellAfter(l, None, front), After(l, None, Times(front));
    ForgotStep(l, cell, stored, if front == [] then h.now else front[|front| - 1].now, h);
    GrantedSnoc(CellDecisions(l, None, front), Decide(l, Lookup(cell, h.lost), h.now));
  }

  // ---------- The shared store ----------

  /** One request as the store sees it. */
  datatype Call = Call(key: string, limits: Limits, hit: Hit)

  type Store = map<string, Entry>

  function At(store: Store, key: string): Option<Entry>
  {
    if key in store then Some(store[key]) else None
  }

  function StoreNext(store: Store, c: Call): Store
  {
    match CellNext(c.limits, At(store, c.key), c.hit)
    case Some(e) => store[c.key := e]
    case None => store - {c.key}
  }

  function StoreAfter(store: Store, calls: seq<Call>): Store
  {
    if calls == [] then store else StoreNext(StoreAfter(store, calls[..|calls| - 1]), calls[|calls| - 1])
  }

  function DecisionOn(store: Store, c: Call): Decision
  {
    Decide(c.limits, Lookup(At(store, c.key), c.hit.lost), c.hit.now)
  }

  /** The decisions given to one key during a run of everybody's requests. */
  function DecisionsAt(store: Store, calls: seq<Call>, key: string): seq<Decision>
  {
    if calls == [] then []
    else
      var front, c := calls[..|calls| - 1], calls[|calls| - 1];
      if c.key == key then DecisionsAt(store, front, key) + [DecisionOn(StoreAfter(store, front), c)]
      else DecisionsAt(store, front, key)
  }

  function HitsAt(calls: seq<Call>, key: string): seq<Hit>
  {
    if calls == [] then []
    else
      var front, c := calls[..|calls| - 1], calls[|calls| - 1];
      if c.key == key then HitsAt(front, key) + [c.hit] else HitsAt(front, key)
  }

  /** A request changes its own cell and no other. */
  lemma StoreNextAt(store: Store, c: Call, key: string)
    ensures At(StoreNext(store, c), key) == if c.key == key then CellNext(c.limits, At(store, key), c.hit) else At(store, key)
  {
  }

  /** What one key experiences is a run of its own cell: the other keys do not matter. */
  lemma {:induction false} KeyIsolation(l: Limits, store: Store, calls: seq<Call>, key: string)
    requires forall c :: c in calls && c.key == key ==> c.limits == l
    ensures DecisionsAt(store, calls, key) == CellDecisions(l, At(store, key), HitsAt(calls, key))
    ensures At(StoreAfter(store, calls), key) == CellAfter(l, At(store, key), HitsAt(calls, key))
  {
    if calls != [] {
      var front, c := calls[..|calls| - 1], calls[|calls| - 1];
      KeyIsolation(l, store, front, key);
      assert c in calls;
      StoreNextAt(StoreAfter(store, front), c, key);
      CellSnoc(l, At(store, key), HitsAt(front, key), c.hit);
    }
  }

  /** The store drops entries only when their time is over. */
  ghost predicate StoreFaithful(store: Store, calls: seq<Call>)
  {
    calls != [] ==>
      var front, c := calls[..|calls| - 1], calls[|calls| - 1];
      var before := At(StoreAfter(store, front), c.key);
      StoreFaithful(store, front) && (c.hit.lost && before.Some? ==> before.value.expires <= c.hit.now)
  }

  lemma {:induction false} FaithfulToEach(l: Limits, store: Store, calls: seq<Call>, key: string)
    requires (forall c :: c in calls && c.key == key ==> c.limits == l) && StoreFaithful(store, calls)
    ensures Faithful(l, At(store, key), HitsAt(calls, key))
  {
    if calls != [] {
      var front, c := calls[..|calls| - 1], calls[|calls| - 1];
      FaithfulToEach(l, store, front, key);
      KeyIsolation(l, store, front, key);
      var hits := HitsAt(front, key);
      assert (hits + [c.hit])[..|hits|] == hits;
    }
  }

  /** Clocks do not run backwards. */
  ghost predicate Chronological(calls: seq<Call>)
  {
    forall i, j :: 0 <= i < j < |calls| ==> calls[i].hit.now <= calls[j].hit.now
  }

  lemma {:induction false} HitsInOrder(calls: seq<Call>, key: string)
    requires Chronological(calls)
    ensures var hits := HitsAt(calls, key);
      Sorted(Times(hits)) && forall i :: 0 <= i < |hits| ==> hits[i].now <= calls[|calls| - 1].hit.now
  {
    if calls != [] {
      HitsInOrder(calls[..|calls| - 1], key);
    }
  }

  // ---------- Tenants ----------

  /** A request of `user` through the limiter of `layer`. */
  datatype Request = Request(layer: Option<string>, user: string, limits: Limits, hit: Hit, innerOk: bool)

  function CallOf(q: Request): Call
  {
    Call(KeyText(q.layer, q.user), q.limits, q.hit)
  }

  function Calls(qs: seq<Request>): seq<Call>
  {
    if qs == [] then [] else Calls(qs[..|qs| - 1]) + [CallOf(qs[|qs| - 1])]
  }

  predicate From(q: Request, layer: Option<string>, user: string)
  {
    q.layer == layer && q.user == user
  }

  function HitsFor(qs: seq<Request>, layer: Option<string>, user: string): seq<Hit>
  {
    if qs == [] then []
    else
      var front, q := qs[..|qs| - 1], qs[|qs| - 1];
      if From(q, layer, user) then HitsFor(front, layer, user) + [q.hit] else HitsFor(front, layer, user)
  }

  /** The decisions one pair is given while everybody's requests run over the shared store. */
  function DecisionsFor(store: Store, qs: seq<Request>, layer: Option<string>, user: string): seq<Decision>
  {
    if qs == [] then []
    else
      var front, q := qs[..|qs| - 1], qs[|qs| - 1];
      if From(q, layer, user) then
        DecisionsFor(store, front, layer, user) + [DecisionOn(StoreAfter(store, Calls(front)), CallOf(q))]
      else DecisionsFor(store, front, layer, user)
  }

  /** Every request comes through a valid layer; no other one shares the text of `layer`, whose limits are `l`. */
  ghost predicate WellRouted(qs: seq<Request>, layer: Option<string>, l: Limits)
  {
    && ValidLayer(layer)
    && forall i :: 0 <= i < |qs| ==>
         && ValidLayer(qs[i].layer)
         && (if qs[i].layer == layer then qs[i].limits == l else LayerText(qs[i].layer) != LayerText(layer))
  }

  lemma OnlyOwnKey(q: Request, layer: Option<string>, user: string)
    requires ValidLayer(layer) && ValidLayer(q.layer)
    requires q.layer == layer || LayerText(q.layer) != LayerText(layer)
    ensures CallOf(q).key == KeyText(layer, user) <==> From(q, layer, user)
  {
    KeyTextDetermines(q.layer, q.user, layer, user);
  }

  lemma {:induction false} PairIsKey(store: Store, qs: seq<Request>, layer: Option<string>, user: string, l: Limits, key: string)
    requires WellRouted(qs, layer, l) && key == KeyText(layer, user)
    ensures HitsFor(qs, layer, user) == HitsAt(Calls(qs), key)
    ensures DecisionsFor(store, qs, layer, user) == DecisionsAt(store, Calls(qs), key)
    ensures forall c :: c in Calls(qs) && c.key == key ==> c.limits == l
  {
    if qs != [] {
      var front, q := qs[..|qs| - 1], qs[|qs| - 1];
      PairIsKey(store, front, layer, user, l, key);
      OnlyOwnKey(q, layer, user);
      SnocAt(store, Calls(front), CallOf(q), key);
    }
  }

  lemma SnocAt(store: Store, calls: seq<Call>, c: Call, key: string)
    ensures HitsAt(calls + [c], key) == if c.key == key then HitsAt(calls, key) + [c.hit] else HitsAt(calls, key)
    ensures DecisionsAt(store, calls + [c], key) ==
      if c.key == key then DecisionsAt(store, calls, key) + [DecisionOn(StoreAfter(store, calls), c)]
      else DecisionsAt(store, calls, key)
  {
  }

  /** What one pair experiences is a run of its own cell: the other tenants do not matter. */
  lemma Isolation(l: Limits, store: Store, qs: seq<Request>, layer: Option<string>, user: string)
    requires WellRouted(qs, layer, l)
    ensures DecisionsFor(store, qs, layer, user) ==
      CellDecisions(l, At(store, KeyText(layer, user)), HitsFor(qs, layer, user))
  {
    PairIsKey(store, qs, layer, user, l, KeyText(layer, user));
    KeyIsolation(l, store, Calls(qs), KeyText(layer, user));
  }

  /** ... and on an initially empty store it is admitted exactly as by a cell that never expires. */
  lemma TenantVerdicts(l: Limits, qs: seq<Request>, layer: Option<string>, user: string)
    requires Outlasts(l) && WellRouted(qs, layer, l) && StoreFaithful(map[], Calls(qs)) && Chronological(Calls(qs))
    ensures var times := Times(HitsFor(qs, layer, user));
      Sorted(times) && Granted(DecisionsFor(map[], qs, layer, user)) == Verdicts(l, None, times)
  {
    var key := KeyText(layer, user);
    Isolation(l, map[], qs, layer, user);
    PairIsKey(map[], qs, layer, user, l, key);
    FaithfulToEach(l, map[], Calls(qs), key);
    HitsInOrder(Calls(qs), key);
    ExpiryInvisible(l, HitsFor(qs, layer, user));
  }

  /**
    The main bound: whatever the other tenants do and whenever the store forgets, the requests of one pair
    that are admitted in any window of time number at most capacity plus the window's length in intervals.
   */
  lemma TenantWindowBound(l: Limits, qs: seq<Request>, layer: Option<string>, user: string, from: int, to: int)
    requires Outlasts(l) && l.interval >= 1 && WellRouted(qs, layer, l)
    requires StoreFaithful(map[], Calls(qs)) && Chronological(Calls(qs)) && from <= to
    ensures var times, granted := Times(HitsFor(qs, layer, user)), Granted(DecisionsFor(map[], qs, layer, user));
      |granted| == |times| && AdmittedWithin(granted, times, from, to) <= Allowance(l, from, to)
  {
    TenantVerdicts(l, qs, layer, user);
    WindowBound(l, None, Times(HitsFor(qs, layer, user)), from, to);
  }

  // ---------- The service ----------

  datatype Reply =
    | MissingAuth
    | Forwarded(limit: nat, remaining: nat)
    | InnerFailed
    | Aborted
    | TooManyRequests(limit: nat, remaining: nat, retryAfter: nat)

  /** The reply a client sees for a decision; `innerOk` is whether the wrapped service answered. */
  function ReplyFor(l: Limits, d: Decision, innerOk: bool): Reply
  {
    match d
    case Reject(retryAfter) => TooManyRequests(l.capacity, 0, retryAfter)
    case Admit(_, Aborts) => Aborted
    case Admit(_, Remaining(n)) => if innerOk then Forwarded(l.capacity, n) else InnerFailed
  }

  /**
    What a client may be told, given the TAT its cell still has: to come back later exactly if the cell does not
    admit, and then after the first whole second past the wait; otherwise what is left, where the header is exact.
   */
  ghost predicate RightReply(l: Limits, cell: Option<int>, now: int, innerOk: bool, reply: Reply)
  {
    && !reply.MissingAuth?
    && (reply.TooManyRequests? <==> !Admits(l, cell, now))
    && (reply.TooManyRequests? ==>
          && cell.Some? && reply.limit == l.capacity && reply.remaining == 0
          && var wait := cell.value + l.interval - l.interval * l.capacity - now;
             (reply.retryAfter - 1) * 1000 <= wait < reply.retryAfter * 1000)
    && (reply.Aborted? <==>
          Admits(l, cell, now) && (l.interval == 0 || (cell.Some? && now - cell.value >= 3 * l.interval - 1)))
    && (reply.Forwarded? ==> innerOk && reply.limit == l.capacity)
    && (reply.Forwarded? && (cell.None? || now - cell.value <= 2 * l.interval - 2) ==>
          l.interval >= 1 && reply.remaining == Spare(l, Some(NewTat(l, cell, now)), now))
    && (reply.InnerFailed? ==> !innerOk)
  }

  lemma ReplyIsRight(l: Limits, cell: Option<int>, now: int, innerOk: bool)
    ensures RightReply(l, cell, now, innerOk, ReplyFor(l, Decide(l, cell, now), innerOk))
  {
    IntervalFits(l);
    if cell.Some? {
      AdmitFrom(l, cell.value, now);
    }
    if l.interval >= 1 && Admits(l, cell, now) {
      RemainingExact(l, cell, now);
    }
  }

  // ---------- What gets through ----------

  /** The wrapped service was called. */
  predicate Reached(reply: Reply)
  {
    reply.Forwarded? || reply.InnerFailed?
  }

  /** The replies one pair is given while everybody's requests run over the shared store. */
  function RepliesFor(store: Store, qs: seq<Request>, layer: Option<string>, user: string): seq<Reply>
  {
    if qs == [] then []
    else
      var front, q := qs[..|qs| - 1], qs[|qs| - 1];
      if From(q, layer, user) then
        RepliesFor(store, front, layer, user) +
          [ReplyFor(q.limits, DecisionOn(StoreAfter(store, Calls(front)), CallOf(q)), q.innerOk)]
      else RepliesFor(store, front, layer, user)
  }

  /** The requests of a run that reached the wrapped service at an instant of the window. */
  function ReachedWithin(replies: seq<Reply>, times: seq<int>, from: int, to: int): nat
    requires |replies| == |times|
  {
    if replies == [] then 0
    else
      var n := |replies| - 1;
      ReachedWithin(replies[..n], times[..n], from, to) + if Reached(replies[n]) && from <= times[n] <= to then 1 else 0
  }

  /** Every reply belongs to a decision, and only an admitted request reaches the wrapped service. */
  lemma {:induction false} RepliesAreDecided(store: Store, qs: seq<Request>, layer: Option<string>, user: string)
    ensures var replies, ds := RepliesFor(store, qs, layer, user), DecisionsFor(store, qs, layer, user);
      && |replies| == |ds| == |HitsFor(qs, layer, user)|
      && forall i :: 0 <= i < |ds| && Reached(replies[i]) ==> ds[i].Admit?
  {
    if qs != [] {
      RepliesAreDecided(store, qs[..|qs| - 1], layer, user);
      var q := qs[|qs| - 1];
      var c := CallOf(q);
      ReplyIsRight(q.limits, Lookup(At(StoreAfter(store, Calls(qs[..|qs| - 1])), c.key), c.hit.lost), c.hit.now, q.innerOk);
    }
  }

  lemma {:induction false} FewerReached(replies: seq<Reply>, v: seq<bool>, times: seq<int>, from: int, to: int)
    requires |replies| == |v| == |times| && forall i :: 0 <= i < |v| && Reached(replies[i]) ==> v[i]
    ensures ReachedWithin(replies, times, from, to) <= AdmittedWithin(v, times, from, to)
  {
    if replies != [] {
      var n := |replies| - 1;
      FewerReached(replies[..n], v[..n], times[..n], from, to);
    }
  }

  /** So what one pair gets through to the wrapped service in any window of time is bounded as well. */
  lemma TenantReachBound(l: Limits, qs: seq<Request>, layer: Option<string>, user: string, from: int, to: int)
    requires Outlasts(l) && l.interval >= 1 && WellRouted(qs, layer, l)
    requires StoreFaithful(map[], Calls(qs)) && Chronological(Calls(qs)) && from <= to
    ensures var times, replies := Times(HitsFor(qs, layer, user)), RepliesFor(map[], qs, layer, user);
      |replies| == |times| && ReachedWithin(replies, times, from, to) <= Allowance(l, from, to)
  {
    RepliesAreDecided(map[], qs, layer, user);
    TenantWindowBound(l, qs, layer, user, from, to);
    FewerReached(RepliesFor(map[], qs, layer, user), Granted(DecisionsFor(map[], qs, layer, user)),
                 Times(HitsFor(qs, layer, user)), from, to);
  }

  class RedisRateLimitService {
    var store: Store
    const limits: Limits
    const layer: Option<string>

    constructor (limits: Limits, layer: Option<string>)
      ensures store == map[] && this.limits == limits && this.layer == layer
    {
      store := map[];
      this.limits := limits;
      this.layer := layer;
    }

    /** Handles one request; the read and the write of the key are one atomic step. */
    method MakeRequest(user: Option<string>, now: int, lost: bool, innerOk: bool) returns (reply: Reply)
      modifies this
      ensures user.None? ==> reply == MissingAuth && store == old(store)
      ensures user.Some? ==>
        store == StoreNext(old(store), Call(KeyText(layer, user.value), limits, Hit(now, lost)))
      ensures user.Some? ==>
        reply == ReplyFor(limits, DecisionOn(old(store), Call(KeyText(layer, user.value), limits, Hit(now, lost))), innerOk)
      ensures user.Some? ==>
        (var key := KeyText(layer, user.value);
         var cell := if key in old(store) && !lost then Some(old(store)[key].tat) else None;
         && RightReply(limits, cell, now, innerOk, reply)
         && store == if Admits(limits, cell, now) then old(store)[key := Entry(NewTat(limits, cell, now), now + limits.ttl)]
                     else old(store) - (if lost then {key} else {}))
    {
      if user.None? {
        return MissingAuth;
      }
      var key := KeyText(layer, user.value);
      if lost {
        store := store - {key};
      }
      ghost var cell := if key in store then Some(store[key].tat) else None;
      ReplyIsRight(limits, cell, now, innerOk);
      var tat := if key in store then store[key].tat else now;
      var newTat;
      if tat < now {
        newTat := now + limits.interval;
      } else {
        newTat := tat + limits.interval;
      }
      var earliestAllowedTime := newTat - limits.interval * limits.capacity;
      if earliestAllowedTime <= now {
        store := store[key := Entry(newTat, now + limits.ttl)];
        if limits.interval == 0 {
          return Aborted;
        }
        var timeUntilTat := tat - now;
        var tokensUsed := TruncDiv(timeUntilTat + (limits.interval - 1), limits.interval) + 1;
        if tokensUsed < 0 {
          return Aborted;
        }
        var remaining := if tokensUsed <= limits.capacity then limits.capacity - tokensUsed else 0;
        if innerOk {
          reply := Forwarded(limits.capacity, remaining);
        } else {
          reply := InnerFailed;
        }
      } else {
        var difference := earliestAllowedTime - now;
        reply := TooManyRequests(limits.capacity, 0, difference / 1000 + 1);
        assert key in old(store) && !lost ==> store[key := store[key]] == store;
      }
    }
  }

  /**
    The abort is reachable while the key is still stored: on a fresh cell, any request later than four
    intervals after the first one and before the time to live is over aborts.
   */
  lemma LullAborts(l: Limits, start: int, later: int)
    requires l.interval >= 1 && start + 4 * l.interval - 1 <= later < start + l.ttl
    ensures var hits := [Hit(start, false), Hit(later, false)];
      && Faithful(l, None, hits)
      && CellDecisions(l, None, hits)[0].Admit?
      && CellDecisions(l, None, hits)[1].Admit? && CellDecisions(l, None, hits)[1].header.Aborts?
  {
    var hits := [Hit(start, false), Hit(later, false)];
    assert hits[..1] == [Hit(start, false)] && hits[..1][..0] == [];
    IntervalFits(l);
    assert Decide(l, None, start).newTat == start + l.interval;
    assert CellAfter(l, None, hits[..1]) == Some(Entry(start + l.interval, start + l.ttl));
    AdmitFrom(l, start + l.interval, later);
    RemainingExact(l, Some(start + l.interval), later);
  }
}
