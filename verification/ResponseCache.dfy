/**
  The bucketed response cache. All buckets of a request are probed at once and answer in any order; a fresh
  entry is served, a stale one is refreshed through the inner service, and otherwise a bucket is filled.
  Freshness and storability are decided elsewhere (sections 3 and 4 of RFC 9111) and are inputs here.
 */
module ResponseCache {
  import opened Wrappers

  const MAX_BUCKET_SIZE := 10
  const DEFAULT_BUCKETS := 1
  const U8_MAX := 255

  // ---------- Settings ----------

  datatype Context = Context(enabled: Option<bool>, directive: Option<string>, buckets: Option<nat>, seed: Option<string>)

  function Or<T>(a: Option<T>, b: Option<T>): Option<T>
  {
    if a.Some? then a else b
  }

  /** The configured settings overridden by those of the request. */
  function Merge(config: Context, request: Context): Context
  {
    Context(
      Some(if request.enabled.Some? then request.enabled.value else config.enabled == Some(true)),
      Or(request.directive, config.directive),
      Or(request.buckets, config.buckets),
      Or(request.seed, config.seed))
  }

  /** Each setting is the request's if it has one, and otherwise the configured one; caching is off by default. */
  lemma MergeOverrides(config: Context, request: Context)
    ensures var m := Merge(config, request);
      && (m.enabled == Some(true) <==> request.enabled == Some(true) || (request.enabled.None? && config.enabled == Some(true)))
      && (request.seed.Some? ==> m.seed == request.seed) && (request.seed.None? ==> m.seed == config.seed)
      && (request.buckets.Some? ==> m.buckets == request.buckets) && (request.buckets.None? ==> m.buckets == config.buckets)
      && (request.directive.Some? ==> m.directive == request.directive)
      && (request.directive.None? ==> m.directive == config.directive)
  {
  }

  /** A bucket count in the headers that does not fit 8 bits is ignored. */
  function HeaderSettings(headers: Context): Context
  {
    if headers.buckets.Some? && headers.buckets.value > U8_MAX then headers.(buckets := None) else headers
  }

  function Buckets(ctx: Context): nat
  {
    if ctx.buckets.Some? then ctx.buckets.value else DEFAULT_BUCKETS
  }

  // ---------- Entries and probes ----------

  datatype Request = Request(pathAndQuery: Option<string>, body: string)
  datatype Response = Response(status: nat, body: string)

  predicate Success(r: Response)
  {
    200 <= r.status < 300
  }

  /** What the key hash is computed from; distinct inputs are taken to have distinct hashes. */
  datatype CacheKey = CacheKey(seed: Option<string>, pathAndQuery: Option<string>, body: string, bucket: nat)

  type Store = map<CacheKey, Response>

  function KeyOf(ctx: Context, req: Request, bucket: nat): CacheKey
  {
    CacheKey(ctx.seed, req.pathAndQuery, req.body, bucket)
  }

  /** What the stored policy says about an entry, or that the probe itself fails. */
  datatype Verdict = SaysFresh | SaysStale | SaysMismatch | ProbeFails

  datatype Probe = Fresh(response: Response) | Stale | Miss | Failure

  function ProbeOf(store: Store, key: CacheKey, verdict: Verdict): Probe
  {
    if verdict.ProbeFails? then Failure
    else if key !in store then Miss
    else match verdict case SaysFresh => Fresh(store[key]) case SaysStale => Stale case _ => Miss
  }

  /** Two requests share a cell exactly if they agree on seed, path and query, body and bucket. */
  lemma SharesCell(a: Context, p: Request, b: nat, c: Context, q: Request, d: nat)
    ensures KeyOf(a, p, b) == KeyOf(c, q, d) <==>
      a.seed == c.seed && p.pathAndQuery == q.pathAndQuery && p.body == q.body && b == d
  {
  }

  function ProbeAt(store: Store, ctx: Context, req: Request, verdicts: seq<Verdict>, bucket: nat): Probe
    requires bucket < |verdicts|
  {
    ProbeOf(store, KeyOf(ctx, req, bucket), verdicts[bucket])
  }

  /** The store has an entry of the request for bucket `b`, and its policy answers `verdict`. */
  ghost predicate Stored(store: Store, ctx: Context, req: Request, verdicts: seq<Verdict>, b: nat, verdict: Verdict)
  {
    b < |verdicts| && verdicts[b] == verdict && CacheKey(ctx.seed, req.pathAndQuery, req.body, b) in store
  }

  /** A probe finds a fresh entry only where one is stored that is fresh, and a stale one only where it is stale. */
  lemma ProbeExactly(store: Store, ctx: Context, req: Request, verdicts: seq<Verdict>, b: nat)
    requires b < |verdicts|
    ensures var probe, key := ProbeAt(store, ctx, req, verdicts, b), CacheKey(ctx.seed, req.pathAndQuery, req.body, b);
      && (probe.Fresh? <==> Stored(store, ctx, req, verdicts, b, SaysFresh))
      && (probe.Fresh? ==> key in store && probe.response == store[key])
      && (probe.Stale? <==> Stored(store, ctx, req, verdicts, b, SaysStale))
      && (probe.Failure? <==> verdicts[b].ProbeFails?)
  {
  }

  // ---------- Outcomes, whatever the order of completion ----------

  datatype Outcome =
    | Bypassed(response: Response)
    | Hit(bucket: nat, response: Response)
    | Refreshed(bucket: nat, response: Response)
    | Filled(bucket: nat, response: Response)
    | Aborted                  // no bucket to fill: a remainder by zero

  ghost predicate AnyFresh(store: Store, ctx: Context, req: Request, verdicts: seq<Verdict>)
  {
    exists b :: 0 <= b < |verdicts| && ProbeAt(store, ctx, req, verdicts, b).Fresh?
  }

  ghost predicate AnyStale(store: Store, ctx: Context, req: Request, verdicts: seq<Verdict>)
  {
    exists b :: 0 <= b < |verdicts| && ProbeAt(store, ctx, req, verdicts, b).Stale?
  }

  /** Each bucket completes exactly once, in any order. */
  ghost predicate Completion(order: seq<nat>, buckets: nat)
  {
    && |order| == buckets
    && (forall i :: 0 <= i < |order| ==> order[i] < buckets)
    && (forall b :: 0 <= b < buckets ==> b in order)
  }

  /** What must happen to an enabled request. The order of completion does not occur in it. */
  datatype Kind = ToHit | ToRefresh | ToFill | ToAbort

  ghost function Expected(store: Store, ctx: Context, req: Request, verdicts: seq<Verdict>): Kind
  {
    if AnyFresh(store, ctx, req, verdicts) then ToHit
    else if AnyStale(store, ctx, req, verdicts) then ToRefresh
    else if verdicts != [] then ToFill
    else ToAbort
  }

  function KindOf(o: Outcome): Option<Kind>
  {
    match o
    case Bypassed(_) => None
    case Hit(_, _) => Some(ToHit)
    case Refreshed(_, _) => Some(ToRefresh)
    case Filled(_, _) => Some(ToFill)
    case Aborted => Some(ToAbort)
  }

  /** The probe loop: stops at the first fresh entry, and otherwise sorts the buckets by what they hold. */
  method ProbeAll(store: Store, ctx: Context, req: Request, order: seq<nat>, verdicts: seq<Verdict>)
    returns (served: Option<nat>, stale: seq<nat>, empty: seq<nat>)
    requires Completion(order, |verdicts|)
    ensures served.Some? <==> AnyFresh(store, ctx, req, verdicts)
    ensures served.Some? ==> served.value < |verdicts| && ProbeAt(store, ctx, req, verdicts, served.value).Fresh?
    ensures served.None? ==> forall b :: b in stale <==> 0 <= b < |verdicts| && ProbeAt(store, ctx, req, verdicts, b).Stale?
    ensures served.None? ==> forall b :: b in empty <==> 0 <= b < |verdicts| && ProbeAt(store, ctx, req, verdicts, b).Miss?
  {
    stale, empty := [], [];
    for i := 0 to |order|
      invariant forall j :: 0 <= j < i ==> !ProbeAt(store, ctx, req, verdicts, order[j]).Fresh?
      invariant forall b :: b in stale <==> b in order[..i] && ProbeAt(store, ctx, req, verdicts, b).Stale?
      invariant forall b :: b in empty <==> b in order[..i] && ProbeAt(store, ctx, req, verdicts, b).Miss?
    {
      var bucket := order[i];
      assert order[..i + 1] == order[..i] + [bucket];
      match ProbeAt(store, ctx, req, verdicts, bucket) {
        case Fresh(_) => return Some(bucket), stale, empty;
        case Stale => stale := stale + [bucket];
        case Miss => empty := empty + [bucket];
        case Failure =>
      }
    }
    assert order[..|order|] == order;
    forall b | 0 <= b < |verdicts| ensures !ProbeAt(store, ctx, req, verdicts, b).Fresh? {
      assert b in order;
      var j :| 0 <= j < |order| && order[j] == b;
    }
    served := None;
  }

  // ---------- The service ----------

  /** An answer of the inner service to a request on behalf of one bucket. */
  datatype Answer = Answer(seed: Option<string>, req: Request, bucket: nat, response: Response)

  /** The inner service gave `r` with success for exactly what `k` stands for. */
  ghost predicate AnsweredFor(answers: seq<Answer>, k: CacheKey, r: Response)
  {
    exists a :: a in answers && a.response == r && 200 <= r.status < 300 &&
      k == CacheKey(a.seed, a.req.pathAndQuery, a.req.body, a.bucket)
  }

  ghost predicate Justified(store: Store, answers: seq<Answer>)
  {
    forall k :: k in store ==> AnsweredFor(answers, k, store[k])
  }

  lemma MoreAnswers(store: Store, answers: seq<Answer>, a: Answer)
    requires Justified(store, answers)
    ensures Justified(store, answers + [a])
  {
    forall k | k in store ensures AnsweredFor(answers + [a], k, store[k]) {
      var x :| x in answers && x.response == store[k] && 200 <= store[k].status < 300 &&
        k == CacheKey(x.seed, x.req.pathAndQuery, x.req.body, x.bucket);
      assert x in answers + [a];
    }
  }

  function StoreAfter(store: Store, key: CacheKey, response: Response, storable: bool): Store
  {
    if storable && Success(response) then store[key := response] else store
  }

  class CacheService {
    const context: Context
    var store: Store
    var innerCalls: nat
    ghost var answers: seq<Answer>  // what the inner service answered to cacheable requests

    /** Every stored entry is a success response the inner service gave for exactly that key. */
    ghost predicate Valid()
      reads this
    {
      Justified(store, answers)
    }

    constructor (context: Context)
      ensures Valid() && this.context == context && store == map[] && innerCalls == 0 && answers == []
    {
      this.context := context;
      store, innerCalls, answers := map[], 0, [];
    }

    /** Stores a response if it may be stored; a response that is not a success never is. */
    method HandleResponseForCacheMiss(key: CacheKey, response: Response, storable: bool)
      requires Valid() && (Success(response) ==> AnsweredFor(answers, key, response))
      modifies this`store
      ensures Valid() && store == StoreAfter(old(store), key, response, storable)
      ensures store == if storable && 200 <= response.status < 300 then old(store)[key := response] else old(store)
    {
      if !storable || !Success(response) {
        return;
      }
      store := store[key := response];
    }

    /** Asks the inner service once on behalf of a bucket, and stores what may be stored there. */
    method AskInner(ctx: Context, req: Request, bucket: nat, response: Response, storable: bool)
      requires Valid()
      modifies this
      ensures Valid() && innerCalls == old(innerCalls) + 1
      ensures answers == old(answers) + [Answer(ctx.seed, req, bucket, response)]
      ensures store == if storable && 200 <= response.status < 300
        then old(store)[CacheKey(ctx.seed, req.pathAndQuery, req.body, bucket) := response] else old(store)
    {
      ghost var a := Answer(ctx.seed, req, bucket, response);
      innerCalls := innerCalls + 1;
      MoreAnswers(store, answers, a);
      answers := answers + [a];
      assert a in answers;
      HandleResponseForCacheMiss(KeyOf(ctx, req, bucket), response, storable);
    }

    /**
      Handles one request whose probes complete in `order`; `inner` is what the inner service answers if it
      is asked, `storable` whether that may be stored, and `random` the draw when every probe fails.
     */
    method MakeRequest(ctx: Context, req: Request, order: seq<nat>, verdicts: seq<Verdict>, inner: Response, storable: bool, random: nat)
      returns (o: Outcome)
      requires Valid() && |verdicts| == Buckets(ctx) && Completion(order, Buckets(ctx))
      modifies this
      ensures Valid()
      ensures KindOf(o) == if ctx.enabled == Some(true) then Some(Expected(old(store), ctx, req, verdicts)) else None
      // which outcome
      ensures o.Bypassed? <==> ctx.enabled != Some(true)
      ensures !o.Bypassed? ==> (o.Hit? <==> exists b :: Stored(old(store), ctx, req, verdicts, b, SaysFresh))
      ensures !o.Bypassed? && !o.Hit? ==> (o.Refreshed? <==> exists b :: Stored(old(store), ctx, req, verdicts, b, SaysStale))
      ensures !o.Bypassed? ==> (o.Aborted? <==> |verdicts| == 0)
      // a hit
      ensures o.Hit? || o.Aborted? ==> unchanged(this)
      ensures o.Hit? ==>
        (var key := CacheKey(ctx.seed, req.pathAndQuery, req.body, o.bucket);
         && Stored(store, ctx, req, verdicts, o.bucket, SaysFresh) && o.response == store[key]
         && AnsweredFor(answers, key, o.response))
      // everything else
      ensures o.Bypassed? ==>
        o.response == inner && innerCalls == old(innerCalls) + 1 && store == old(store) && answers == old(answers)
      ensures o.Refreshed? || o.Filled? ==>
        && o.bucket < |verdicts| && o.response == inner && innerCalls == old(innerCalls) + 1
        && answers == old(answers) + [Answer(ctx.seed, req, o.bucket, inner)]
      ensures o.Refreshed? || o.Filled? ==>
        store == if storable && 200 <= inner.status < 300
          then old(store)[CacheKey(ctx.seed, req.pathAndQuery, req.body, o.bucket) := inner] else old(store)
      ensures o.Refreshed? ==> Stored(old(store), ctx, req, verdicts, o.bucket, SaysStale)
      ensures o.Filled? ==>
        !verdicts[o.bucket].ProbeFails? || forall b :: 0 <= b < |verdicts| ==> verdicts[b].ProbeFails?
    {
      if ctx.enabled != Some(true) {
        innerCalls := innerCalls + 1;
        return Bypassed(inner);
      }
      forall b | 0 <= b < |verdicts| { ProbeExactly(store, ctx, req, verdicts, b); }
      var buckets := Buckets(ctx);
      var served, staleHits, emptyBuckets := ProbeAll(store, ctx, req, order, verdicts);
      if served.Some? {
        return Hit(served.value, store[KeyOf(ctx, req, served.value)]);
      }
      if staleHits != [] {
        var bucket := staleHits[0];
        assert bucket in staleHits;
        AskInner(ctx, req, bucket, inner, storable);
        return Refreshed(bucket, inner);
      }
      var bucket;
      if emptyBuckets != [] {
        bucket := emptyBuckets[0];
        assert bucket in emptyBuckets;
      } else if buckets == 0 {
        return Aborted;
      } else {
        bucket := random % buckets;
      }
      AskInner(ctx, req, bucket, inner, storable);
      o := Filled(bucket, inner);
    }

    /** The settings that apply to a request with these headers. */
    function Settings(headers: Context): Context
    {
      Merge(context, HeaderSettings(headers))
    }

    /** The service's entry: the request's settings are checked and laid over the configured ones. */
    method Call(headers: Context, req: Request, order: seq<nat>, verdicts: seq<Verdict>, inner: Response, storable: bool, random: nat)
      returns (o: Option<Outcome>)
      requires Valid()
      requires |verdicts| == Buckets(Settings(headers)) && Completion(order, Buckets(Settings(headers)))
      modifies this
      ensures Valid()
      ensures o.None? <==> headers.buckets.Some? && 10 < headers.buckets.value <= 255
      ensures o.None? ==> unchanged(this)
      ensures |verdicts| == if headers.buckets.Some? && headers.buckets.value <= 255 then headers.buckets.value
                            else if context.buckets.Some? then context.buckets.value else 1
      ensures o.Some? ==>
        (o.value.Bypassed? <==> !(headers.enabled == Some(true) || (headers.enabled.None? && context.enabled == Some(true))))
      ensures o.Some? && o.value.Bypassed? ==>
        o.value.response == inner && innerCalls == old(innerCalls) + 1 && store == old(store) && answers == old(answers)
      ensures o.Some? && !o.value.Bypassed? ==>
        (var ctx := Settings(headers);
         && (o.value.Aborted? <==> |verdicts| == 0)
         && (o.value.Hit? <==> exists b :: Stored(old(store), ctx, req, verdicts, b, SaysFresh)))
      ensures o.Some? && (o.value.Aborted? || o.value.Hit?) ==> unchanged(this)
      ensures o.Some? && o.value.Hit? ==>
        (var seed := if headers.seed.Some? then headers.seed else context.seed;
         AnsweredFor(answers, CacheKey(seed, req.pathAndQuery, req.body, o.value.bucket), o.value.response))
      ensures o.Some? && (o.value.Refreshed? || o.value.Filled?) ==>
        (var seed := if headers.seed.Some? then headers.seed else context.seed;
         && o.value.response == inner && innerCalls == old(innerCalls) + 1 && o.value.bucket < |verdicts|
         && store == if storable && 200 <= inner.status < 300
              then old(store)[CacheKey(seed, req.pathAndQuery, req.body, o.value.bucket) := inner] else old(store))
    {
      var request := HeaderSettings(headers);
      MergeOverrides(context, request);
      if request.buckets.Some? && request.buckets.value > MAX_BUCKET_SIZE {
        return None;
      }
      var outcome := MakeRequest(Merge(context, request), req, order, verdicts, inner, storable, random);
      o := Some(outcome);
    }
  }

  // ---------- Requests that overlap ----------

  /** Where a request is: probing, holding an answer it may still store, or finished. */
  datatype Phase =
    | Probing(left: set<nat>, stale: seq<nat>, empty: seq<nat>)
    | Holding(key: CacheKey, response: Response, storable: bool)
    | Finished

  datatype Flight = Flight(ctx: Context, req: Request, phase: Phase)

  datatype Event =
    | Served(id: nat, key: CacheKey, response: Response)    // a fresh entry was returned
    | Answered(id: nat, key: CacheKey, response: Response)  // the inner service was asked

  datatype Action =
    | ProbeReturns(bucket: nat, verdict: Verdict)
    | AskInner(response: Response, storable: bool, random: nat)
    | StoreAnswer

  datatype State = State(store: Store, flights: map<nat, Flight>, history: seq<Event>)

  datatype Step =
    | Begin(id: nat, ctx: Context, req: Request)
    | Act(id: nat, action: Action)
    | StoreDrops(key: CacheKey)

  const Empty := State(map[], map[], [])

  function Upto(n: nat): (r: set<nat>)
    ensures forall b :: b in r <==> 0 <= b < n
  {
    if n == 0 then {} else Upto(n - 1) + {n - 1}
  }

  predicate CanAct(f: Flight, a: Action)
  {
    match a
    case ProbeReturns(b, _) => f.phase.Probing? && b in f.phase.left
    case AskInner(_, _, _) => f.phase.Probing? && f.phase.left == {} && Buckets(f.ctx) > 0
    case StoreAnswer => f.phase.Holding?
  }

  /** The bucket a request without a fresh entry asks for: a stale one, an empty one, or any. */
  function ChosenBucket(f: Flight, random: nat): nat
    requires f.phase.Probing? && Buckets(f.ctx) > 0
  {
    if f.phase.stale != [] then f.phase.stale[0]
    else if f.phase.empty != [] then f.phase.empty[0]
    else random % Buckets(f.ctx)
  }

  function PhaseAfter(store: Store, f: Flight, a: Action): Phase
    requires CanAct(f, a)
  {
    match a
    case ProbeReturns(b, verdict) =>
      var p := f.phase.(left := f.phase.left - {b});
      (match ProbeOf(store, KeyOf(f.ctx, f.req, b), verdict)
       case Fresh(_) => Finished
       case Stale => p.(stale := p.stale + [b])
       case Miss => p.(empty := p.empty + [b])
       case Failure => p)
    case AskInner(response, storable, random) =>
      Holding(KeyOf(f.ctx, f.req, ChosenBucket(f, random)), response, storable)
    case StoreAnswer => Finished
  }

  /** The event an action gives rise to, if any. */
  function EventOf(store: Store, id: nat, f: Flight, a: Action): Option<Event>
    requires CanAct(f, a)
  {
    match a
    case ProbeReturns(b, verdict) =>
      var key := KeyOf(f.ctx, f.req, b);
      var probe := ProbeOf(store, key, verdict);
      if probe.Fresh? then Some(Served(id, key, probe.response)) else None
    case AskInner(response, _, random) => Some(Answered(id, KeyOf(f.ctx, f.req, ChosenBucket(f, random)), response))
    case StoreAnswer => None
  }

  predicate Enabled(s: State, step: Step)
  {
    match step
    case Begin(id, _, _) => id !in s.flights
    case Act(id, a) => id in s.flights && CanAct(s.flights[id], a)
    case StoreDrops(_) => true
  }

  function Noted(history: seq<Event>, e: Option<Event>): seq<Event>
  {
    if e.Some? then history + [e.value] else history
  }

  function Apply(s: State, step: Step): State
    requires Enabled(s, step)
  {
    match step
    case Begin(id, ctx, req) =>
      s.(flights := s.flights[id := Flight(ctx, req, Probing(Upto(Buckets(ctx)), [], []))])
    case Act(id, a) =>
      var f := s.flights[id];
      State(if a.StoreAnswer? then StoreAfter(s.store, f.phase.key, f.phase.response, f.phase.storable) else s.store,
            s.flights[id := f.(phase := PhaseAfter(s.store, f, a))],
            Noted(s.history, EventOf(s.store, id, f, a)))
    case StoreDrops(key) => s.(store := s.store - {key})
  }

  function Run(s: State, steps: seq<Step>): Option<State>
    decreases |steps|
  {
    if steps == [] then Some(s)
    else if Enabled(s, steps[0]) then Run(Apply(s, steps[0]), steps[1..])
    else None
  }

  /** The inner service gave `r` for `key` at some point of the history. */
  ghost predicate Given(history: seq<Event>, key: CacheKey, r: Response)
  {
    exists e :: e in history && e.Answered? && e.key == key && e.response == r
  }

  /** Everything served was given before, with success, for the same key. */
  ghost predicate Grounded(history: seq<Event>)
  {
    history != [] ==>
      var front, e := history[..|history| - 1], history[|history| - 1];
      Grounded(front) && (e.Served? ==> Success(e.response) && Given(front, e.key, e.response))
  }

  ghost predicate StoreInv(s: State)
  {
    forall k :: k in s.store ==> Success(s.store[k]) && Given(s.history, k, s.store[k])
  }

  ghost predicate FlightInv(f: Flight, history: seq<Event>)
  {
    && (f.phase.Probing? ==>
          forall b :: b in f.phase.left || b in f.phase.stale || b in f.phase.empty ==> b < Buckets(f.ctx))
    && (f.phase.Holding? ==> Given(history, f.phase.key, f.phase.response))
  }

  ghost predicate FlightsInv(s: State)
  {
    forall id :: id in s.flights ==> FlightInv(s.flights[id], s.history)
  }

  function EventsOf(history: seq<Event>, id: nat): nat
  {
    if history == [] then 0
    else EventsOf(history[..|history| - 1], id) + if history[|history| - 1].id == id then 1 else 0
  }

  /** The request has been served, or has asked the inner service. */
  predicate Decided(s: State, id: nat)
  {
    id in s.flights && !s.flights[id].phase.Probing?
  }

  ghost predicate OnceInv(s: State)
  {
    forall id :: EventsOf(s.history, id) == if Decided(s, id) then 1 else 0
  }

  /** An event about one of the request's own buckets. */
  ghost predicate Own(s: State, e: Event)
  {
    && e.id in s.flights
    && e.key.bucket < Buckets(s.flights[e.id].ctx)
    && e.key == KeyOf(s.flights[e.id].ctx, s.flights[e.id].req, e.key.bucket)
  }

  ghost predicate OwnInv(s: State)
  {
    forall e :: e in s.history ==> Own(s, e)
  }

  ghost predicate Inv(s: State)
  {
    Grounded(s.history) && StoreInv(s) && FlightsInv(s) && OnceInv(s) && OwnInv(s)
  }

  lemma ActKeepsGrounded(s: State, id: nat, a: Action)
    requires Grounded(s.history) && StoreInv(s) && Enabled(s, Act(id, a))
    ensures Grounded(Apply(s, Act(id, a)).history)
  {
  }

  lemma ActKeepsStore(s: State, id: nat, a: Action)
    requires StoreInv(s) && FlightsInv(s) && Enabled(s, Act(id, a))
    ensures StoreInv(Apply(s, Act(id, a)))
  {
  }

  lemma ActKeepsFlights(s: State, id: nat, a: Action)
    requires FlightsInv(s) && Enabled(s, Act(id, a))
    ensures FlightsInv(Apply(s, Act(id, a)))
  {
  }

  lemma ActKeepsOnce(s: State, id: nat, a: Action)
    requires OnceInv(s) && Enabled(s, Act(id, a))
    ensures OnceInv(Apply(s, Act(id, a)))
  {
  }

  lemma ChosenInRange(f: Flight, history: seq<Event>, random: nat)
    requires FlightInv(f, history) && f.phase.Probing? && Buckets(f.ctx) > 0
    ensures ChosenBucket(f, random) < Buckets(f.ctx)
  {
    if f.phase.stale != [] {
      assert f.phase.stale[0] in f.phase.stale;
    } else if f.phase.empty != [] {
      assert f.phase.empty[0] in f.phase.empty;
    }
  }

  lemma ActKeepsOwn(s: State, id: nat, a: Action)
    requires OwnInv(s) && FlightsInv(s) && Enabled(s, Act(id, a))
    ensures OwnInv(Apply(s, Act(id, a)))
  {
    var f := s.flights[id];
    var e, t := EventOf(s.store, id, f, a), Apply(s, Act(id, a));
    assert FlightInv(f, s.history);
    if a.AskInner? {
      ChosenInRange(f, s.history, a.random);
    }
    forall x | x in t.history ensures Own(t, x) {
      if x in s.history {
        assert Own(s, x);
      }
    }
  }

  lemma StepKeepsInv(s: State, step: Step)
    requires Inv(s) && Enabled(s, step)
    ensures Inv(Apply(s, step))
  {
    match step
    case Begin(id, _, _) =>
      var t := Apply(s, step);
      forall i ensures Decided(t, i) == Decided(s, i) {}
      forall e | e in t.history ensures Own(t, e) { assert Own(s, e); }
    case Act(id, a) =>
      ActKeepsGrounded(s, id, a);
      ActKeepsStore(s, id, a);
      ActKeepsFlights(s, id, a);
      ActKeepsOnce(s, id, a);
      ActKeepsOwn(s, id, a);
    case StoreDrops(_) =>
      forall e | e in s.history ensures Own(Apply(s, step), e) { assert Own(s, e); }
  }

  lemma {:induction false} RunKeepsInv(s: State, steps: seq<Step>)
    requires Inv(s) && Run(s, steps).Some?
    ensures Inv(Run(s, steps).value)
    decreases |steps|
  {
    if steps != [] {
      StepKeepsInv(s, steps[0]);
      RunKeepsInv(Apply(s, steps[0]), steps[1..]);
    }
  }

  lemma {:induction false} GroundedAt(history: seq<Event>, i: nat)
    requires Grounded(history) && i < |history| && history[i].Served?
    ensures Success(history[i].response)
    ensures exists j :: 0 <= j < i && history[j].Answered? && history[j].key == history[i].key &&
                        history[j].response == history[i].response
  {
    var front := history[..|history| - 1];
    if i < |front| {
      GroundedAt(front, i);
      var j :| 0 <= j < i && front[j].Answered? && front[j].key == front[i].key && front[j].response == front[i].response;
      assert history[j] == front[j];
    } else {
      var e :| e in front && e.Answered? && e.key == history[i].key && e.response == history[i].response;
      var j :| 0 <= j < |front| && front[j] == e;
      assert history[j] == e;
    }
  }

  /**
    In every interleaving over an initially empty store, a served response is one that the inner service gave
    earlier, with success, to a request with the same seed, path and query and body, for the same bucket.
   */
  lemma Provenance(steps: seq<Step>, i: nat) returns (j: nat)
    requires Run(Empty, steps).Some? && i < |Run(Empty, steps).value.history|
    requires Run(Empty, steps).value.history[i].Served?
    ensures var s := Run(Empty, steps).value;
      && j < i && s.history[j].Answered? && s.history[j].response == s.history[i].response
      && 200 <= s.history[i].response.status < 300
      && s.history[i].id in s.flights && s.history[j].id in s.flights
      && SameCell(s.flights[s.history[j].id], s.history[j].key.bucket, s.flights[s.history[i].id], s.history[i].key.bucket)
  {
    RunKeepsInv(Empty, steps);
    var s := Run(Empty, steps).value;
    GroundedAt(s.history, i);
    j :| 0 <= j < i && s.history[j].Answered? && s.history[j].key == s.history[i].key &&
      s.history[j].response == s.history[i].response;
    var e, a := s.history[i], s.history[j];
    assert Own(s, e) && Own(s, a);
    SharesCell(s.flights[e.id].ctx, s.flights[e.id].req, e.key.bucket, s.flights[a.id].ctx, s.flights[a.id].req, a.key.bucket);
  }

  /** Two requests are alike in all that tells cached responses apart, and mean the same of their buckets. */
  ghost predicate SameCell(f: Flight, b: nat, g: Flight, c: nat)
  {
    && f.ctx.seed == g.ctx.seed && f.req.pathAndQuery == g.req.pathAndQuery && f.req.body == g.req.body
    && b == c && b < Buckets(f.ctx) && c < Buckets(g.ctx)
  }

  /** A response is served exactly when a probe returns whose entry is there and fresh; a stale one never is. */
  lemma ServesFreshOnly(s: State, id: nat, a: Action)
    requires Enabled(s, Act(id, a))
    ensures var f, t := s.flights[id], Apply(s, Act(id, a));
      (exists key, r :: t.history == s.history + [Served(id, key, r)]) <==>
        a.ProbeReturns? && a.verdict.SaysFresh? && CacheKey(f.ctx.seed, f.req.pathAndQuery, f.req.body, a.bucket) in s.store
  {
    var f, t := s.flights[id], Apply(s, Act(id, a));
    if a.ProbeReturns? {
      var key := KeyOf(f.ctx, f.req, a.bucket);
      if a.verdict.SaysFresh? && key in s.store {
        assert t.history == s.history + [Served(id, key, s.store[key])];
      }
    } else if a.AskInner? {
      assert !t.history[|s.history|].Served?;
    }
  }

  /** The inner service is asked for a stale bucket if there is one, else for an empty one if there is one. */
  lemma AsksForStaleFirst(s: State, id: nat, a: Action)
    requires Enabled(s, Act(id, a)) && a.AskInner?
    ensures var f, t := s.flights[id], Apply(s, Act(id, a));
      && t.flights[id].phase.Holding? && t.flights[id].phase.response == a.response
      && t.history == s.history + [Answered(id, t.flights[id].phase.key, a.response)]
      && (f.phase.stale != [] ==> t.flights[id].phase.key.bucket in f.phase.stale)
      && (f.phase.stale == [] && f.phase.empty != [] ==> t.flights[id].phase.key.bucket in f.phase.empty)
  {
  }

  /** An answer is stored exactly if it is a success that may be stored, and nothing else in the store changes. */
  lemma StoresSuccessOnly(s: State, id: nat)
    requires Enabled(s, Act(id, StoreAnswer))
    ensures var p := s.flights[id].phase;
      Apply(s, Act(id, StoreAnswer)).store ==
        if p.storable && 200 <= p.response.status < 300 then s.store[p.key := p.response] else s.store
  {
  }

  /** Each request is either served once without the inner service, or makes exactly one call to it. */
  lemma OneEventPerRequest(steps: seq<Step>, id: nat)
    requires Run(Empty, steps).Some?
    ensures var s := Run(Empty, steps).value;
      EventsOf(s.history, id) == if Decided(s, id) then 1 else 0
  {
    RunKeepsInv(Empty, steps);
  }

  /** A probe that is not served is put down as stale, as empty, or, if it failed, as neither. */
  lemma ProbesAreSorted(s: State, id: nat, a: Action)
    requires Enabled(s, Act(id, a)) && a.ProbeReturns? && Apply(s, Act(id, a)).flights[id].phase.Probing?
    ensures var f, p := s.flights[id], Apply(s, Act(id, a)).flights[id].phase;
      var stored := CacheKey(f.ctx.seed, f.req.pathAndQuery, f.req.body, a.bucket) in s.store;
      && p.left == f.phase.left - {a.bucket}
      && p.stale == f.phase.stale + (if stored && a.verdict.SaysStale? then [a.bucket] else [])
      && p.empty == f.phase.empty +
           if !a.verdict.ProbeFails? && (!stored || a.verdict.SaysMismatch?) then [a.bucket] else []
  {
  }

  /** Some step of the run is the return of this probe. */
  ghost predicate Probed(steps: seq<Step>, id: nat, b: nat)
  {
    exists i :: 0 <= i < |steps| && steps[i].Act? && steps[i].id == id &&
      steps[i].action.ProbeReturns? && steps[i].action.bucket == b
  }

  ghost predicate ProbedInv(s: State, done: seq<Step>)
  {
    forall id, b :: id in s.flights && 0 <= b < Buckets(s.flights[id].ctx) && Awaits(s.flights[id].phase, b) ==>
      Probed(done, id, b)
  }

  /** Bucket `b` must have been probed for the request to be where it is. */
  predicate Awaits(p: Phase, b: nat)
  {
    p.Holding? || (p.Probing? && b !in p.left)
  }

  lemma StepKeepsProbed(s: State, done: seq<Step>, step: Step)
    requires Enabled(s, step) && ProbedInv(s, done)
    ensures ProbedInv(Apply(s, step), done + [step])
  {
    var t := Apply(s, step);
    forall id, b | Probed(done, id, b) ensures Probed(done + [step], id, b) {
      var i :| 0 <= i < |done| && done[i].Act? && done[i].id == id &&
        done[i].action.ProbeReturns? && done[i].action.bucket == b;
      assert (done + [step])[i] == done[i];
    }
    if step.Act? && step.action.ProbeReturns? {
      assert (done + [step])[|done|] == step;
      assert Probed(done + [step], step.id, step.action.bucket);
    }
  }

  lemma {:induction false} RunKeepsProbed(s: State, done: seq<Step>, steps: seq<Step>)
    requires Run(s, steps).Some? && ProbedInv(s, done)
    ensures ProbedInv(Run(s, steps).value, done + steps)
    decreases |steps|
  {
    if steps == [] {
      assert done + steps == done;
    } else {
      StepKeepsProbed(s, done, steps[0]);
      RunKeepsProbed(Apply(s, steps[0]), done + [steps[0]], steps[1..]);
      assert (done + [steps[0]]) + steps[1..] == done + steps;
    }
  }

  /** In every run, a request that holds an answer of the inner service has had every one of its buckets probed. */
  lemma AsksAfterAllProbes(steps: seq<Step>, id: nat, b: nat)
    requires Run(Empty, steps).Some? && id in Run(Empty, steps).value.flights
    requires Run(Empty, steps).value.flights[id].phase.Holding? && b < Buckets(Run(Empty, steps).value.flights[id].ctx)
    ensures Probed(steps, id, b)
  {
    RunKeepsProbed(Empty, [], steps);
    assert [] + steps == steps;
  }
}
