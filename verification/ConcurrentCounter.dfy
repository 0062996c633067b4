/**
  One bucket of the counter under concurrency. An increment is up to four atomic operations (load the lap,
  compare-exchange it, store zero, add one) and a run interleaves those of any number of threads.
 */
module ConcurrentCounter {
  import opened Wrappers
  import opened RollingCounter

  /** Atomic addition wraps around at 32 bits. */
  function Wrapped(n: nat): nat
  {
    n % U32
  }

  lemma WrappedSucc(n: nat)
    ensures Wrapped(Wrapped(n) + 1) == Wrapped(n + 1)
  {
  }

  /** Where a thread is inside its increment. */
  datatype Thread =
    | Loaded(target: nat, lastLap: nat)  // saw another lap, about to compare-exchange
    | Winner                             // installed its lap, about to store zero
    | Adder                              // about to add one

  datatype Event = LapChanged(to: nat) | Zeroed | Added

  datatype State = State(lap: nat, count: nat, threads: map<nat, Thread>, log: seq<Event>)

  datatype Step = Load(tid: nat, target: nat) | CompareExchange(tid: nat) | StoreZero(tid: nat) | Add(tid: nat)

  const Start := State(0, 0, map[], [])

  predicate Enabled(s: State, step: Step)
  {
    match step
    case Load(t, _) => t !in s.threads
    case CompareExchange(t) => t in s.threads && s.threads[t].Loaded?
    case StoreZero(t) => t in s.threads && s.threads[t].Winner?
    case Add(t) => t in s.threads && s.threads[t].Adder?
  }

  function Apply(s: State, step: Step): State
    requires Enabled(s, step)
  {
    match step
    case Load(t, target) =>
      s.(threads := s.threads[t := if s.lap == target then Adder else Loaded(target, s.lap)])
    case CompareExchange(t) =>
      if s.lap == s.threads[t].lastLap then
        s.(lap := s.threads[t].target, threads := s.threads[t := Winner],
           log := s.log + [LapChanged(s.threads[t].target)])
      else s.(threads := s.threads[t := Adder])
    case StoreZero(t) => s.(count := 0, threads := s.threads[t := Adder], log := s.log + [Zeroed])
    case Add(t) => s.(count := Wrapped(s.count + 1), threads := s.threads - {t}, log := s.log + [Added])
  }

  function Run(s: State, steps: seq<Step>): Option<State>
    decreases |steps|
  {
    if steps == [] then Some(s)
    else if Enabled(s, steps[0]) then Run(Apply(s, steps[0]), steps[1..])
    else None
  }

  // ---------- Reading the log ----------

  /** Laps installed whose reset has not happened yet. */
  function Outstanding(log: seq<Event>): int
  {
    if log == [] then 0
    else
      Outstanding(log[..|log| - 1]) +
      match log[|log| - 1] case LapChanged(_) => 1 case Zeroed => -1 case Added => 0
  }

  /** Additions since the lap last changed that were made while no reset was outstanding. */
  function SafeAdds(log: seq<Event>): nat
  {
    if log == [] then 0
    else
      var front := log[..|log| - 1];
      match log[|log| - 1]
      case LapChanged(_) => 0
      case Zeroed => SafeAdds(front)
      case Added => SafeAdds(front) + if Outstanding(front) == 0 then 1 else 0
  }

  /** Additions since the lap last changed that overlapped a reset. */
  function OverlappedAdds(log: seq<Event>): nat
  {
    if log == [] then 0
    else
      var front := log[..|log| - 1];
      match log[|log| - 1]
      case LapChanged(_) => 0
      case Zeroed => OverlappedAdds(front)
      case Added => OverlappedAdds(front) + if Outstanding(front) == 0 then 0 else 1
  }

  /** All additions since the lap last changed, with and without overlap. */
  function AddsThisLap(log: seq<Event>): nat
  {
    if log == [] then 0
    else
      match log[|log| - 1]
      case LapChanged(_) => 0
      case Zeroed => AddsThisLap(log[..|log| - 1])
      case Added => AddsThisLap(log[..|log| - 1]) + 1
  }

  function Adds(log: seq<Event>): nat
  {
    if log == [] then 0 else Adds(log[..|log| - 1]) + if log[|log| - 1].Added? then 1 else 0
  }

  function AddsSinceZero(log: seq<Event>): nat
  {
    if log == [] then 0
    else
      match log[|log| - 1]
      case LapChanged(_) => AddsSinceZero(log[..|log| - 1])
      case Zeroed => 0
      case Added => AddsSinceZero(log[..|log| - 1]) + 1
  }

  // ---------- Invariant ----------

  ghost function Winners(s: State): set<nat>
  {
    set t | t in s.threads && s.threads[t].Winner?
  }

  ghost predicate Inv(s: State)
  {
    && s.count == Wrapped(AddsSinceZero(s.log))
    && Outstanding(s.log) == |Winners(s)|
    && (Outstanding(s.log) == 0 ==> AddsSinceZero(s.log) == SafeAdds(s.log))
    && (Outstanding(s.log) > 0 ==> SafeAdds(s.log) == 0)
  }

  predicate Wins(s: State, step: Step)
    requires Enabled(s, step)
  {
    step.CompareExchange? && s.lap == s.threads[step.tid].lastLap
  }

  /** A thread becomes a winner by installing its lap and stops being one by storing zero. */
  lemma WinnersAfter(s: State, step: Step)
    requires Enabled(s, step)
    ensures Wins(s, step) ==> step.tid !in Winners(s) && Winners(Apply(s, step)) == Winners(s) + {step.tid}
    ensures step.StoreZero? ==> step.tid in Winners(s) && Winners(Apply(s, step)) == Winners(s) - {step.tid}
    ensures !Wins(s, step) && !step.StoreZero? ==> Winners(Apply(s, step)) == Winners(s)
  {
  }

  lemma WinnerCount(s: State, step: Step)
    requires Enabled(s, step)
    ensures |Winners(Apply(s, step))| ==
      |Winners(s)| + (if Wins(s, step) then 1 else if step.StoreZero? then -1 else 0)
    ensures step.StoreZero? ==> |Winners(s)| >= 1
  {
    WinnersAfter(s, step);
  }

  /** What one more event does to a log in which resets never outnumber lap changes. */
  lemma LogSnoc(log: seq<Event>, e: Event)
    requires Outstanding(log) >= (if e.Zeroed? then 1 else 0)
    requires Outstanding(log) == 0 ==> AddsSinceZero(log) == SafeAdds(log)
    requires Outstanding(log) > 0 ==> SafeAdds(log) == 0
    ensures var after := log + [e];
      && Outstanding(after) == Outstanding(log) + (match e case LapChanged(_) => 1 case Zeroed => -1 case Added => 0)
      && AddsSinceZero(after) ==
           (match e case LapChanged(_) => AddsSinceZero(log) case Zeroed => 0 case Added => AddsSinceZero(log) + 1)
      && (Outstanding(after) == 0 ==> AddsSinceZero(after) == SafeAdds(after))
      && (Outstanding(after) > 0 ==> SafeAdds(after) == 0)
  {
  }

  lemma StepKeepsInv(s: State, step: Step)
    requires Inv(s) && Enabled(s, step)
    ensures Inv(Apply(s, step))
  {
    WinnerCount(s, step);
    if Wins(s, step) {
      LogSnoc(s.log, LapChanged(s.threads[step.tid].target));
    } else if step.StoreZero? {
      LogSnoc(s.log, Zeroed);
    } else if step.Add? {
      LogSnoc(s.log, Added);
      WrappedSucc(AddsSinceZero(s.log));
    }
  }

  lemma {:induction false} RunKeepsInv(s: State, steps: seq<Step>)
    requires Inv(s) && Run(s, steps).Some?
    ensures Inv(Run(s, steps).value)
    decreases |steps|
  {
    if steps != [] {
      StepKeepsInv(s, steps[0]);
      RunKeepsInv(Apply(s, steps[0]), steps[1..]);
    }
  }

  lemma {:induction false} AddsSplit(log: seq<Event>)
    ensures AddsThisLap(log) == SafeAdds(log) + OverlappedAdds(log)
  {
    if log != [] {
      AddsSplit(log[..|log| - 1]);
    }
  }

  // ---------- Every increment that is started adds once ----------

  /** The increments that a run starts. */
  function Started(steps: seq<Step>): nat
  {
    if steps == [] then 0 else Started(steps[..|steps| - 1]) + if steps[|steps| - 1].Load? then 1 else 0
  }

  /** Additions made before the lap last changed. */
  function AddsBefore(log: seq<Event>): nat
  {
    if log == [] then 0
    else if log[|log| - 1].LapChanged? then Adds(log[..|log| - 1])
    else AddsBefore(log[..|log| - 1])
  }

  lemma {:induction false} AddsByLap(log: seq<Event>)
    ensures Adds(log) == AddsBefore(log) + AddsThisLap(log)
  {
    if log != [] {
      AddsByLap(log[..|log| - 1]);
    }
  }

  lemma StepConserves(s: State, step: Step)
    requires Enabled(s, step)
    ensures var t := Apply(s, step);
      Adds(t.log) + |t.threads.Keys| == Adds(s.log) + |s.threads.Keys| + if step.Load? then 1 else 0
  {
    var t := Apply(s, step);
    assert t.log[..|s.log|] == s.log;
    match step
    case Load(tid, _) => assert t.threads.Keys == s.threads.Keys + {tid};
    case Add(tid) =>
      assert t.threads.Keys == s.threads.Keys - {tid};
      assert |t.threads.Keys| == |s.threads.Keys| - 1;
    case CompareExchange(_) => assert t.threads.Keys == s.threads.Keys;
    case StoreZero(_) => assert t.threads.Keys == s.threads.Keys;
  }

  /** In every run, each started increment has either added exactly once or is still under way. */
  lemma {:induction false} EveryIncrementAdds(steps: seq<Step>)
    requires Run(Start, steps).Some?
    ensures var s := Run(Start, steps).value; Started(steps) == Adds(s.log) + |s.threads.Keys|
    decreases |steps|
  {
    if steps != [] {
      var n := |steps| - 1;
      RunPrefix(Start, steps, n);
      EveryIncrementAdds(steps[..n]);
      StepConserves(Run(Start, steps[..n]).value, steps[n]);
      assert steps[..n + 1] == steps;
    }
  }

  /**
    In every interleaving, whenever no reset is outstanding the bucket holds the additions made since its
    lap last changed, less exactly those that overlapped a reset (in 32-bit arithmetic). With no increment under
    way, every increment started counts as one of those, or was made in an earlier lap.
   */
  lemma CountIsSafeAdds(steps: seq<Step>)
    requires Run(Start, steps).Some? && Winners(Run(Start, steps).value) == {}
    ensures var s := Run(Start, steps).value;
      && s.count == Wrapped(SafeAdds(s.log))
      && AddsThisLap(s.log) - OverlappedAdds(s.log) == SafeAdds(s.log)
      && Started(steps) == AddsBefore(s.log) + OverlappedAdds(s.log) + SafeAdds(s.log) + |s.threads.Keys|
  {
    assert Winners(Start) == {};
    RunKeepsInv(Start, steps);
    AddsSplit(Run(Start, steps).value.log);
    AddsByLap(Run(Start, steps).value.log);
    EveryIncrementAdds(steps);
  }

  /** If the lap never changes, nothing is lost: the bucket holds one for every increment started and not under way. */
  lemma NothingLostInOneLap(steps: seq<Step>)
    requires Run(Start, steps).Some? && forall e :: e in Run(Start, steps).value.log ==> !e.LapChanged?
    ensures var s := Run(Start, steps).value;
      |s.threads.Keys| <= Started(steps) && s.count == Wrapped(Started(steps) - |s.threads.Keys|)
  {
    var s := Run(Start, steps).value;
    assert Winners(Start) == {};
    RunKeepsInv(Start, steps);
    NoChangeNoZero(s.log);
    EveryIncrementAdds(steps);
  }

  lemma {:induction false} NoChangeNoZero(log: seq<Event>)
    requires forall e :: e in log ==> !e.LapChanged?
    ensures Outstanding(log) <= 0
    ensures Outstanding(log) == 0 ==> AddsSinceZero(log) == Adds(log)
  {
    if log != [] {
      NoChangeNoZero(log[..|log| - 1]);
    }
  }

  // ---------- Increments that are lost, and laps that go back ----------

  lemma RunThree(s: State, a: Step, b: Step, c: Step, rest: seq<Step>)
    requires Enabled(s, a) && Enabled(Apply(s, a), b) && Enabled(Apply(Apply(s, a), b), c)
    ensures Run(s, [a, b, c] + rest) == Run(Apply(Apply(Apply(s, a), b), c), rest)
  {
    RunCons(Apply(Apply(s, a), b), c, rest);
    RunCons(Apply(s, a), b, [c] + rest);
    RunCons(s, a, [b] + ([c] + rest));
    assert [a] + ([b] + ([c] + rest)) == [a, b, c] + rest;
  }

  /** Two increments of one lap after which the bucket holds one: the second thread added before the reset. */
  lemma OverlapLosesIncrement()
    ensures Run(Start, [Load(1, 1), CompareExchange(1), Load(2, 1)] + ([Add(2), StoreZero(1), Add(1)] + [])) ==
      Some(State(1, 1, map[], [LapChanged(1), Added, Zeroed, Added]))
    ensures AddsThisLap([LapChanged(1), Added, Zeroed, Added]) == 2
  {
    var s3 := State(1, 0, map[1 := Winner, 2 := Adder], [LapChanged(1)]);
    assert Apply(Apply(Apply(Start, Load(1, 1)), CompareExchange(1)), Load(2, 1)) == s3;
    RunThree(Start, Load(1, 1), CompareExchange(1), Load(2, 1), [Add(2), StoreZero(1), Add(1)] + []);
    OverlapEnds(s3);
    AddsOfOverlap();
  }

  lemma OverlapEnds(s3: State)
    requires s3 == State(1, 0, map[1 := Winner, 2 := Adder], [LapChanged(1)])
    ensures Run(s3, [Add(2), StoreZero(1), Add(1)] + []) ==
      Some(State(1, 1, map[], [LapChanged(1), Added, Zeroed, Added]))
  {
    var s5 := State(1, 0, map[1 := Adder], [LapChanged(1), Added, Zeroed]);
    assert Apply(Apply(s3, Add(2)), StoreZero(1)) == s5;
    assert Apply(s5, Add(1)) == State(1, 1, map[], [LapChanged(1), Added, Zeroed, Added]);
    RunThree(s3, Add(2), StoreZero(1), Add(1), []);
  }

  lemma AddsOfOverlap()
    ensures AddsThisLap([LapChanged(1), Added, Zeroed, Added]) == 2
  {
    var log := [LapChanged(1), Added, Zeroed, Added];
    assert log[..3][..2] == [LapChanged(1), Added] && log[..3][..2][..1] == [LapChanged(1)];
    assert AddsThisLap(log[..3][..2]) == 1;
  }

  lemma RunCons(s: State, step: Step, rest: seq<Step>)
    requires Enabled(s, step)
    ensures Run(s, [step] + rest) == Run(Apply(s, step), rest)
  {
  }

  /** No thread ever starts with a lap older than the bucket's. */
  ghost predicate NeverStale(s: State, steps: seq<Step>)
    decreases |steps|
  {
    steps != [] && Enabled(s, steps[0]) ==>
      (steps[0].Load? ==> s.lap <= steps[0].target) && NeverStale(Apply(s, steps[0]), steps[1..])
  }

  ghost predicate Forward(s: State)
  {
    forall t :: t in s.threads && s.threads[t].Loaded? ==> s.threads[t].lastLap <= s.threads[t].target
  }

  /** Then the bucket's lap never goes back ... */
  lemma {:induction false} LapNeverFalls(s: State, steps: seq<Step>)
    requires Run(s, steps).Some? && NeverStale(s, steps) && Forward(s)
    ensures s.lap <= Run(s, steps).value.lap
    decreases |steps|
  {
    if steps != [] {
      LapNeverFalls(Apply(s, steps[0]), steps[1..]);
    }
  }

  /** ... and one stale thread is enough to take it back and wipe what the newer lap had counted. */
  lemma StaleThreadRewinds(s: State, t: nat, target: nat)
    requires t !in s.threads && target < s.lap
    ensures var steps := [Load(t, target), CompareExchange(t), StoreZero(t)];
      && Run(s, steps).Some?
      && Run(s, steps).value.lap == target && Run(s, steps).value.count == 0
  {
    var s1 := Apply(s, Load(t, target));
    var s2 := Apply(s1, CompareExchange(t));
    RunCons(s2, StoreZero(t), []);
    RunCons(s1, CompareExchange(t), [StoreZero(t)]);
    RunCons(s, Load(t, target), [CompareExchange(t), StoreZero(t)]);
  }

  // ---------- Exactly when a lap falls ----------

  /** The state before step `i` of a run. */
  ghost function StateAt(steps: seq<Step>, i: nat): State
    requires Run(Start, steps).Some? && i <= |steps|
  {
    RunPrefix(Start, steps, i);
    Run(Start, steps[..i]).value
  }

  lemma {:induction false} RunPrefix(s: State, steps: seq<Step>, i: nat)
    requires Run(s, steps).Some? && i <= |steps|
    ensures Run(s, steps[..i]).Some?
    ensures i < |steps| ==> Enabled(Run(s, steps[..i]).value, steps[i])
    ensures i < |steps| ==> Run(s, steps[..i + 1]) == Some(Apply(Run(s, steps[..i]).value, steps[i]))
    decreases i
  {
    if i == 0 {
      assert i < |steps| ==> steps[..1] == [steps[0]] + [];
    } else {
      assert steps[..i][1..] == steps[1..][..i - 1];
      assert i < |steps| ==> steps[..i + 1][1..] == steps[1..][..i];
      RunPrefix(Apply(s, steps[0]), steps[1..], i - 1);
    }
  }

  /** Step `j` is the load of the increment that thread `t` is still in before step `i`. */
  ghost predicate LoadsFor(steps: seq<Step>, t: nat, j: nat, i: nat)
    requires j < i <= |steps|
  {
    steps[j].Load? && steps[j].tid == t && forall m :: j < m < i ==> steps[m].tid != t
  }

  /** A thread before its compare-exchange carries the target and the lap of its load. */
  lemma {:induction false} LoadedCarries(steps: seq<Step>, t: nat, j: nat, i: nat)
    requires Run(Start, steps).Some? && j < i <= |steps| && LoadsFor(steps, t, j, i)
    ensures t in StateAt(steps, i).threads
    ensures var before, target := StateAt(steps, j).lap, steps[j].target;
      StateAt(steps, i).threads[t] == if before == target then Adder else Loaded(target, before)
    decreases i
  {
    RunPrefix(Start, steps, i - 1);
    if j < i - 1 {
      LoadedCarries(steps, t, j, i - 1);
    }
  }

  lemma {:induction false} LoadedComesFrom(steps: seq<Step>, t: nat, i: nat) returns (j: nat)
    requires Run(Start, steps).Some? && i <= |steps|
    requires t in StateAt(steps, i).threads && StateAt(steps, i).threads[t].Loaded?
    ensures j < i && LoadsFor(steps, t, j, i)
    decreases i
  {
    RunPrefix(Start, steps, i - 1);
    if steps[i - 1].tid == t {
      j := i - 1;
    } else {
      j := LoadedComesFrom(steps, t, i - 1);
    }
  }

  /** The thread of step `i` installs a lap, and its load had asked for an older lap than it saw. */
  ghost predicate InstallsStale(steps: seq<Step>, i: nat)
    requires Run(Start, steps).Some? && i < |steps|
  {
    && steps[i].CompareExchange?
    && exists j :: 0 <= j < i && LoadsFor(steps, steps[i].tid, j, i) &&
                   steps[j].target < StateAt(steps, j).lap == StateAt(steps, i).lap
  }

  /** In every run, a step lowers the lap if and only if it is the winning compare-exchange of a stale thread. */
  lemma LapFallsExactly(steps: seq<Step>, i: nat)
    requires Run(Start, steps).Some? && i < |steps|
    ensures StateAt(steps, i + 1).lap < StateAt(steps, i).lap <==> InstallsStale(steps, i)
  {
    RunPrefix(Start, steps, i);
    if steps[i].CompareExchange? {
      var j := LoadedComesFrom(steps, steps[i].tid, i);
      LoadedCarries(steps, steps[i].tid, j, i);
      if InstallsStale(steps, i) {
        var m :| 0 <= m < i && LoadsFor(steps, steps[i].tid, m, i) &&
          steps[m].target < StateAt(steps, m).lap == StateAt(steps, i).lap;
        LoadedCarries(steps, steps[i].tid, m, i);
      }
    }
  }

  // ---------- Reading the bucket while increments go on ----------

  /** What a total takes from the bucket: the lap is loaded before step `i`, the count later, before step `j`. */
  ghost function ReadAt(steps: seq<Step>, nowLap: nat, i: nat, j: nat): Option<nat>
    requires Run(Start, steps).Some? && i <= j <= |steps|
  {
    if StateAt(steps, i).lap == nowLap then Some(StateAt(steps, j).count) else None
  }

  ghost predicate NoChangeBetween(steps: seq<Step>, i: nat, j: nat)
    requires Run(Start, steps).Some? && i <= j <= |steps|
  {
    var before, after := StateAt(steps, i).log, StateAt(steps, j).log;
    forall m :: |before| <= m < |after| ==> !after[m].LapChanged?
  }

  /** The log only grows and, while the lap does not change, so do the additions made without a reset outstanding. */
  lemma {:induction false} LogGrows(steps: seq<Step>, i: nat, j: nat)
    requires Run(Start, steps).Some? && i <= j <= |steps|
    ensures StateAt(steps, i).log <= StateAt(steps, j).log
    ensures NoChangeBetween(steps, i, j) ==>
      && StateAt(steps, j).lap == StateAt(steps, i).lap
      && SafeAdds(StateAt(steps, i).log) <= SafeAdds(StateAt(steps, j).log)
    decreases j
  {
    if i < j {
      RunPrefix(Start, steps, j - 1);
      LogGrows(steps, i, j - 1);
      StepGrows(StateAt(steps, j - 1), steps[j - 1]);
      if NoChangeBetween(steps, i, j) {
        var mid, after := StateAt(steps, j - 1).log, StateAt(steps, j).log;
        assert forall m :: 0 <= m < |mid| ==> mid[m] == after[m];
        assert NoChangeBetween(steps, i, j - 1);
      }
    }
  }

  lemma StepGrows(s: State, step: Step)
    requires Enabled(s, step)
    ensures var t := Apply(s, step);
      && s.log <= t.log && |t.log| <= |s.log| + 1
      && (|t.log| == |s.log| || !t.log[|s.log|].LapChanged? ==> t.lap == s.lap && SafeAdds(s.log) <= SafeAdds(t.log))
  {
    var t := Apply(s, step);
    assert t.log[..|s.log|] == s.log;
  }

  /**
    A read with no lap change between its loads and no reset outstanding at the second counts for the current lap:
    at least the additions that were safe when it began, at most all additions of the lap when it ended.
   */
  lemma ReadReturns(steps: seq<Step>, nowLap: nat, i: nat, j: nat) returns (n: nat)
    requires Run(Start, steps).Some? && i <= j <= |steps|
    requires ReadAt(steps, nowLap, i, j).Some? && NoChangeBetween(steps, i, j) && Winners(StateAt(steps, j)) == {}
    ensures ReadAt(steps, nowLap, i, j) == Some(Wrapped(n)) && StateAt(steps, j).lap == nowLap
    ensures SafeAdds(StateAt(steps, i).log) <= n <= AddsThisLap(StateAt(steps, j).log)
  {
    LogGrows(steps, i, j);
    RunPrefix(Start, steps, j);
    CountIsSafeAdds(steps[..j]);
    n := SafeAdds(StateAt(steps, j).log);
  }

  /** What the second load finds is right for the lap then current, unless a reset is outstanding over a left-over count. */
  lemma ReadExactly(steps: seq<Step>, j: nat)
    requires Run(Start, steps).Some? && j <= |steps|
    ensures CountsLap(StateAt(steps, j)) <==> Winners(StateAt(steps, j)) == {} || StateAt(steps, j).count == 0
  {
    InvAt(steps, j);
    CountExactly(StateAt(steps, j));
  }

  /** The count is that of the safe additions of the current lap. */
  ghost predicate CountsLap(s: State)
  {
    s.count == Wrapped(SafeAdds(s.log))
  }

  lemma InvAt(steps: seq<Step>, j: nat)
    requires Run(Start, steps).Some? && j <= |steps|
    ensures Inv(StateAt(steps, j))
  {
    RunPrefix(Start, steps, j);
    assert Winners(Start) == {};
    RunKeepsInv(Start, steps[..j]);
  }

  lemma CountExactly(s: State)
    requires Inv(s)
    ensures CountsLap(s) <==> Winners(s) == {} || s.count == 0
  {
    assert |Winners(s)| == 0 <==> Winners(s) == {};
  }

  /** So a total can report the additions of an old lap as current: the lap is new and the reset is still to come. */
  lemma ReadSeesOldLap()
    ensures var steps := [Load(1, 0), Add(1), Load(1, 1)] + [CompareExchange(1)];
      && Run(Start, steps).Some? && ReadAt(steps, 1, 4, 4) == Some(1)
      && AddsThisLap(StateAt(steps, 4).log) == 0
  {
    var steps := [Load(1, 0), Add(1), Load(1, 1)] + [CompareExchange(1)];
    RunThree(Start, Load(1, 0), Add(1), Load(1, 1), [CompareExchange(1)]);
    RunCons(Apply(Apply(Apply(Start, Load(1, 0)), Add(1)), Load(1, 1)), CompareExchange(1), []);
    assert [CompareExchange(1)] + [] == [CompareExchange(1)];
    assert steps[..4] == steps;
  }

  // ---------- One increment alone ----------

  /** Uninterrupted, an increment in the bucket's own lap counts on ... */
  lemma AloneCountsOn(s: State, t: nat)
    requires t !in s.threads
    ensures Run(s, [Load(t, s.lap)] + [Add(t)]).Some?
    ensures var after := Run(s, [Load(t, s.lap)] + [Add(t)]).value;
      after.lap == s.lap && after.threads == s.threads && after.count == Wrapped(s.count + 1)
  {
    var s1 := Apply(s, Load(t, s.lap));
    RunCons(s1, Add(t), []);
    RunCons(s, Load(t, s.lap), [Add(t)]);
    assert [Add(t)] + [] == [Add(t)];
  }

  /** ... and in any other lap starts that lap at one, as in the sequential counter. */
  lemma AloneStartsLap(s: State, t: nat, target: nat)
    requires t !in s.threads && s.lap != target
    ensures var steps := [Load(t, target), CompareExchange(t), StoreZero(t)] + [Add(t)];
      && Run(s, steps).Some?
      && Run(s, steps).value.(log := s.log) == State(target, 1, s.threads, s.log)
  {
    var s1 := Apply(s, Load(t, target));
    var s2 := Apply(s1, CompareExchange(t));
    var s3 := Apply(s2, StoreZero(t));
    RunThree(s, Load(t, target), CompareExchange(t), StoreZero(t), [Add(t)]);
    RunCons(s3, Add(t), []);
    assert [Add(t)] + [] == [Add(t)];
    assert s3.threads == s.threads[t := Adder];
  }
}
