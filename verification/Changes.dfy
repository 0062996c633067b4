/**
  The vocabulary of service discovery: provider keys, the `Insert`/`Remove` changes
  that travel to a balancer, and what a list of such changes leaves in its pool.
 */
module Changes {

  /** A provider of one router. The endpoint type is fixed per router; `weight` is 0 for the latency strategy. */
  datatype Key = Key(provider: string, weight: nat)

  datatype Change = Insert(key: Key) | Remove(key: Key)

  ghost function KeySet(keys: seq<Key>): set<Key>
  {
    set k | k in keys
  }

  ghost predicate Distinct(keys: seq<Key>)
  {
    forall i, j :: 0 <= i < j < |keys| ==> keys[i] != keys[j]
  }

  function ApplyChange(pool: set<Key>, change: Change): set<Key>
  {
    match change
    case Insert(k) => pool + {k}
    case Remove(k) => pool - {k}
  }

  /** The pool that remains after the changes of `log`, oldest first. */
  function Replay(pool: set<Key>, log: seq<Change>): set<Key>
  {
    if log == [] then pool else ApplyChange(Replay(pool, log[..|log| - 1]), log[|log| - 1])
  }

  /** No change of `log` names `k`. */
  ghost predicate Untouched(log: seq<Change>, k: Key)
  {
    forall i :: 0 <= i < |log| ==> log[i].key != k
  }

  /** `change` is in `log`, and nothing after it names the same key. */
  ghost predicate IsLatest(log: seq<Change>, change: Change)
  {
    exists i :: 0 <= i < |log| && log[i] == change && forall j :: i < j < |log| ==> log[j].key != change.key
  }

  lemma {:induction false} ReplayConcat(pool: set<Key>, a: seq<Change>, b: seq<Change>)
    ensures Replay(pool, a + b) == Replay(Replay(pool, a), b)
    decreases |b|
  {
    if b == [] {
      assert a + b == a;
    } else {
      var front := b[..|b| - 1];
      ReplayConcat(pool, a, front);
      assert (a + b)[..|a + b| - 1] == a + front;
    }
  }

  lemma {:induction false} UntouchedStays(pool: set<Key>, log: seq<Change>, k: Key)
    requires Untouched(log, k)
    ensures k in Replay(pool, log) <==> k in pool
  {
    if log != [] {
      UntouchedStays(pool, log[..|log| - 1], k);
    }
  }

  /** A key is in the pool exactly when its latest change is an insert, or it was there and nobody named it. */
  lemma ReplayIsLatest(pool: set<Key>, log: seq<Change>, k: Key)
    ensures k in Replay(pool, log) <==> IsLatest(log, Insert(k)) || (k in pool && Untouched(log, k))
    ensures k !in Replay(pool, log) <==> IsLatest(log, Remove(k)) || (k !in pool && Untouched(log, k))
  {
    if Untouched(log, k) {
      UntouchedStays(pool, log, k);
    } else {
      var i := LatestIndex(log, k);
      var head, tail := log[..i + 1], log[i + 1..];
      assert log == head + tail && head[..|head| - 1] == log[..i];
      ReplayConcat(pool, head, tail);
      UntouchedStays(Replay(pool, head), tail, k);
      assert IsLatest(log, log[i]);
    }
  }

  lemma {:induction false} LatestIndex(log: seq<Change>, k: Key) returns (i: nat)
    requires !Untouched(log, k)
    ensures i < |log| && log[i].key == k && forall j :: i < j < |log| ==> log[j].key != k
  {
    i := |log| - 1;
    while log[i].key != k
      invariant 0 <= i < |log|
      invariant forall j :: i < j < |log| ==> log[j].key != k
      decreases i
    {
      i := i - 1;
    }
  }
}
