/** The rate-limit stores and the limiter as they run. */
module RateStores {
  import opened Wrappers
  import opened Bytes
  import opened RateLimit

  class MemoryStore {
    var buckets: Buckets

    constructor ()
      ensures buckets == map[]
    {
      buckets := map[];
    }

    method Count(key: Key, now: nat, window: nat) returns (hits: nat)
      modifies this
      ensures buckets == MemoryHit(old(buckets), key, now, window)
      ensures key in buckets && hits == buckets[key].hits
    {
      if |buckets| > SWEEP_THRESHOLD {
        buckets := Retain(buckets, now);
      }
      var entry := if key in buckets then buckets[key] else Bucket(now + window, 0);
      if now >= entry.expires {
        entry := Bucket(now + window, 0);
      }
      entry := entry.(hits := if entry.hits < U64_RANGE - 1 then entry.hits + 1 else entry.hits);
      buckets := buckets[key := entry];
      hits := entry.hits;
    }

    method PruneExpired(now: nat) returns (removed: nat)
      modifies this
      ensures buckets == Retain(old(buckets), now) && removed == |old(buckets)| - |buckets|
    {
      var before := |buckets|;
      RetainShrinks(buckets, now);
      buckets := Retain(buckets, now);
      removed := before - |buckets|;
    }
  }

  /** The count a trace's event `n` must return, when it is a hit. */
  ghost predicate IdealCount(events: seq<Event>, n: nat, count: nat)
    requires n < |events|
  {
    events[n].Hit? ==>
      var ideal := RunIdeal(events[..n + 1]);
      events[n].key in ideal && count == ideal[events[n].key].hits
  }

  /** The next event of a trace, applied to the in-memory store. */
  method ReplayNext(store: MemoryStore, events: seq<Event>, i: nat) returns (count: nat)
    requires i < |events| <= I64_MAX && Monotone(events) && store.buckets == RunMemory(events[..i])
    modifies store
    ensures store.buckets == RunMemory(events[..i + 1]) && IdealCount(events, i, count)
  {
    ghost var upTo := events[..i + 1];
    assert upTo[..i] == events[..i] && upTo[i] == events[i];
    count := 0;
    match events[i] {
      case Hit(key, now, window) =>
        SameCounts(upTo);
        count := store.Count(key, now, window);
      case Prune(now) =>
        var _ := store.PruneExpired(now);
    }
  }

  /** A trace applied to the in-memory store gives back, hit by hit, the counts of the ideal counter. */
  method Replay(events: seq<Event>) returns (counts: seq<nat>)
    requires Monotone(events) && |events| <= I64_MAX
    ensures |counts| == |events| && forall n :: 0 <= n < |events| ==> IdealCount(events, n, counts[n])
  {
    var store := new MemoryStore();
    counts := [];
    var i := 0;
    while i < |events|
      invariant 0 <= i == |counts| <= |events| && store.buckets == RunMemory(events[..i])
      invariant forall n :: 0 <= n < i ==> IdealCount(events, n, counts[n])
    {
      var count := ReplayNext(store, events, i);
      counts := counts + [count];
      i := i + 1;
    }
  }

  class PostgresStore {
    var buckets: Buckets

    constructor ()
      ensures buckets == map[]
    {
      buckets := map[];
    }

    /** The upsert; None when the database refuses it. */
    method Hit(key: Key, now: nat, window: nat) returns (hits: Option<nat>)
      modifies this
      ensures match PostgresHit(old(buckets), key, now, window)
        case Some(after) => buckets == after && key in after && hits == Some(after[key].hits)
        case None => buckets == old(buckets) && hits == None
    {
      if key in buckets && buckets[key].expires > now && buckets[key].hits + 1 > I64_MAX {
        return None;
      }
      var row := if key in buckets && buckets[key].expires > now
                 then Bucket(buckets[key].expires, buckets[key].hits + 1) else Bucket(now + window, 1);
      buckets := buckets[key := row];
      hits := Some(row.hits);
    }

    method PruneBuckets(now: nat) returns (removed: nat)
      modifies this
      ensures buckets == PostgresPrune(old(buckets), now) && removed == |old(buckets)| - |buckets|
    {
      var ended := set k | k in buckets && buckets[k].expires < now;
      assert ended <= buckets.Keys && (buckets - ended).Keys == buckets.Keys - ended;
      buckets, removed := buckets - ended, |ended|;
      assert |buckets.Keys| == |buckets| && |old(buckets).Keys| == |old(buckets)|;
    }
  }

  /** The limiter handlers call: the shared backend, or this process's own counts while it is down. */
  class RateLimiter {
    const backend: PostgresStore
    const fallback: MemoryStore

    constructor ()
      ensures fresh(backend) && fresh(fallback) && backend.buckets == map[] && fallback.buckets == map[]
    {
      backend := new PostgresStore();
      fallback := new MemoryStore();
    }

    /** `RateLimiter::check`; the backend may fail, before or after counting the hit. */
    method CheckHit(check: Check, limit: nat) returns (allowed: bool)
      modifies backend, fallback
      ensures backend.buckets == BackendAfter(old(backend.buckets), check)
      ensures fallback.buckets == FallbackAfter(old(fallback.buckets), old(backend.buckets), check)
      ensures var used := if Answered(old(backend.buckets), check) then backend.buckets else fallback.buckets;
        check.key in used && (allowed <==> used[check.key].hits <= limit)
    {
      var hits: Option<nat> := None;
      if check.backend != Lost(false) {
        hits := backend.Hit(check.key, check.now, check.window);
      }
      if hits.Some? && check.backend.Fine? {
        return hits.value <= limit;
      }
      var own := fallback.Count(check.key, check.now, check.window);
      allowed := own <= limit;
    }

    /** `RateLimiter::prune`; the backend's part may fail. */
    method Prune(now: nat, backendToo: bool)
      modifies backend, fallback
      ensures fallback.buckets == Retain(old(fallback.buckets), now)
      ensures backend.buckets == if backendToo then PostgresPrune(old(backend.buckets), now) else old(backend.buckets)
    {
      var _ := fallback.PruneExpired(now);
      if backendToo {
        var _ := backend.PruneBuckets(now);
      }
    }

    /** The next turn: a check and its answer, or a pruning. */
    method Handle(turns: seq<Turn>, i: nat, limit: nat) returns (answer: Option<bool>)
      requires i < |turns| <= I64_MAX && InOrder(turns)
      requires Tracks(backend.buckets, fallback.buckets, Asked(turns[..i]), TimeOf(turns, i))
      modifies backend, fallback
      ensures Tracks(backend.buckets, fallback.buckets, Asked(turns[..i + 1]), TimeOf(turns, i + 1))
      ensures answer.Some? <==> turns[i].Ask?
      ensures answer.Some? ==> answer.value == Allows(Asked(turns[..i + 1]), limit)
    {
      AskedNext(turns, i);
      ghost var b, f := backend.buckets, fallback.buckets;
      TracksLater(b, f, Asked(turns[..i]), TimeOf(turns, i), turns[i].Now());
      match turns[i] {
        case Ask(check) =>
          var allowed := CheckHit(check, limit);
          AskTracks(b, f, Asked(turns[..i]), check, limit);
          answer := Some(allowed);
        case Tidy(now, backendToo) =>
          Prune(now, backendToo);
          answer := None;
      }
    }

    /**
     * Checks and prunings in any order, with any failures of the backend: the answers are those of counters
     * that forget nothing, so any half-open interval one window long gets less than four times the limit, and
     * less than twice the limit if the backend never fails.
     */
    method Serve(turns: seq<Turn>, limit: nat) returns (answers: seq<bool>)
      requires |turns| <= I64_MAX && InOrder(turns) && backend.buckets == map[] && fallback.buckets == map[]
      modifies backend, fallback
      ensures Answers(Asked(turns), answers, limit)
      ensures forall key: Key, from: nat, window: nat :: OneWindow(Asked(turns), key, window) ==>
        Limited(Asked(turns), Passed(Asked(turns), answers, key, from, window), limit)
    {
      answers := [];
      var i := 0;
      while i < |turns|
        invariant 0 <= i <= |turns| && Answers(Asked(turns[..i]), answers, limit)
        invariant Tracks(backend.buckets, fallback.buckets, Asked(turns[..i]), TimeOf(turns, i))
      {
        AskedNext(turns, i);
        var answer := Handle(turns, i, limit);
        if answer.Some? {
          AnswersMore(Asked(turns[..i]), turns[i].check, answers, answer.value, limit);
          answers := answers + [answer.value];
        }
        i := i + 1;
      }
      assert turns[..i] == turns;
      forall key: Key, from: nat, window: nat | OneWindow(Asked(turns), key, window)
        ensures Limited(Asked(turns), Passed(Asked(turns), answers, key, from, window), limit)
      {
        AnsweredLimit(turns, answers, key, limit, from, window);
      }
    }
  }

  lemma RetainShrinks(buckets: Buckets, now: nat)
    ensures |Retain(buckets, now)| <= |buckets|
  {
    assert Retain(buckets, now).Keys <= buckets.Keys;
    SubsetSize(Retain(buckets, now).Keys, buckets.Keys);
  }
}
