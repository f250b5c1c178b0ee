/** Fixed-window rate limiting: two stores that forget expired windows, and the counter they imitate. */
module RateLimit {
  import opened Wrappers
  import opened Bytes

  const SWEEP_THRESHOLD: nat := 10_000

  /** The limited subject and the endpoint class. */
  type Key = (string, string)

  /** When the current window ends, and the hits so far within it. */
  datatype Bucket = Bucket(expires: nat, hits: nat)
  type Buckets = map<Key, Bucket>

  // --- the idealised counter: nothing is ever forgotten ----------------------------------------------

  function NextBucket(buckets: Buckets, key: Key, now: nat, window: nat): Bucket {
    if key in buckets && now < buckets[key].expires then Bucket(buckets[key].expires, buckets[key].hits + 1)
    else Bucket(now + window, 1)
  }

  function IdealHit(buckets: Buckets, key: Key, now: nat, window: nat): Buckets {
    buckets[key := NextBucket(buckets, key, now, window)]
  }

  // --- the in-memory store ------------------------------------------------------------------------------

  /** Drop the windows that have ended. */
  function Retain(buckets: Buckets, now: nat): Buckets {
    map k | k in buckets && buckets[k].expires > now :: buckets[k]
  }

  /** `MemoryRateLimitStore::count`, sweeping first when there are many buckets; counts saturate at 64 bits. */
  function MemoryHit(buckets: Buckets, key: Key, now: nat, window: nat): Buckets {
    var swept := if |buckets| > SWEEP_THRESHOLD then Retain(buckets, now) else buckets;
    var entry := if key in swept then swept[key] else Bucket(now + window, 0);
    var current := if now >= entry.expires then Bucket(now + window, 0) else entry;
    swept[key := current.(hits := if current.hits < U64_RANGE - 1 then current.hits + 1 else current.hits)]
  }

  // --- the Postgres store ---------------------------------------------------------------------------------

  /** `rate_limit_hit`; None when the 64-bit column overflows. */
  function PostgresHit(buckets: Buckets, key: Key, now: nat, window: nat): Option<Buckets> {
    if key !in buckets then Some(buckets[key := Bucket(now + window, 1)])
    else if buckets[key].expires <= now then Some(buckets[key := Bucket(now + window, 1)])
    else if buckets[key].hits + 1 > I64_MAX then None
    else Some(buckets[key := buckets[key].(hits := buckets[key].hits + 1)])
  }

  /** `prune_rate_limit_buckets`. */
  function PostgresPrune(buckets: Buckets, now: nat): Buckets {
    map k | k in buckets && !(buckets[k].expires < now) :: buckets[k]
  }

  // --- column by column ---------------------------------------------------------------------------------------

  /** A window that has not ended. */
  ghost predicate Running(buckets: Buckets, key: Key, now: nat) {
    key in buckets && now < buckets[key].expires
  }

  /** A hit on a running window is one more in it, and any other starts one. */
  ghost predicate CountsOne(before: Buckets, after: Buckets, key: Key, now: nat, window: nat) {
    && key in after
    && (Running(before, key, now) ==> after[key] == Bucket(before[key].expires, before[key].hits + 1))
    && (!Running(before, key, now) ==> after[key] == Bucket(now + window, 1))
  }

  ghost predicate KeepsOnly(before: Buckets, after: Buckets, kept: set<Key>, but: set<Key>) {
    after.Keys - but == kept - but && forall k :: k in kept - but && k in before && k in after ==> after[k] == before[k]
  }

  /** In memory the count stays at 2^64 - 1, and past ten thousand buckets the ended ones are dropped. */
  lemma MemoryHitCounts(buckets: Buckets, key: Key, now: nat, window: nat)
    ensures var after := MemoryHit(buckets, key, now, window);
      && (Running(buckets, key, now) && buckets[key].hits >= 0xFFFF_FFFF_FFFF_FFFF ==>
            key in after && after[key] == buckets[key])
      && (!(Running(buckets, key, now) && buckets[key].hits >= 0xFFFF_FFFF_FFFF_FFFF) ==>
            CountsOne(buckets, after, key, now, window))
      && (|buckets| <= 10_000 ==> KeepsOnly(buckets, after, buckets.Keys, {key}))
      && (|buckets| > 10_000 ==> KeepsOnly(buckets, after, set k | k in buckets && now < buckets[k].expires, {key}))
  {
  }

  /** In Postgres a hit is refused exactly at 2^63 - 1, and nothing else is touched. */
  lemma PostgresHitCounts(buckets: Buckets, key: Key, now: nat, window: nat)
    ensures var after := PostgresHit(buckets, key, now, window);
      && (after.None? <==> Running(buckets, key, now) && buckets[key].hits >= 0x7FFF_FFFF_FFFF_FFFF)
      && (after.Some? ==>
            CountsOne(buckets, after.value, key, now, window) && KeepsOnly(buckets, after.value, buckets.Keys, {key}))
  {
  }

  /** Both sweeps keep every running window; the one in Postgres also those ending now. */
  lemma SweepsKeep(buckets: Buckets, now: nat)
    ensures KeepsOnly(buckets, Retain(buckets, now), set k | k in buckets && now < buckets[k].expires, {})
    ensures KeepsOnly(buckets, PostgresPrune(buckets, now), set k | k in buckets && now <= buckets[k].expires, {})
  {
  }

  // --- runs ---------------------------------------------------------------------------------------------------

  datatype Event = Hit(key: Key, now: nat, window: nat) | Prune(now: nat)

  function RunIdeal(events: seq<Event>): Buckets {
    if events == [] then map[]
    else
      var before := RunIdeal(events[..|events| - 1]);
      match events[|events| - 1]
      case Hit(key, now, window) => IdealHit(before, key, now, window)
      case Prune(_) => before
  }

  function RunMemory(events: seq<Event>): Buckets {
    if events == [] then map[]
    else
      var before := RunMemory(events[..|events| - 1]);
      match events[|events| - 1]
      case Hit(key, now, window) => MemoryHit(before, key, now, window)
      case Prune(now) => Retain(before, now)
  }

  function RunPostgres(events: seq<Event>): Buckets {
    if events == [] then map[]
    else
      var before := RunPostgres(events[..|events| - 1]);
      match events[|events| - 1]
      case Hit(key, now, window) =>
        var after := PostgresHit(before, key, now, window);
        if after.Some? then after.value else before
      case Prune(now) => PostgresPrune(before, now)
  }

  ghost predicate Monotone(events: seq<Event>) {
    forall i, j :: 0 <= i < j < |events| ==> events[i].now <= events[j].now
  }

  // --- forgetting is invisible --------------------------------------------------------------------------------

  /** The store holds some of the ideal buckets, and all of those still running at `now`. */
  ghost predicate Remembers(store: Buckets, ideal: Buckets, now: nat) {
    && (forall k :: k in store ==> k in ideal && store[k] == ideal[k])
    && (forall k :: k in ideal && ideal[k].expires > now ==> k in store)
  }

  /** No count exceeds the number of events so far. */
  lemma {:induction false} CountsBounded(events: seq<Event>)
    ensures forall k :: k in RunIdeal(events) ==> RunIdeal(events)[k].hits <= |events|
  {
    if events != [] {
      CountsBounded(events[..|events| - 1]);
    }
  }

  lemma MemoryHitRemembers(store: Buckets, ideal: Buckets, key: Key, now: nat, window: nat)
    requires Remembers(store, ideal, now) && forall k :: k in ideal ==> ideal[k].hits < U64_RANGE - 1
    ensures Remembers(MemoryHit(store, key, now, window), IdealHit(ideal, key, now, window), now)
    ensures key in MemoryHit(store, key, now, window)
  {
  }

  lemma PostgresHitRemembers(store: Buckets, ideal: Buckets, key: Key, now: nat, window: nat)
    requires Remembers(store, ideal, now) && forall k :: k in ideal ==> ideal[k].hits < I64_MAX
    ensures PostgresHit(store, key, now, window).Some?
    ensures Remembers(PostgresHit(store, key, now, window).value, IdealHit(ideal, key, now, window), now)
    ensures key in PostgresHit(store, key, now, window).value
  {
  }

  lemma RemembersLater(store: Buckets, ideal: Buckets, now: nat, later: nat)
    requires Remembers(store, ideal, now) && now <= later
    ensures Remembers(store, ideal, later)
  {
  }

  /** After any run on a clock that never goes back, both stores remember every running window exactly. */
  lemma {:induction false} StoresRemember(events: seq<Event>, now: nat)
    requires Monotone(events) && |events| <= I64_MAX && forall i :: 0 <= i < |events| ==> events[i].now <= now
    ensures Remembers(RunMemory(events), RunIdeal(events), now)
    ensures Remembers(RunPostgres(events), RunIdeal(events), now)
  {
    if events != [] {
      var init, e := events[..|events| - 1], events[|events| - 1];
      StoresRemember(init, e.now);
      CountsBounded(init);
      if e.Hit? {
        MemoryHitRemembers(RunMemory(init), RunIdeal(init), e.key, e.now, e.window);
        PostgresHitRemembers(RunPostgres(init), RunIdeal(init), e.key, e.now, e.window);
      }
      RemembersLater(RunMemory(events), RunIdeal(events), e.now, now);
      RemembersLater(RunPostgres(events), RunIdeal(events), e.now, now);
    }
  }

  /** So a hit returns the same count from the swept memory store, from Postgres and from the ideal. */
  lemma SameCounts(events: seq<Event>)
    requires Monotone(events) && |events| <= I64_MAX && events != [] && events[|events| - 1].Hit?
    ensures var key := events[|events| - 1].key;
      && key in RunIdeal(events) && key in RunMemory(events) && key in RunPostgres(events)
      && RunMemory(events)[key].hits == RunIdeal(events)[key].hits == RunPostgres(events)[key].hits
  {
    var init, e := events[..|events| - 1], events[|events| - 1];
    StoresRemember(init, e.now);
    CountsBounded(init);
    MemoryHitRemembers(RunMemory(init), RunIdeal(init), e.key, e.now, e.window);
    PostgresHitRemembers(RunPostgres(init), RunIdeal(init), e.key, e.now, e.window);
  }

  // --- how much gets through ----------------------------------------------------------------------------------

  /** A check as one store sees it: whether it counts there, and whether that store's answer is used. */
  datatype Use = Use(key: Key, now: nat, window: nat, counts: bool, answers: bool)

  function RunUses(uses: seq<Use>): Buckets {
    if uses == [] then map[]
    else
      var before, use := RunUses(uses[..|uses| - 1]), uses[|uses| - 1];
      if use.counts then IdealHit(before, use.key, use.now, use.window) else before
  }

  /** Whether the last check is let through on this store's answer. */
  predicate LetThrough(uses: seq<Use>, limit: nat)
    requires uses != []
  {
    var use := uses[|uses| - 1];
    use.answers && use.counts && NextBucket(RunUses(uses[..|uses| - 1]), use.key, use.now, use.window).hits <= limit
  }

  /** How many checks of `key` at times in `[from, from + window)` are let through. */
  function Admissions(uses: seq<Use>, key: Key, limit: nat, from: nat, window: nat): nat {
    if uses == [] then 0
    else
      var use := uses[|uses| - 1];
      Admissions(uses[..|uses| - 1], key, limit, from, window)
      + if use.key == key && from <= use.now < from + window && LetThrough(uses, limit) then 1 else 0
  }

  ghost predicate Timely(uses: seq<Use>, key: Key, window: nat) {
    && (forall i, j :: 0 <= i < j < |uses| ==> uses[i].now <= uses[j].now)
    && (forall i :: 0 <= i < |uses| && uses[i].key == key ==> uses[i].window == window)
  }

  /** The most one store lets through in one window's time: the limit twice, less one hit. */
  function Most(limit: nat): nat {
    if limit == 0 then 0 else 2 * limit - 1
  }

  /** How far the interval has been used up, by where the current fixed window lies against it. */
  ghost predicate Spent(admitted: nat, buckets: Buckets, key: Key, limit: nat, from: nat, window: nat, now: nat) {
    if key !in buckets then admitted == 0
    else
      var ends, hits := buckets[key].expires, buckets[key].hits;
      && ends <= now + window && 1 <= hits && admitted <= Most(limit)
      && (ends <= from || limit == 0 ==> admitted == 0)
      // A window that began before the interval had its opening hit outside it.
      && (from < ends < from + window && limit > 0 ==> admitted <= Min(hits, limit) - 1)
      && (ends == from + window ==> admitted <= Min(hits, limit))
      && (from + window < ends < from + 2 * window && limit > 0 ==> admitted <= limit - 1 + Min(hits, limit))
  }

  lemma SpentStep(admitted: nat, buckets: Buckets, key: Key, limit: nat, from: nat, window: nat, was: nat, now: nat)
    requires Spent(admitted, buckets, key, limit, from, window, was) && was <= now
    ensures var next := NextBucket(buckets, key, now, window);
      var more := if from <= now < from + window && next.hits <= limit then 1 else 0;
      Spent(admitted + more, buckets[key := next], key, limit, from, window, now)
      && Spent(admitted, buckets[key := next], key, limit, from, window, now)
  {
  }

  lemma {:induction false} AdmissionsSpent(uses: seq<Use>, key: Key, limit: nat, from: nat, window: nat, now: nat)
    requires Timely(uses, key, window) && forall i :: 0 <= i < |uses| ==> uses[i].now <= now
    ensures Spent(Admissions(uses, key, limit, from, window), RunUses(uses), key, limit, from, window, now)
  {
    if uses != [] {
      var init, use := uses[..|uses| - 1], uses[|uses| - 1];
      AdmissionsSpent(init, key, limit, from, window, use.now);
      if use.key == key && use.counts {
        SpentStep(Admissions(init, key, limit, from, window), RunUses(init), key, limit, from, window, use.now,
                  use.now);
      }
    }
  }

  /** In any half-open interval one window long, one store lets through less than twice the limit. */
  lemma TwiceTheLimit(uses: seq<Use>, key: Key, limit: nat, from: nat, window: nat)
    requires Timely(uses, key, window)
    ensures Admissions(uses, key, limit, from, window) <= Most(limit)
  {
    if uses != [] {
      AdmissionsSpent(uses, key, limit, from, window, uses[|uses| - 1].now);
    }
  }

  /** `n` checks at once. */
  function Burst(key: Key, now: nat, window: nat, n: nat): seq<Use> {
    seq(n, _ => Use(key, now, window, true, true))
  }

  /** A burst within the limit of a running window all gets through. */
  lemma {:induction false} BurstAdmitted(uses: seq<Use>, key: Key, limit: nat, from: nat, window: nat, now: nat, n: nat)
    requires key in RunUses(uses) && now < RunUses(uses)[key].expires && RunUses(uses)[key].hits + n <= limit
    requires from <= now < from + window
    ensures var more := uses + Burst(key, now, window, n);
      && key in RunUses(more) && RunUses(more)[key] == RunUses(uses)[key].(hits := RunUses(uses)[key].hits + n)
      && Admissions(more, key, limit, from, window) == Admissions(uses, key, limit, from, window) + n
  {
    var more := uses + Burst(key, now, window, n);
    if n == 0 {
      assert more == uses;
    } else {
      BurstAdmitted(uses, key, limit, from, window, now, n - 1);
      assert more[..|more| - 1] == uses + Burst(key, now, window, n - 1);
    }
  }

  /** A check once the window is over opens the next one, and gets through. */
  lemma OpeningAdmitted(uses: seq<Use>, key: Key, limit: nat, from: nat, window: nat, now: nat)
    requires (key in RunUses(uses) ==> RunUses(uses)[key].expires <= now) && limit >= 1
    ensures var more := uses + Burst(key, now, window, 1);
      && key in RunUses(more) && RunUses(more)[key] == Bucket(now + window, 1)
      && Admissions(more, key, limit, from, window)
         == Admissions(uses, key, limit, from, window) + if from <= now < from + window then 1 else 0
  {
    assert (uses + Burst(key, now, window, 1))[..|uses|] == uses;
  }

  /** One hit, the rest of the limit just before its window ends, and the whole limit just after. */
  function Worst(key: Key, limit: nat, window: nat): seq<Use>
    requires limit >= 1 && window >= 1
  {
    Burst(key, 0, window, 1) + Burst(key, window - 1, window, limit - 1)
    + Burst(key, window, window, 1) + Burst(key, window, window, limit - 1)
  }

  lemma WorstIsTimely(key: Key, limit: nat, window: nat)
    requires limit >= 1 && window >= 1
    ensures Timely(Worst(key, limit, window), key, window)
  {
  }

  /** The bound is attained, for every limit and every window of at least two ticks. */
  lemma MostIsAttained(key: Key, limit: nat, window: nat)
    requires limit >= 1 && window >= 2
    ensures Timely(Worst(key, limit, window), key, window)
    ensures Admissions(Worst(key, limit, window), key, limit, window - 1, window) == Most(limit) == 2 * limit - 1
    ensures Most(0) == 0
  {
    WorstIsTimely(key, limit, window);
    var from := window - 1;
    var a := Burst(key, 0, window, 1);
    assert [] + a == a;
    OpeningAdmitted([], key, limit, from, window, 0);
    BurstAdmitted(a, key, limit, from, window, window - 1, limit - 1);
    var b := a + Burst(key, window - 1, window, limit - 1);
    OpeningAdmitted(b, key, limit, from, window, window);
    BurstAdmitted(b + Burst(key, window, window, 1), key, limit, from, window, window, limit - 1);
  }

  // --- the limiter with its fallback ------------------------------------------------------------------------------

  /** A check, and how the backend's part of it fares; a lost one may have counted the hit. */
  datatype Check = Check(key: Key, now: nat, window: nat, backend: Fault)

  function BackendUses(checks: seq<Check>): seq<Use> {
    seq(|checks|, i requires 0 <= i < |checks| =>
      Use(checks[i].key, checks[i].now, checks[i].window, checks[i].backend != Lost(false), checks[i].backend.Fine?))
  }

  function FallbackUses(checks: seq<Check>): seq<Use> {
    seq(|checks|, i requires 0 <= i < |checks| =>
      Use(checks[i].key, checks[i].now, checks[i].window, checks[i].backend.Lost?, checks[i].backend.Lost?))
  }

  /** `RateLimiter::check` on the last of these checks. */
  predicate Allows(checks: seq<Check>, limit: nat)
    requires checks != []
  {
    if checks[|checks| - 1].backend.Fine? then LetThrough(BackendUses(checks), limit)
    else LetThrough(FallbackUses(checks), limit)
  }

  function Allowed(checks: seq<Check>, key: Key, limit: nat, from: nat, window: nat): nat {
    if checks == [] then 0
    else
      var check := checks[|checks| - 1];
      Allowed(checks[..|checks| - 1], key, limit, from, window)
      + if check.key == key && from <= check.now < from + window && Allows(checks, limit) then 1 else 0
  }

  lemma {:induction false} AllowedSplits(checks: seq<Check>, key: Key, limit: nat, from: nat, window: nat)
    ensures Allowed(checks, key, limit, from, window)
         == Admissions(BackendUses(checks), key, limit, from, window)
          + Admissions(FallbackUses(checks), key, limit, from, window)
  {
    if checks != [] {
      var init := checks[..|checks| - 1];
      AllowedSplits(init, key, limit, from, window);
      assert BackendUses(checks)[..|checks| - 1] == BackendUses(init);
      assert FallbackUses(checks)[..|checks| - 1] == FallbackUses(init);
    }
  }

  /** However the backend fails, any interval one window long lets through less than four times the limit. */
  lemma FourTimesTheLimit(checks: seq<Check>, key: Key, limit: nat, from: nat, window: nat)
    requires forall i, j :: 0 <= i < j < |checks| ==> checks[i].now <= checks[j].now
    requires forall i :: 0 <= i < |checks| && checks[i].key == key ==> checks[i].window == window
    ensures Allowed(checks, key, limit, from, window) <= 2 * Most(limit)
    ensures (forall i :: 0 <= i < |checks| ==> checks[i].backend.Fine?) ==>
      Allowed(checks, key, limit, from, window) <= Most(limit)
  {
    AllowedSplits(checks, key, limit, from, window);
    TwiceTheLimit(BackendUses(checks), key, limit, from, window);
    TwiceTheLimit(FallbackUses(checks), key, limit, from, window);
    if forall i :: 0 <= i < |checks| ==> checks[i].backend.Fine? {
      NoneWithoutAnswers(FallbackUses(checks), key, limit, from, window);
    }
  }

  lemma {:induction false} NoneWithoutAnswers(uses: seq<Use>, key: Key, limit: nat, from: nat, window: nat)
    requires forall i :: 0 <= i < |uses| ==> !uses[i].answers
    ensures Admissions(uses, key, limit, from, window) == 0
  {
    if uses != [] {
      NoneWithoutAnswers(uses[..|uses| - 1], key, limit, from, window);
    }
  }

  // --- the limiter's run -------------------------------------------------------------------------------------

  /** A check, or the periodic pruning with or without its backend part. */
  datatype Turn = Ask(check: Check) | Tidy(now: nat, backendToo: bool)
  {
    function Now(): nat {
      if Ask? then check.now else now
    }
  }

  ghost predicate InOrder(turns: seq<Turn>) {
    forall i, j :: 0 <= i < j < |turns| ==> turns[i].Now() <= turns[j].Now()
  }

  /** When the first `i` turns are over. */
  function TimeOf(turns: seq<Turn>, i: nat): nat
    requires i <= |turns|
  {
    if i == 0 then 0 else turns[i - 1].Now()
  }

  function Asked(turns: seq<Turn>): seq<Check> {
    if turns == [] then []
    else
      var before, turn := Asked(turns[..|turns| - 1]), turns[|turns| - 1];
      if turn.Ask? then before + [turn.check] else before
  }

  lemma AskedNext(turns: seq<Turn>, i: nat)
    requires i < |turns|
    ensures Asked(turns[..i + 1]) == if turns[i].Ask? then Asked(turns[..i]) + [turns[i].check] else Asked(turns[..i])
    ensures |Asked(turns[..i])| <= i
  {
    assert turns[..i + 1][..i] == turns[..i];
    AskedFewer(turns[..i]);
  }

  lemma {:induction false} AskedFewer(turns: seq<Turn>)
    ensures |Asked(turns)| <= |turns|
  {
    if turns != [] {
      AskedFewer(turns[..|turns| - 1]);
    }
  }

  lemma {:induction false} AskedInOrder(turns: seq<Turn>)
    requires InOrder(turns)
    ensures forall i, j :: 0 <= i < j < |Asked(turns)| ==> Asked(turns)[i].now <= Asked(turns)[j].now
    ensures turns != [] ==> forall i :: 0 <= i < |Asked(turns)| ==> Asked(turns)[i].now <= turns[|turns| - 1].Now()
  {
    if turns != [] {
      AskedInOrder(turns[..|turns| - 1]);
    }
  }

  predicate Answered(backend: Buckets, check: Check) {
    check.backend.Fine? && PostgresHit(backend, check.key, check.now, check.window).Some?
  }

  function BackendAfter(backend: Buckets, check: Check): Buckets {
    var after := PostgresHit(backend, check.key, check.now, check.window);
    if check.backend != Lost(false) && after.Some? then after.value else backend
  }

  function FallbackAfter(fallback: Buckets, backend: Buckets, check: Check): Buckets {
    if Answered(backend, check) then fallback else MemoryHit(fallback, check.key, check.now, check.window)
  }

  /** Both stores remember what counters that forget nothing would hold. */
  ghost predicate Tracks(backend: Buckets, fallback: Buckets, checks: seq<Check>, now: nat) {
    && Remembers(backend, RunUses(BackendUses(checks)), now)
    && Remembers(fallback, RunUses(FallbackUses(checks)), now)
  }

  lemma TracksLater(backend: Buckets, fallback: Buckets, checks: seq<Check>, now: nat, later: nat)
    requires Tracks(backend, fallback, checks, now) && now <= later
    ensures Tracks(backend, fallback, checks, later)
  {
  }

  lemma {:induction false} UsesBounded(uses: seq<Use>)
    ensures forall k :: k in RunUses(uses) ==> RunUses(uses)[k].hits <= |uses|
  {
    if uses != [] {
      UsesBounded(uses[..|uses| - 1]);
    }
  }

  lemma UsesNext(checks: seq<Check>, check: Check)
    ensures var more := checks + [check];
      && BackendUses(more) == BackendUses(checks) + [BackendUses(more)[|checks|]]
      && FallbackUses(more) == FallbackUses(checks) + [FallbackUses(more)[|checks|]]
  {
  }

  /** A store that counts the next use returns the count of the counter that forgets nothing. */
  lemma UseTracks(store: Buckets, uses: seq<Use>, use: Use)
    requires Remembers(store, RunUses(uses), use.now) && |uses| < I64_MAX && use.counts
    ensures var next := NextBucket(RunUses(uses), use.key, use.now, use.window);
      var memory, postgres := MemoryHit(store, use.key, use.now, use.window), PostgresHit(store, use.key, use.now,
                                                                                          use.window);
      && Remembers(memory, RunUses(uses + [use]), use.now) && use.key in memory && memory[use.key] == next
      && postgres.Some? && use.key in postgres.value && postgres.value[use.key] == next
      && Remembers(postgres.value, RunUses(uses + [use]), use.now)
  {
    UsesBounded(uses);
    assert (uses + [use])[..|uses|] == uses;
    MemoryHitRemembers(store, RunUses(uses), use.key, use.now, use.window);
    PostgresHitRemembers(store, RunUses(uses), use.key, use.now, use.window);
  }

  /** A use that does not count changes nothing. */
  lemma UseSkips(uses: seq<Use>, use: Use)
    requires !use.counts
    ensures RunUses(uses + [use]) == RunUses(uses)
  {
    assert (uses + [use])[..|uses|] == uses;
  }

  lemma AskTracks(backend: Buckets, fallback: Buckets, checks: seq<Check>, check: Check, limit: nat)
    requires Tracks(backend, fallback, checks, check.now) && |checks| < I64_MAX
    ensures Answered(backend, check) <==> check.backend.Fine?
    ensures Tracks(BackendAfter(backend, check), FallbackAfter(fallback, backend, check), checks + [check], check.now)
    ensures var used := if Answered(backend, check) then BackendAfter(backend, check)
                        else FallbackAfter(fallback, backend, check);
      check.key in used && (used[check.key].hits <= limit <==> Allows(checks + [check], limit))
  {
    var more := checks + [check];
    UsesNext(checks, check);
    BackendTracks(backend, checks, check);
    var use := FallbackUses(more)[|checks|];
    if use.counts {
      UseTracks(fallback, FallbackUses(checks), use);
    } else {
      UseSkips(FallbackUses(checks), use);
    }
    assert BackendUses(more)[..|checks|] == BackendUses(checks);
    assert FallbackUses(more)[..|checks|] == FallbackUses(checks);
  }

  lemma BackendTracks(backend: Buckets, checks: seq<Check>, check: Check)
    requires Remembers(backend, RunUses(BackendUses(checks)), check.now) && |checks| < I64_MAX
    ensures Answered(backend, check) <==> check.backend.Fine?
    ensures Remembers(BackendAfter(backend, check), RunUses(BackendUses(checks + [check])), check.now)
    ensures check.backend.Fine? ==> check.key in BackendAfter(backend, check)
    ensures check.backend.Fine? ==>
      BackendAfter(backend, check)[check.key]
        == NextBucket(RunUses(BackendUses(checks)), check.key, check.now, check.window)
  {
    UsesNext(checks, check);
    var use := BackendUses(checks + [check])[|checks|];
    if use.counts {
      UseTracks(backend, BackendUses(checks), use);
    } else {
      UseSkips(BackendUses(checks), use);
    }
  }

  /** Each answer is the one `Allows` gives. */
  ghost predicate Answers(checks: seq<Check>, answers: seq<bool>, limit: nat) {
    |answers| == |checks| && forall i :: 0 <= i < |checks| ==> answers[i] == Allows(checks[..i + 1], limit)
  }

  lemma AnswersMore(checks: seq<Check>, check: Check, answers: seq<bool>, answer: bool, limit: nat)
    requires Answers(checks, answers, limit) && answer == Allows(checks + [check], limit)
    ensures Answers(checks + [check], answers + [answer], limit)
  {
    var more := checks + [check];
    assert more[..|more|] == more;
    forall i | 0 <= i < |checks| ensures answers[i] == Allows(more[..i + 1], limit) {
      assert more[..i + 1] == checks[..i + 1];
    }
  }

  ghost predicate OneWindow(checks: seq<Check>, key: Key, window: nat) {
    forall i :: 0 <= i < |checks| && checks[i].key == key ==> checks[i].window == window
  }

  /** In one window's time less than four times the limit got through, and less than twice if nothing failed. */
  ghost predicate Limited(checks: seq<Check>, passed: nat, limit: nat) {
    && passed <= 4 * limit && (limit > 0 ==> passed <= 4 * limit - 2)
    && ((forall i :: 0 <= i < |checks| ==> checks[i].backend.Fine?) && limit > 0 ==> passed <= 2 * limit - 1)
  }

  /** How many checks of `key` at times in `[from, from + window)` were answered yes. */
  function Passed(checks: seq<Check>, answers: seq<bool>, key: Key, from: nat, window: nat): nat
    requires |answers| == |checks|
  {
    if checks == [] then 0
    else
      var n := |checks| - 1;
      Passed(checks[..n], answers[..n], key, from, window)
      + if checks[n].key == key && from <= checks[n].now < from + window && answers[n] then 1 else 0
  }

  lemma {:induction false} PassedIsAllowed(checks: seq<Check>, answers: seq<bool>, key: Key, limit: nat, from: nat,
                                           window: nat)
    requires Answers(checks, answers, limit)
    ensures Passed(checks, answers, key, from, window) == Allowed(checks, key, limit, from, window)
  {
    if checks != [] {
      var n := |checks| - 1;
      assert checks[..n + 1] == checks;
      forall i | 0 <= i < n ensures answers[..n][i] == Allows(checks[..n][..i + 1], limit) {
        assert checks[..n][..i + 1] == checks[..i + 1];
      }
      PassedIsAllowed(checks[..n], answers[..n], key, limit, from, window);
    }
  }

  lemma AnsweredLimit(turns: seq<Turn>, answers: seq<bool>, key: Key, limit: nat, from: nat, window: nat)
    requires InOrder(turns) && Answers(Asked(turns), answers, limit) && OneWindow(Asked(turns), key, window)
    ensures Limited(Asked(turns), Passed(Asked(turns), answers, key, from, window), limit)
  {
    AskedInOrder(turns);
    PassedIsAllowed(Asked(turns), answers, key, limit, from, window);
    FourTimesTheLimit(Asked(turns), key, limit, from, window);
  }
}
