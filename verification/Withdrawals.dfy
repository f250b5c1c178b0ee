/** Withdrawal rows: the submit path records them, any number of reconciler sweeps settle them. */
module Withdrawals {
  import opened Wrappers
  import opened Bytes
  import Ordering

  datatype Status = Pending | Confirmed | Failed

  datatype Reason = FailedOnChain | Expired | Abandoned | NoHash

  /** A row of `transactions` with direction `withdrawal`. */
  datatype Row = Row(
    wallet: Uuid, hash: Option<string>, status: Status, ledger: Option<I64>, maxTime: Option<I64>,
    createdAt: int, reason: Option<Reason>)

  type Rows = map<Uuid, Row>

  /** The unique index on `(wallet_id, stellar_tx_hash)`. */
  predicate SameTransfer(a: Row, b: Row) {
    a.wallet == b.wallet && a.hash == b.hash && a.hash.Some?
  }

  /** COALESCE. */
  function Or(a: Option<I64>, b: Option<I64>): Option<I64> {
    if a.Some? then a else b
  }

  /** `record_withdrawal_transaction`: insert, or advance the existing row only while it is pending. */
  function Record(rows: Rows, id: Uuid, row: Row): Rows {
    var same: map<nat, int> := map k: nat | k in rows && SameTransfer(rows[k], row) :: 0;
    if same.Keys != {} then
      var k := Ordering.Least(same);
      if rows[k].status == Pending then
        rows[k := rows[k].(status := row.status, ledger := Or(row.ledger, rows[k].ledger))]
      else rows
    else if id in rows then rows
    else rows[id := row]
  }

  /** `settle_pending_withdrawal`: does anything only while the row is pending. */
  function Settle(rows: Rows, id: Uuid, status: Status, ledger: Option<I64>, reason: Option<Reason>): Rows {
    if !Settles(rows, id) then rows
    else
      var row := rows[id];
      rows[id := row.(status := status, ledger := Or(ledger, row.ledger),
                      reason := if reason.Some? then reason else row.reason)]
  }

  /** After recording, the transfer has its row: the new one, the pending one brought up to date, or a settled one. */
  lemma RecordHasRow(rows: Rows, id: Uuid, row: Row)
    requires row.hash.Some? && id !in rows
    ensures exists k :: RecordedAs(rows, Record(rows, id, row), k, row)
  {
    var same: map<nat, int> := map k: nat | k in rows && SameTransfer(rows[k], row) :: 0;
    var k := if same.Keys != {} then Ordering.Least(same) else id;
    assert RecordedAs(rows, Record(rows, id, row), k, row);
  }

  predicate RecordedAs(before: Rows, after: Rows, k: Uuid, row: Row) {
    && k in after && after[k].wallet == row.wallet && after[k].hash == row.hash
    && OthersKept(before, after, k)
    && (k !in before ==> after[k] == row)
    && (k in before && before[k].status != Pending ==> after[k] == before[k])
    && (k in before && before[k].status == Pending ==> Advanced(before[k], after[k], row.status, row.ledger))
  }

  predicate OthersKept(before: Rows, after: Rows, k: Uuid) {
    after.Keys == before.Keys + {k} && forall id :: id in before && id != k ==> after[id] == before[id]
  }

  /** The status is the new one, the ledger too where it is given, and the transfer is the same. */
  predicate Advanced(before: Row, after: Row, status: Status, ledger: Option<I64>) {
    && after.status == status && (if ledger.Some? then after.ledger == ledger else after.ledger == before.ledger)
    && after.wallet == before.wallet && after.hash == before.hash && after.maxTime == before.maxTime
    && after.createdAt == before.createdAt
  }

  /** A pending row is settled with the status, the ledger and the reason given; nothing else changes. */
  lemma SettledRow(rows: Rows, id: Uuid, status: Status, ledger: Option<I64>, reason: Option<Reason>)
    ensures var after := Settle(rows, id, status, ledger, reason);
      if id in rows && rows[id].status == Pending then
        && OthersKept(rows, after, id) && Advanced(rows[id], after[id], status, ledger)
        && (if reason.Some? then after[id].reason == reason else after[id].reason == rows[id].reason)
      else after == rows
  {
  }

  /** Whether it reports that it settled the row. */
  predicate Settles(rows: Rows, id: Uuid) {
    id in rows && rows[id].status == Pending
  }

  // --- deciding one row ------------------------------------------------------------------------------

  datatype TxLookup = Found(successful: bool, ledger: Option<I64>) | NotFound
  datatype Verdict = Confirm(ledger: Option<I64>) | Fail(reason: Reason) | Wait

  function Decide(lookup: TxLookup, maxTime: Option<I64>, ledgerClose: Option<I64>, age: int,
                  abandonAfter: int): Verdict
  {
    match lookup
    case Found(true, ledger) => Confirm(ledger)
    case Found(false, _) => Fail(FailedOnChain)
    case NotFound =>
      if maxTime.Some? && ledgerClose.Some? && ledgerClose.value > maxTime.value then Fail(Expired)
      else if maxTime.None? && age >= abandonAfter then Fail(Abandoned)
      else Wait
  }

  /** What Horizon answers while one row is looked at; None where it errs. */
  datatype Answers = Answers(lookup: Option<TxLookup>, ledgerClose: Option<I64>, now: int)

  function Resolve(row: Row, answers: Answers, abandonAfter: int): Verdict {
    if row.hash.None? then Fail(NoHash)
    else if answers.lookup.None? then Wait
    else
      var lookup := answers.lookup.value;
      var close := if lookup == NotFound && row.maxTime.Some? then answers.ledgerClose else None;
      var age := if answers.now < row.createdAt then 0 else answers.now - row.createdAt;
      Decide(lookup, row.maxTime, close, age, abandonAfter)
  }

  /** Grounds for giving a row up: no hash, failed on chain, past its timebound, or none and long gone. */
  predicate HasGrounds(row: Row, answers: Answers, abandonAfter: int) {
    || row.hash.None?
    || (answers.lookup.Some? && answers.lookup.value.Found? && !answers.lookup.value.successful)
    || (&& answers.lookup == Some(NotFound) && row.maxTime.Some? && answers.ledgerClose.Some?
        && answers.ledgerClose.value > row.maxTime.value)
    || (&& answers.lookup == Some(NotFound) && row.maxTime.None?
        && (if answers.now < row.createdAt then 0 else answers.now - row.createdAt) >= abandonAfter)
  }

  /** The verdict, case by case: confirmed with its ledger exactly when found successful, else failed on grounds. */
  lemma VerdictIff(row: Row, answers: Answers, abandonAfter: int, ledger: Option<I64>)
    ensures var verdict := Resolve(row, answers, abandonAfter);
      var absent := row.hash.Some? && answers.lookup == Some(NotFound);
      && (verdict == Confirm(ledger) <==> row.hash.Some? && answers.lookup == Some(Found(true, ledger)))
      && (verdict == Fail(NoHash) <==> row.hash.None?)
      && (verdict == Fail(FailedOnChain) <==>
            row.hash.Some? && answers.lookup.Some? && answers.lookup.value.Found? && !answers.lookup.value.successful)
      && (verdict == Fail(Expired) <==>
            absent && row.maxTime.Some? && answers.ledgerClose.Some? && row.maxTime.value < answers.ledgerClose.value)
      && (verdict == Fail(Abandoned) <==>
            absent && row.maxTime.None? && (answers.now - row.createdAt >= abandonAfter || 0 >= abandonAfter))
  {
  }

  lemma FailsIff(row: Row, answers: Answers, abandonAfter: int)
    ensures Resolve(row, answers, abandonAfter).Fail? <==> HasGrounds(row, answers, abandonAfter)
  {
  }

  // --- many writers ----------------------------------------------------------------------------------------

  datatype Stats = Stats(confirmed: nat, failed: nat, waiting: nat)

  /** The table, each sweep's stats, and which sweep counted which row. */
  datatype State = State(rows: Rows, stats: map<nat, Stats>, counted: seq<(nat, Uuid)>)

  datatype Event =
    /** The submit path records a transfer, before or after submitting it. */
    | Submit(id: Uuid, row: Row)
    /** A sweep settles a row it listed some time ago, on the verdict it reached meanwhile. */
    | Reconcile(sweep: nat, id: Uuid, verdict: Verdict)

  function StatsOf(s: State, sweep: nat): Stats {
    if sweep in s.stats then s.stats[sweep] else Stats(0, 0, 0)
  }

  function Apply(s: State, e: Event): State {
    match e
    case Submit(id, row) => s.(rows := Record(s.rows, id, row))
    case Reconcile(sweep, id, verdict) =>
      var stats := StatsOf(s, sweep);
      match verdict
      case Wait => s.(stats := s.stats[sweep := stats.(waiting := stats.waiting + 1)])
      case Confirm(ledger) =>
        if !Settles(s.rows, id) then s
        else State(Settle(s.rows, id, Confirmed, ledger, None),
                   s.stats[sweep := stats.(confirmed := stats.confirmed + 1)], s.counted + [(sweep, id)])
      case Fail(reason) =>
        if !Settles(s.rows, id) then s
        else State(Settle(s.rows, id, Failed, None, Some(reason)),
                   s.stats[sweep := stats.(failed := stats.failed + 1)], s.counted + [(sweep, id)])
  }

  function Run(s: State, events: seq<Event>): State {
    if events == [] then s else Apply(Run(s, events[..|events| - 1]), events[|events| - 1])
  }

  /** What each sweep is told of what it did: waiting rows always, settled ones only by the sweep that settled them. */
  lemma ReconcileReports(s: State, e: Event)
    requires e.Reconcile?
    ensures var (t, v, pending) := (Apply(s, e), e.verdict, e.id in s.rows && s.rows[e.id].status == Pending);
      var (was, now) := (StatsOf(s, e.sweep), StatsOf(t, e.sweep));
      && (forall k :: k != e.sweep ==> StatsOf(t, k) == StatsOf(s, k))
      && now.waiting == was.waiting + (if v.Wait? then 1 else 0)
      && now.confirmed == was.confirmed + (if v.Confirm? && pending then 1 else 0)
      && now.failed == was.failed + (if v.Fail? && pending then 1 else 0)
      && (v.Wait? ==> t.rows == s.rows)
      && (v.Confirm? ==> t.rows == Settle(s.rows, e.id, Confirmed, v.ledger, None))
      && (v.Fail? ==> t.rows == Settle(s.rows, e.id, Failed, None, Some(v.reason)))
  {
  }

  lemma RunNext(s: State, events: seq<Event>, e: Event)
    ensures Run(s, []) == s && Run(s, events + [e]) == Apply(Run(s, events), e)
    ensures StatsOf(State(s.rows, map[], []), 0) == Stats(0, 0, 0)
    ensures e.Submit? ==> Apply(s, e).stats == s.stats && Apply(s, e).rows == Record(s.rows, e.id, e.row)
  {
    assert (events + [e])[..|events|] == events;
  }

  /** Rows that were settled are untouched, and no row is lost. */
  ghost predicate Frozen(a: Rows, b: Rows) {
    forall id :: id in a ==> id in b && (a[id].status != Pending ==> b[id] == a[id])
  }

  lemma StepFreezes(s: State, e: Event)
    ensures Frozen(s.rows, Apply(s, e).rows)
  {
  }

  lemma {:induction false} RunFreezes(s: State, events: seq<Event>)
    ensures Frozen(s.rows, Run(s, events).rows)
  {
    if events != [] {
      var n := |events| - 1;
      RunFreezes(s, events[..n]);
      StepFreezes(Run(s, events[..n]), events[n]);
    }
  }

  lemma {:induction false} RunConcat(s: State, a: seq<Event>, b: seq<Event>)
    ensures Run(s, a + b) == Run(Run(s, a), b)
  {
    if b == [] {
      assert a + b == a;
    } else {
      assert (a + b)[..|a + b| - 1] == a + b[..|b| - 1];
      RunConcat(s, a, b[..|b| - 1]);
    }
  }

  /** Step `n` takes a row out of `pending`. */
  ghost predicate LeavesPending(s: State, events: seq<Event>, n: nat, id: Uuid)
    requires n < |events|
  {
    var before, after := Run(s, events[..n]).rows, Run(s, events[..n + 1]).rows;
    id in before && before[id].status == Pending && id in after && after[id].status != Pending
  }

  /** A row leaves `pending` at most once, and nothing about it changes after that. */
  lemma LeavesPendingOnce(s: State, events: seq<Event>, n: nat, m: nat, id: Uuid)
    requires n < m <= |events| && LeavesPending(s, events, n, id)
    ensures id in Run(s, events[..m]).rows && Run(s, events[..m]).rows[id] == Run(s, events[..n + 1]).rows[id]
    ensures m < |events| ==> !LeavesPending(s, events, m, id)
  {
    assert events[..m] == events[..n + 1] + events[n + 1..m];
    RunConcat(s, events[..n + 1], events[n + 1..m]);
    RunFreezes(Run(s, events[..n + 1]), events[n + 1..m]);
  }

  // --- each settlement is counted once -----------------------------------------------------------------------

  /** How many rows a sweep has counted. */
  function CountOf(counted: seq<(nat, Uuid)>, sweep: nat): nat {
    if counted == [] then 0
    else CountOf(counted[..|counted| - 1], sweep) + if counted[|counted| - 1].0 == sweep then 1 else 0
  }

  ghost predicate Counts(s: State) {
    && CountedRows(s.counted, s.rows)
    && (forall k :: StatsOf(s, k).confirmed + StatsOf(s, k).failed == CountOf(s.counted, k))
  }

  lemma CountGrows(counted: seq<(nat, Uuid)>, entry: (nat, Uuid))
    ensures forall k :: CountOf(counted + [entry], k) == CountOf(counted, k) + if entry.0 == k then 1 else 0
  {
    assert (counted + [entry])[..|counted|] == counted;
  }

  lemma StepCounts(s: State, e: Event)
    requires Counts(s)
    ensures Counts(Apply(s, e))
  {
    StepFreezes(s, e);
    if e.Reconcile? && !e.verdict.Wait? && Settles(s.rows, e.id) {
      SettledCounts(s, e);
    }
  }

  /** A settlement is counted by its sweep, and its row had not been counted before. */
  lemma SettledCounts(s: State, e: Event)
    requires Counts(s) && e.Reconcile? && !e.verdict.Wait? && Settles(s.rows, e.id)
    ensures Counts(Apply(s, e))
  {
    var t := Apply(s, e);
    SettledStats(s, e);
    StepFreezes(s, e);
    CountedMore(s.counted, s.rows, t.rows, (e.sweep, e.id));
  }

  /** Rows counted so far are settled, each once. */
  ghost predicate CountedRows(counted: seq<(nat, Uuid)>, rows: Rows) {
    && (forall i, j :: 0 <= i < j < |counted| ==> counted[i].1 != counted[j].1)
    && (forall i :: 0 <= i < |counted| ==> counted[i].1 in rows && rows[counted[i].1].status != Pending)
  }

  lemma CountedMore(counted: seq<(nat, Uuid)>, rows: Rows, later: Rows, entry: (nat, Uuid))
    requires CountedRows(counted, rows) && Frozen(rows, later)
    requires entry.1 in rows && rows[entry.1].status == Pending && later[entry.1].status != Pending
    ensures CountedRows(counted + [entry], later)
  {
  }

  lemma SettledStats(s: State, e: Event)
    requires Counts(s) && e.Reconcile? && !e.verdict.Wait? && Settles(s.rows, e.id)
    ensures var t := Apply(s, e);
      && t.counted == s.counted + [(e.sweep, e.id)] && t.rows[e.id].status != Pending
      && forall k :: StatsOf(t, k).confirmed + StatsOf(t, k).failed == CountOf(t.counted, k)
  {
    var t := Apply(s, e);
    CountGrows(s.counted, (e.sweep, e.id));
    forall k ensures StatsOf(t, k).confirmed + StatsOf(t, k).failed == CountOf(t.counted, k) {
      assert StatsOf(s, k).confirmed + StatsOf(s, k).failed == CountOf(s.counted, k);
    }
  }

  lemma {:induction false} RunCounts(s: State, events: seq<Event>)
    requires Counts(s)
    ensures Counts(Run(s, events))
  {
    if events != [] {
      RunCounts(s, events[..|events| - 1]);
      StepCounts(Run(s, events[..|events| - 1]), events[|events| - 1]);
    }
  }

  /** From no sweeps, every sweep's stats add up to rows it alone counted, each of them settled. */
  lemma CountedOnce(rows: Rows, events: seq<Event>)
    ensures Counts(Run(State(rows, map[], []), events))
  {
    RunCounts(State(rows, map[], []), events);
  }

  // --- timebounds -------------------------------------------------------------------------------------------------

  /**
   * The ledgers that will ever close, with their close times, and the one that applies a transaction
   * if any does. A transaction is valid only up to its `max_time`.
   */
  ghost predicate Placement(closes: seq<int>, included: Option<nat>, maxTime: int) {
    && (forall i, j :: 0 <= i < j < |closes| ==> closes[i] <= closes[j])
    && (included.Some? ==> included.value < |closes| && closes[included.value] <= maxTime)
  }

  /**
   * Horizon has ingested `seen` ledgers when it is asked for the hash, and `read` when asked for the
   * newest close time.
   */
  ghost predicate ExpiryVerdict(closes: seq<int>, included: Option<nat>, maxTime: I64, seen: nat, read: nat)
    requires read <= |closes|
  {
    && (included.Some? ==> included.value >= seen)
    && read > 0 && closes[read - 1] > maxTime
  }

  /** If no ledger is ingested between the two reads, a row failed for its timebounds is never on chain. */
  lemma ExpiredNeverAppears(closes: seq<int>, included: Option<nat>, maxTime: I64, seen: nat)
    requires seen <= |closes| && Placement(closes, included, maxTime)
    requires ExpiryVerdict(closes, included, maxTime, seen, seen)
    ensures included.None?
  {
    assert forall i :: seen <= i < |closes| ==> closes[seen - 1] <= closes[i];
  }

  /**
   * Otherwise, exactly: the verdict is right about every transaction with this `max_time` if and only if
   * no ledger ingested between the two reads closed early enough to apply one.
   */
  lemma ExpiryIsRightIff(closes: seq<int>, maxTime: I64, seen: nat, read: nat)
    requires seen <= read <= |closes| && read > 0 && closes[read - 1] > maxTime && Placement(closes, None, maxTime)
    ensures (forall included: Option<nat> ::
               Placement(closes, included, maxTime) && ExpiryVerdict(closes, included, maxTime, seen, read) ==>
               included.None?)
       <==> forall i :: seen <= i < read ==> closes[i] > maxTime
  {
    assert forall i :: read <= i < |closes| ==> closes[read - 1] <= closes[i];
    if i :| seen <= i < read && closes[i] <= maxTime {
      assert Placement(closes, Some(i), maxTime) && ExpiryVerdict(closes, Some(i), maxTime, seen, read);
    }
  }

  /** What the decision sees of such a chain is exactly this verdict. */
  lemma ExpiryIsDecided(closes: seq<I64>, included: Option<nat>, maxTime: I64, seen: nat, read: nat, age: int,
                        abandonAfter: int)
    requires read <= |closes| && (included.Some? ==> included.value < |closes|)
    ensures var lookup := if included.Some? && included.value < seen then Found(true, None) else NotFound;
      var close := if read == 0 then None else Some(closes[read - 1]);
      Decide(lookup, Some(maxTime), close, age, abandonAfter) == Fail(Expired)
      <==> ExpiryVerdict(closes, included, maxTime, seen, read)
  {
  }
}
