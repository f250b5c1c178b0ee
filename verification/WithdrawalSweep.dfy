/** The withdrawal reconciler's sweeps as they run. */
module WithdrawalSweep {
  import opened Wrappers
  import opened Bytes
  import opened Ordering
  import opened Withdrawals

  // --- the stale rows ---------------------------------------------------------------------------------------

  predicate IsStale(rows: Rows, cutoff: int, id: Uuid) {
    id in rows && rows[id].status == Pending && rows[id].createdAt < cutoff
  }

  function StaleKeys(rows: Rows, cutoff: int): Keys {
    map id: Uuid | id in rows && rows[id].status == Pending && rows[id].createdAt < cutoff :: rows[id].createdAt
  }

  predicate IsListed(listed: seq<(Uuid, Row)>, id: Uuid) {
    exists i :: 0 <= i < |listed| && listed[i].0 == id
  }

  /** Up to `batch` stale rows as they stand, oldest first; any other stale row is at least as young. */
  ghost predicate IsStaleListing(rows: Rows, cutoff: int, batch: nat, listed: seq<(Uuid, Row)>) {
    && |listed| <= batch
    && (forall i :: 0 <= i < |listed| ==> IsStale(rows, cutoff, listed[i].0) && listed[i].1 == rows[listed[i].0])
    && (forall i, j :: 0 <= i < j < |listed| ==>
          listed[i].0 != listed[j].0 && listed[i].1.createdAt <= listed[j].1.createdAt)
    && (forall id :: IsStale(rows, cutoff, id) && !IsListed(listed, id) ==>
          |listed| == batch && forall i :: 0 <= i < |listed| ==> listed[i].1.createdAt <= rows[id].createdAt)
  }

  lemma FirstStale(rows: Rows, cutoff: int, batch: nat, ids: seq<nat>, listed: seq<(Uuid, Row)>)
    requires IsListing(StaleKeys(rows, cutoff), ids)
    requires |listed| == (if |ids| > batch then batch else |ids|)
    requires forall i :: 0 <= i < |listed| ==> ids[i] in rows && listed[i] == (ids[i], rows[ids[i]])
    ensures IsStaleListing(rows, cutoff, batch, listed)
  {
    var keys := StaleKeys(rows, cutoff);
    forall i | 0 <= i < |listed| ensures IsStale(rows, cutoff, listed[i].0) {
      assert ids[i] in ids;
    }
    forall i, j | 0 <= i < j < |listed|
      ensures listed[i].0 != listed[j].0 && listed[i].1.createdAt <= listed[j].1.createdAt
    {
      assert Before(keys, ids[i], ids[j]);
    }
    forall id | IsStale(rows, cutoff, id) && !IsListed(listed, id)
      ensures |listed| == batch && forall i :: 0 <= i < |listed| ==> listed[i].1.createdAt <= rows[id].createdAt
    {
      assert id in keys && id in ids;
      var j :| 0 <= j < |ids| && ids[j] == id;
      assert forall i :: 0 <= i < |listed| ==> listed[i].0 != id;
      forall i | 0 <= i < |listed| ensures listed[i].1.createdAt <= rows[id].createdAt {
        assert Before(keys, ids[i], ids[j]);
      }
    }
  }

  // --- the sweep --------------------------------------------------------------------------------------------

  /** What the sweep meets, row by row. */
  datatype Environment = Environment(
    listFails: bool, answers: nat -> Answers, others: nat -> seq<Event>, faults: nat -> Fault)
  {
    ghost predicate Quiet() {
      forall i :: others(i) == []
    }
  }

  function WithStatus(settled: map<Uuid, Status>, status: Status): set<Uuid> {
    set id | id in settled && settled[id] == status
  }

  /** The stats count exactly the rows in `settled`, all pending before and all settled so now. */
  ghost predicate Reports(before: Rows, rows: Rows, stats: Stats, settled: map<Uuid, Status>) {
    && stats.confirmed == |WithStatus(settled, Confirmed)| && stats.failed == |WithStatus(settled, Failed)|
    && (forall id :: id in settled ==> settled[id] != Pending && id in rows && rows[id].status == settled[id])
    && (forall id :: id in settled && id in before ==> before[id].status == Pending)
  }

  lemma ReportsLater(before: Rows, rows: Rows, later: Rows, stats: Stats, settled: map<Uuid, Status>)
    requires Reports(before, rows, stats, settled) && Frozen(rows, later)
    ensures Reports(before, later, stats, settled)
  {
  }

  lemma ReportsMore(before: Rows, rows: Rows, stats: Stats, settled: map<Uuid, Status>, id: Uuid, status: Status)
    requires Reports(before, rows, stats, settled) && status != Pending && id !in settled
    requires id in rows && rows[id].status == status && (id in before ==> before[id].status == Pending)
    ensures var more := if status == Confirmed then stats.(confirmed := stats.confirmed + 1)
                        else stats.(failed := stats.failed + 1);
      Reports(before, rows, more, settled[id := status])
  {
    WithOneMore(settled, id, status, Confirmed);
    WithOneMore(settled, id, status, Failed);
  }

  lemma WithOneMore(settled: map<Uuid, Status>, id: Uuid, status: Status, which: Status)
    requires id !in settled
    ensures |WithStatus(settled[id := status], which)|
         == |WithStatus(settled, which)| + if which == status then 1 else 0
  {
    var now := WithStatus(settled[id := status], which);
    assert now == WithStatus(settled, which) + if which == status then {id} else {};
  }

  /** The row is no longer pending, whoever settled it. */
  predicate Concluded(rows: Rows, id: Uuid) {
    id in rows && rows[id].status != Pending
  }

  /** The listed rows with the verdict on each, as read when the sweep comes to it. */
  function Tasks(listed: seq<(Uuid, Row)>, answers: nat -> Answers, abandonAfter: int): (tasks: seq<(Uuid, Verdict)>) {
    seq(|listed|, i requires 0 <= i < |listed| => (listed[i].0, Resolve(listed[i].1, answers(i), abandonAfter)))
  }

  /** The row stands as the verdict on it says, with its reason if it failed. */
  predicate Decides(task: (Uuid, Verdict), id: Uuid, row: Row) {
    && task.0 == id && !task.1.Wait?
    && (task.1.Confirm? ==> row.status == Confirmed && (task.1.ledger.Some? ==> row.ledger == task.1.ledger))
    && (task.1.Fail? ==> row.status == Failed && row.reason == Some(task.1.reason))
  }

  predicate Decided(tasks: seq<(Uuid, Verdict)>, id: Uuid, row: Row) {
    exists i :: 0 <= i < |tasks| && Decides(tasks[i], id, row)
  }

  /** How many tasks are left waiting. */
  function Waits(tasks: seq<(Uuid, Verdict)>): nat {
    if tasks == [] then 0
    else Waits(tasks[..|tasks| - 1]) + if tasks[|tasks| - 1].1.Wait? then 1 else 0
  }

  /**
   * Where a sweep stands once it is through `tasks`: each row with a verdict is concluded, unless it was no
   * row `before`; each row it settled had that verdict; the rest of its count is the rows left waiting.
   */
  ghost predicate Handled(before: Rows, tasks: seq<(Uuid, Verdict)>, rows: Rows, stats: Stats,
                          settled: map<Uuid, Status>)
  {
    && stats.waiting == Waits(tasks)
    && (forall i :: 0 <= i < |tasks| && tasks[i].0 in before && !tasks[i].1.Wait? ==> Concluded(rows, tasks[i].0))
    && (forall id :: id in settled ==> Concluded(rows, id) && Decided(tasks, id, rows[id]))
  }

  ghost predicate Swept(before: Rows, tasks: seq<(Uuid, Verdict)>, rows: Rows, stats: Stats, settled: map<Uuid, Status>)
  {
    Frozen(before, rows) && Reports(before, rows, stats, settled) && Handled(before, tasks, rows, stats, settled)
  }

  /** Nothing left `pending` that the sweep did not count. */
  ghost predicate AllCounted(before: Rows, rows: Rows, settled: map<Uuid, Status>) {
    forall id :: id in before && before[id].status == Pending && Concluded(rows, id) ==> id in settled
  }

  /** The verdict on the row was to wait. */
  predicate Awaited(tasks: seq<(Uuid, Verdict)>, id: Uuid) {
    exists i :: 0 <= i < |tasks| && tasks[i] == (id, Wait)
  }

  lemma NoStaleLeft(before: Rows, cutoff: int, batch: nat, listed: seq<(Uuid, Row)>, tasks: seq<(Uuid, Verdict)>,
                    rows: Rows, stats: Stats, settled: map<Uuid, Status>)
    requires IsStaleListing(before, cutoff, batch, listed) && |listed| < batch
    requires |tasks| == |listed| && forall i :: 0 <= i < |tasks| ==> tasks[i].0 == listed[i].0
    requires Handled(before, tasks, rows, stats, settled)
    ensures forall id :: IsStale(before, cutoff, id) ==> Concluded(rows, id) || Awaited(tasks, id)
  {
    forall id | IsStale(before, cutoff, id) ensures Concluded(rows, id) || Awaited(tasks, id) {
      assert IsListed(listed, id);
      var i :| 0 <= i < |listed| && listed[i].0 == id;
      assert tasks[i].0 in before;
      if tasks[i].1.Wait? {
        assert tasks[i] == (id, Wait);
      }
    }
  }

  lemma SweptLater(before: Rows, tasks: seq<(Uuid, Verdict)>, rows: Rows, later: Rows, stats: Stats,
                   settled: map<Uuid, Status>)
    requires Swept(before, tasks, rows, stats, settled) && Frozen(rows, later)
    ensures Swept(before, tasks, later, stats, settled)
  {
    ReportsLater(before, rows, later, stats, settled);
  }

  lemma AllCountedMore(before: Rows, rows: Rows, later: Rows, settled: map<Uuid, Status>, id: Uuid,
                       given: Option<Status>)
    requires AllCounted(before, rows, settled) && (given.None? ==> later == rows)
    requires forall other :: other in later && other != id ==> other in rows && later[other] == rows[other]
    ensures AllCounted(before, later, Noted(settled, id, given))
  {
    assert forall other :: other != id && Concluded(later, other) ==> Concluded(rows, other);
  }

  function Counted(stats: Stats, verdict: Verdict, given: Option<Status>): Stats {
    match given
    case Some(status) =>
      if status == Confirmed then stats.(confirmed := stats.confirmed + 1) else stats.(failed := stats.failed + 1)
    case None =>
      if verdict.Wait? then stats.(waiting := stats.waiting + 1) else stats
  }

  function Noted(settled: map<Uuid, Status>, id: Uuid, given: Option<Status>): map<Uuid, Status> {
    if given.Some? then settled[id := given.value] else settled
  }

  lemma HandledMore(before: Rows, tasks: seq<(Uuid, Verdict)>, rows: Rows, stats: Stats, settled: map<Uuid, Status>,
                    task: (Uuid, Verdict), given: Option<Status>)
    requires Handled(before, tasks, rows, stats, settled)
    requires task.0 in before && !task.1.Wait? ==> Concluded(rows, task.0)
    requires given.Some? ==> Concluded(rows, task.0) && Decides(task, task.0, rows[task.0])
    ensures Handled(before, tasks + [task], rows, Counted(stats, task.1, given), Noted(settled, task.0, given))
  {
    var now, more := Noted(settled, task.0, given), tasks + [task];
    assert more[..|more| - 1] == tasks;
    forall id | id in now ensures Concluded(rows, id) && Decided(more, id, rows[id]) {
      if given.Some? && id == task.0 {
        assert Decides(more[|tasks|], id, rows[id]);
      } else {
        var i :| 0 <= i < |tasks| && Decides(tasks[i], id, rows[id]);
        assert Decides(more[i], id, rows[id]);
      }
    }
  }

  lemma SweptMore(before: Rows, tasks: seq<(Uuid, Verdict)>, rows: Rows, later: Rows, stats: Stats,
                  settled: map<Uuid, Status>, task: (Uuid, Verdict), given: Option<Status>)
    requires Swept(before, tasks, rows, stats, settled) && Frozen(rows, later)
    requires task.0 in rows && !task.1.Wait? ==> Concluded(later, task.0)
    requires given.Some? ==> task.0 in rows && rows[task.0].status == Pending
    requires given.Some? ==> later[task.0].status == given.value != Pending && Decides(task, task.0, later[task.0])
    ensures Swept(before, tasks + [task], later, Counted(stats, task.1, given), Noted(settled, task.0, given))
  {
    SweptLater(before, tasks, rows, later, stats, settled);
    HandledMore(before, tasks, later, stats, settled, task, given);
    if given.Some? {
      ReportsMore(before, later, stats, settled, task.0, given.value);
    }
  }

  // --- why rows are failed ----------------------------------------------------------------------------------

  /** A row that a sweep failed had grounds for it, in what the sweep read about it. */
  lemma FailedRowsHaveGrounds(before: Rows, listed: seq<(Uuid, Row)>, answers: nat -> Answers, abandonAfter: int,
                              done: nat, rows: Rows, stats: Stats, settled: map<Uuid, Status>, id: Uuid)
    requires done <= |listed| && Swept(before, Tasks(listed, answers, abandonAfter)[..done], rows, stats, settled)
    requires id in settled && settled[id] == Failed
    ensures exists i: nat :: i < done && listed[i].0 == id && HasGrounds(listed[i].1, answers(i), abandonAfter)
  {
    var tasks := Tasks(listed, answers, abandonAfter)[..done];
    assert Decided(tasks, id, rows[id]);
    var i: nat :| i < |tasks| && Decides(tasks[i], id, rows[id]);
    assert tasks[i] == (listed[i].0, Resolve(listed[i].1, answers(i), abandonAfter));
    FailsIff(listed[i].1, answers(i), abandonAfter);
  }

  /**
   * A listed row whose transaction was found successful does not stay pending once the sweep has come to it:
   * if the sweep settled it, it is confirmed in that ledger.
   */
  lemma FoundRowsAreConfirmed(before: Rows, listed: seq<(Uuid, Row)>, answers: nat -> Answers, abandonAfter: int,
                              done: nat, rows: Rows, stats: Stats, settled: map<Uuid, Status>, i: nat,
                              ledger: Option<I64>)
    requires done <= |listed| && Swept(before, Tasks(listed, answers, abandonAfter)[..done], rows, stats, settled)
    requires forall j, k :: 0 <= j < k < |listed| ==> listed[j].0 != listed[k].0
    requires i < done && listed[i].0 in before && listed[i].1.hash.Some?
    requires answers(i).lookup == Some(Found(true, ledger))
    ensures var id := listed[i].0;
      && id in rows && rows[id].status != Pending
      && (id in settled ==> rows[id].status == Confirmed && (ledger.Some? ==> rows[id].ledger == ledger))
  {
    var tasks, id := Tasks(listed, answers, abandonAfter)[..done], listed[i].0;
    VerdictIff(listed[i].1, answers(i), abandonAfter, ledger);
    assert tasks[i] == (id, Confirm(ledger));
    if id in settled {
      assert Decided(tasks, id, rows[id]);
      var j :| 0 <= j < |tasks| && Decides(tasks[j], id, rows[id]);
      assert tasks[j].0 == listed[j].0;
    }
  }

  // --- expired rows are never on chain ----------------------------------------------------------------------

  /** The ledgers that will ever close, and where each transaction is applied, if anywhere. */
  datatype Ledgers = Ledgers(closes: seq<I64>, included: string -> Option<nat>)

  /** Horizon's two answers about a row, from a chain of which it has ingested `seen` ledgers and then `read`. */
  ghost predicate FromChain(chain: Ledgers, row: Row, answers: Answers, seen: nat, read: nat)
    requires row.hash.Some?
  {
    && seen <= read <= |chain.closes|
    && (answers.lookup == Some(NotFound) ==>
          var at := chain.included(row.hash.value); at.Some? ==> at.value >= seen)
    && (answers.ledgerClose.Some? ==> read > 0 && answers.ledgerClose.value == chain.closes[read - 1])
  }

  /** No ledger ingested between the two answers closed early enough to apply the transaction. */
  ghost predicate NothingBetween(chain: Ledgers, row: Row, seen: nat, read: nat)
    requires seen <= read <= |chain.closes|
  {
    row.maxTime.Some? ==> forall i :: seen <= i < read ==> chain.closes[i] > row.maxTime.value
  }

  ghost predicate Placed(chain: Ledgers, row: Row) {
    row.hash.Some? && row.maxTime.Some? ==> Placement(chain.closes, chain.included(row.hash.value), row.maxTime.value)
  }

  /** A row resolved as expired is on no ledger of such a chain. */
  lemma ExpiredIsNowhere(chain: Ledgers, row: Row, answers: Answers, abandonAfter: int, seen: nat, read: nat)
    requires Placed(chain, row) && Resolve(row, answers, abandonAfter) == Fail(Expired)
    requires FromChain(chain, row, answers, seen, read) && NothingBetween(chain, row, seen, read)
    ensures chain.included(row.hash.value).None?
  {
    ExpiryIsRightIff(chain.closes, row.maxTime.value, seen, read);
    assert ExpiryVerdict(chain.closes, chain.included(row.hash.value), row.maxTime.value, seen, read);
  }

  /**
   * So a row that a sweep failed as expired never appears, when the sweep's answers come from one chain
   * and none of its ledgers slips in between the two answers about a row.
   */
  lemma ExpiredRowsNeverAppear(before: Rows, listed: seq<(Uuid, Row)>, answers: nat -> Answers, abandonAfter: int,
                               done: nat,
                               rows: Rows, stats: Stats, settled: map<Uuid, Status>,
                               chain: Ledgers, seen: nat -> nat, read: nat -> nat, id: Uuid)
    requires done <= |listed| && Swept(before, Tasks(listed, answers, abandonAfter)[..done], rows, stats, settled)
    requires forall i: nat :: i < |listed| && listed[i].1.hash.Some? ==>
      && Placed(chain, listed[i].1) && FromChain(chain, listed[i].1, answers(i), seen(i), read(i))
      && NothingBetween(chain, listed[i].1, seen(i), read(i))
    requires id in settled && rows[id].status == Failed && rows[id].reason == Some(Expired)
    ensures exists i: nat ::
      && i < |listed| && listed[i].0 == id
      && listed[i].1.hash.Some? && chain.included(listed[i].1.hash.value).None?
  {
    var tasks := Tasks(listed, answers, abandonAfter)[..done];
    assert Decided(tasks, id, rows[id]);
    var i: nat :| i < |tasks| && Decides(tasks[i], id, rows[id]);
    assert tasks[i] == (listed[i].0, Resolve(listed[i].1, answers(i), abandonAfter));
    ExpiredIsNowhere(chain, listed[i].1, answers(i), abandonAfter, seen(i), read(i));
  }

  class Table {
    var rows: Rows

    constructor (rows: Rows)
      ensures this.rows == rows
    {
      this.rows := rows;
    }

    /** The submit path and other sweeps move on. */
    method Others(events: seq<Event>)
      modifies this
      ensures Frozen(old(rows), rows) && (events == [] ==> rows == old(rows))
    {
      RunFreezes(State(rows, map[], []), events);
      rows := Run(State(rows, map[], []), events).rows;
    }

    method SettlePending(id: Uuid, status: Status, ledger: Option<I64>, reason: Option<Reason>) returns (settled: bool)
      requires status != Pending
      modifies this
      ensures settled <==> Settles(old(rows), id)
      ensures rows == Settle(old(rows), id, status, ledger, reason) && Frozen(old(rows), rows)
    {
      settled := id in rows && rows[id].status == Pending;
      if settled {
        var row := rows[id];
        rows := rows[id := row.(status := status, ledger := Or(ledger, row.ledger),
                                reason := if reason.Some? then reason else row.reason)];
      }
    }

    /** Settle one listed row on its verdict; the status it was given, if this sweep gave it. */
    method SettleOne(id: Uuid, verdict: Verdict) returns (given: Option<Status>)
      modifies this
      ensures Frozen(old(rows), rows)
      ensures given.Some? ==>
        id in old(rows) && old(rows)[id].status == Pending && id in rows && rows[id].status == given.value
      ensures given.Some? ==> given.value != Pending && Decides((id, verdict), id, rows[id])
      ensures given.None? ==> rows == old(rows)
      ensures forall other :: other in rows && other != id ==> other in old(rows) && rows[other] == old(rows)[other]
      ensures id in old(rows) && !verdict.Wait? ==> Concluded(rows, id)
    {
      given := None;
      match verdict {
        case Wait =>
        case Confirm(ledger) =>
          var settled := SettlePending(id, Confirmed, ledger, None);
          given := if settled then Some(Confirmed) else None;
        case Fail(reason) =>
          var settled := SettlePending(id, Failed, None, Some(reason));
          given := if settled then Some(Failed) else None;
      }
    }

    /** `list_stale_pending_withdrawals`. */
    method ListStale(cutoff: int, batch: nat) returns (listed: seq<(Uuid, Row)>)
      ensures IsStaleListing(rows, cutoff, batch, listed)
    {
      var keys := StaleKeys(rows, cutoff);
      SortedIsListing(keys);
      var ids := Sorted(keys);
      var m := if |ids| > batch then batch else |ids|;
      forall i | 0 <= i < |ids| ensures ids[i] in keys {
        assert ids[i] in ids;
      }
      var now := rows;
      listed := seq(m, i requires 0 <= i < m => (ids[i], now[ids[i]]));
      FirstStale(rows, cutoff, batch, ids, listed);
    }

    /**
     * One turn of the sweep: others move on, then the listed row is settled on its verdict. If the
     * statement fails, it may have been applied or not; either way the sweep ends there.
     */
    method ReconcileRow(ghost before: Rows, ghost tasks: seq<(Uuid, Verdict)>, id: Uuid, verdict: Verdict,
                        others: seq<Event>,
                        fault: Fault, stats: Stats, settled: map<Uuid, Status>)
      returns (ok: bool, stats': Stats, settled': map<Uuid, Status>)
      requires Swept(before, tasks, rows, stats, settled)
      modifies this
      ensures ok <==> verdict.Wait? || fault.Fine?
      ensures ok ==> Swept(before, tasks + [(id, verdict)], rows, stats', settled')
      ensures ok && others == [] && old(AllCounted(before, rows, settled)) ==> AllCounted(before, rows, settled')
      ensures !ok ==> Swept(before, tasks, rows, stats, settled)
    {
      ghost var start := rows;
      Others(others);
      SweptLater(before, tasks, start, rows, stats, settled);
      stats', settled', ok := stats, settled, verdict.Wait? || fault.Fine?;
      if fault == Lost(false) && !verdict.Wait? {
        return;
      }
      ghost var moved := rows;
      var given := SettleOne(id, verdict);
      if !ok {
        SweptLater(before, tasks, moved, rows, stats, settled);
        return;
      }
      SweptMore(before, tasks, moved, rows, stats, settled, (id, verdict), given);
      if others == [] && AllCounted(before, start, settled) {
        AllCountedMore(before, start, rows, settled, id, given);
      }
      stats', settled' := Counted(stats, verdict, given), Noted(settled, id, given);
    }

    /** The loop of `reconcile_once` over the rows it listed; it ends at the first failure, if any. */
    method ReconcileListed(listed: seq<(Uuid, Row)>, env: Environment, abandonAfter: int)
      returns (r: Option<Stats>, ghost done: nat, ghost stats: Stats, ghost settled: map<Uuid, Status>)
      modifies this
      ensures done <= |listed|
      ensures Swept(old(rows), Tasks(listed, env.answers, abandonAfter)[..done], rows, stats, settled)
      ensures r.Some? ==> done == |listed| && r.value == stats
      ensures r.None? ==> done < |listed| && !env.faults(done).Fine?
      ensures r.Some? && env.Quiet() ==> AllCounted(old(rows), rows, settled)
    {
      var count, noted := Stats(0, 0, 0), map[];
      ghost var tasks := Tasks(listed, env.answers, abandonAfter);
      var i := 0;
      while i < |listed|
        invariant 0 <= i <= |listed| == |tasks| && Swept(old(rows), tasks[..i], rows, count, noted)
        invariant env.Quiet() ==> AllCounted(old(rows), rows, noted)
      {
        assert tasks[..i + 1] == tasks[..i] + [tasks[i]];
        var verdict := Resolve(listed[i].1, env.answers(i), abandonAfter);
        var ok, count', noted' := ReconcileRow(old(rows), tasks[..i], listed[i].0, verdict, env.others(i),
                                               env.faults(i), count, noted);
        if !ok {
          return None, i, count, noted;
        }
        count, noted, i := count', noted', i + 1;
      }
      r, done, stats, settled := Some(count), i, count, noted;
    }

    /**
     * `reconcile_once`. What it counts is exactly the rows it itself took out of `pending`, each once and
     * each with the status and reason of its verdict; rows settled before are untouched, and no row it
     * came to and had a verdict on is left pending. With nobody else at work it counts every row that
     * left `pending`; with fewer stale rows than its batch it comes to all of them.
     */
    method ReconcileOnce(cutoff: int, batch: nat, env: Environment, abandonAfter: int)
      returns (r: Option<Stats>, ghost listed: seq<(Uuid, Row)>, ghost done: nat, ghost stats: Stats,
               ghost settled: map<Uuid, Status>)
      modifies this
      ensures IsStaleListing(old(rows), cutoff, batch, listed)
      ensures done <= |listed|
      ensures Swept(old(rows), Tasks(listed, env.answers, abandonAfter)[..done], rows, stats, settled)
      ensures r.Some? ==> done == |listed| && r.value == stats
      ensures r.None? ==> env.listFails || (done < |listed| && !env.faults(done).Fine?)
      ensures r.Some? && env.Quiet() ==> AllCounted(old(rows), rows, settled)
      ensures r.Some? && |listed| < batch ==> forall id :: IsStale(old(rows), cutoff, id) ==>
        Concluded(rows, id) || Awaited(Tasks(listed, env.answers, abandonAfter), id)
    {
      var page := ListStale(cutoff, batch);
      listed := page;
      if env.listFails {
        return None, page, 0, Stats(0, 0, 0), map[];
      }
      ghost var before := rows;
      r, done, stats, settled := ReconcileListed(page, env, abandonAfter);
      if r.Some? && |listed| < batch {
        assert Tasks(listed, env.answers, abandonAfter)[..done] == Tasks(listed, env.answers, abandonAfter);
        NoStaleLeft(before, cutoff, batch, listed, Tasks(listed, env.answers, abandonAfter), rows, stats, settled);
      }
    }
  }
}
