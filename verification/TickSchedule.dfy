/** The bookkeeping of one supervision tick: who has been polled, how often and for how much. */
module TickSchedule {
  import opened Wrappers
  import opened Bytes
  import opened Toid

  const FANOUT_PAGE_SIZE: nat := 500
  const MAX_HORIZON_PAGE_LIMIT: nat := 200
  const MAX_PAGES_PER_TICK: nat := 10
  const MAX_RECORDS_PER_WALLET_PER_TICK: nat := 500

  /** A queued or running page poll: the wallet's turn so far and the limit it will ask for. */
  datatype Task = Task(wallet: Uuid, pages: nat, records: nat, limit: nat)

  /** How a page poll ended. */
  datatype Outcome = Polled(records: nat) | PollFailed | Panicked

  /** A finished page poll. */
  datatype Poll = Poll(wallet: Uuid, limit: nat, outcome: Outcome)

  function RecordsOf(poll: Poll): nat {
    if poll.outcome.Polled? then poll.outcome.records else 0
  }

  function Clamp(limit: U32): (n: nat)
    ensures 1 <= n <= MAX_HORIZON_PAGE_LIMIT
  {
    if limit < 1 then 1 else if limit > MAX_HORIZON_PAGE_LIMIT then MAX_HORIZON_PAGE_LIMIT else limit
  }

  /** The limit of a wallet's next page: never past its record budget. */
  function NextLimit(pageLimit: nat, records: nat): nat {
    var remaining := if records > MAX_RECORDS_PER_WALLET_PER_TICK then 0 else MAX_RECORDS_PER_WALLET_PER_TICK - records;
    if pageLimit < remaining then pageLimit else remaining
  }

  predicate PageWasFull(records: nat, limit: nat) {
    limit > 0 && records >= limit
  }

  // --- totals over finished polls -------------------------------------------------------------------

  function PollsOf(log: seq<Poll>, wallet: Uuid): nat {
    if log == [] then 0
    else PollsOf(log[..|log| - 1], wallet) + if log[|log| - 1].wallet == wallet then 1 else 0
  }

  function RecordsFor(log: seq<Poll>, wallet: Uuid): nat {
    if log == [] then 0
    else RecordsFor(log[..|log| - 1], wallet) + if log[|log| - 1].wallet == wallet then RecordsOf(log[|log| - 1]) else 0
  }

  function Total(log: seq<Poll>): nat {
    if log == [] then 0 else Total(log[..|log| - 1]) + RecordsOf(log[|log| - 1])
  }

  /** A failed or panicked poll counts for nothing. */
  lemma TotalGrows(log: seq<Poll>, poll: Poll)
    ensures Total([]) == 0
    ensures Total(log + [poll]) == Total(log) + if poll.outcome.Polled? then poll.outcome.records else 0
  {
    assert (log + [poll])[..|log|] == log;
  }

  lemma LogGrows(log: seq<Poll>, poll: Poll)
    ensures forall w :: PollsOf(log + [poll], w) == PollsOf(log, w) + if poll.wallet == w then 1 else 0
    ensures var n := if poll.outcome.Polled? then poll.outcome.records else 0;
      forall w :: RecordsFor(log + [poll], w) == RecordsFor(log, w) + if poll.wallet == w then n else 0
  {
    assert (log + [poll])[..|log|] == log;
  }

  lemma {:induction false} Unpolled(log: seq<Poll>, wallet: Uuid)
    requires forall i :: 0 <= i < |log| ==> log[i].wallet != wallet
    ensures PollsOf(log, wallet) == 0 && RecordsFor(log, wallet) == 0
  {
    if log != [] {
      Unpolled(log[..|log| - 1], wallet);
    }
  }

  /** The pages still allowed to the queued wallets: the measure by which a tick ends. */
  function Remaining(tasks: seq<Task>): nat {
    if tasks == [] then 0
    else
      var last := tasks[|tasks| - 1];
      Remaining(tasks[..|tasks| - 1]) + if last.pages < MAX_PAGES_PER_TICK then MAX_PAGES_PER_TICK - last.pages else 0
  }

  lemma {:induction false} RemainingConcat(a: seq<Task>, b: seq<Task>)
    ensures Remaining(a + b) == Remaining(a) + Remaining(b)
  {
    if b == [] {
      assert a + b == a;
    } else {
      assert (a + b)[..|a + b| - 1] == a + b[..|b| - 1];
      RemainingConcat(a, b[..|b| - 1]);
    }
  }

  function Without(tasks: seq<Task>, i: nat): seq<Task>
    requires i < |tasks|
  {
    tasks[..i] + tasks[i + 1..]
  }

  lemma RemainingWithout(tasks: seq<Task>, i: nat)
    requires i < |tasks| && tasks[i].pages < MAX_PAGES_PER_TICK
    ensures Remaining(tasks) == Remaining(Without(tasks, i)) + MAX_PAGES_PER_TICK - tasks[i].pages
  {
    assert tasks == tasks[..i] + [tasks[i]] + tasks[i + 1..];
    RemainingConcat(tasks[..i] + [tasks[i]], tasks[i + 1..]);
    RemainingConcat(tasks[..i], [tasks[i]]);
    RemainingConcat(tasks[..i], tasks[i + 1..]);
    assert [tasks[i]][..0] == [];
  }

  // --- what holds throughout a tick ----------------------------------------------------------------------

  /** A task knows its wallet's true totals, has budget left, and asks for no more than that. */
  ghost predicate TaskSound(task: Task, log: seq<Poll>, pageLimit: nat) {
    && task.pages == PollsOf(log, task.wallet) < MAX_PAGES_PER_TICK
    && task.records == RecordsFor(log, task.wallet) < MAX_RECORDS_PER_WALLET_PER_TICK
    && task.limit == NextLimit(pageLimit, task.records)
    && (task.pages == 0 || HasBacklog(log, task.wallet))
  }

  /** No wallet is queued twice. */
  ghost predicate OneTaskEach(tasks: seq<Task>) {
    forall i, j :: 0 <= i < j < |tasks| ==> tasks[i].wallet != tasks[j].wallet
  }

  ghost predicate WithinBudget(log: seq<Poll>) {
    forall w :: PollsOf(log, w) <= 10 && RecordsFor(log, w) <= 500
  }

  /** The page limit a caller gets for the one it asks for: Horizon takes 1 to 200. */
  ghost predicate IsPageLimit(requested: U32, pageLimit: nat) {
    && 1 <= pageLimit <= 200
    && (1 <= requested <= 200 ==> pageLimit == requested)
    && (requested == 0 ==> pageLimit == 1) && (requested > 200 ==> pageLimit == 200)
  }

  /**
   * A poll asked for a full page or, where that is less, for what was left of the wallet's 500 records;
   * and it was the wallet's first, or came after a full page.
   */
  ghost predicate InTurn(before: seq<Poll>, poll: Poll, pageLimit: nat) {
    && poll.limit + RecordsFor(before, poll.wallet) <= 500 && 1 <= poll.limit <= pageLimit
    && (poll.limit == pageLimit || poll.limit + RecordsFor(before, poll.wallet) == 500)
    && (PollsOf(before, poll.wallet) == 0 || HasBacklog(before, poll.wallet))
  }

  ghost predicate AllInTurn(log: seq<Poll>, pageLimit: nat) {
    forall i {:trigger InTurn(log[..i], log[i], pageLimit)} :: 0 <= i < |log| ==>
      InTurn(log[..i], log[i], pageLimit)
  }

  lemma InTurnGrows(log: seq<Poll>, poll: Poll, pageLimit: nat)
    requires AllInTurn(log, pageLimit) && InTurn(log, poll, pageLimit)
    ensures AllInTurn(log + [poll], pageLimit)
  {
    var more := log + [poll];
    forall i | 0 <= i < |more| ensures InTurn(more[..i], more[i], pageLimit) {
      assert more[..i] == log[..i];
      assert i < |log| ==> InTurn(log[..i], log[i], pageLimit);
    }
  }

  ghost predicate Fair(tasks: seq<Task>, log: seq<Poll>, pageLimit: nat) {
    && 1 <= pageLimit <= 200
    && OneTaskEach(tasks) && WithinBudget(log) && AllInTurn(log, pageLimit)
    && forall i :: 0 <= i < |tasks| ==> TaskSound(tasks[i], log, pageLimit)
  }

  /** Nothing has been queued or polled beyond the last wallet loaded. */
  ghost predicate UpTo(tasks: seq<Task>, log: seq<Poll>, after: int) {
    && (forall i :: 0 <= i < |tasks| ==> tasks[i].wallet <= after)
    && (forall i :: 0 <= i < |log| ==> log[i].wallet <= after)
  }

  ghost predicate Queued(tasks: seq<Task>, wallet: Uuid) {
    exists i :: 0 <= i < |tasks| && tasks[i].wallet == wallet
  }

  /** Every wallet in `loaded` has been polled or is about to be. */
  ghost predicate Covered(loaded: set<Uuid>, tasks: seq<Task>, log: seq<Poll>) {
    forall w :: w in loaded ==> PollsOf(log, w) >= 1 || Queued(tasks, w)
  }

  /** Nobody else is polled. */
  ghost predicate OnlyThese(loaded: set<Uuid>, tasks: seq<Task>, log: seq<Poll>) {
    && (forall i :: 0 <= i < |tasks| ==> tasks[i].wallet in loaded)
    && (forall i :: 0 <= i < |log| ==> log[i].wallet in loaded)
  }

  // --- backlogs ---------------------------------------------------------------------------------------------

  predicate FullPage(poll: Poll) {
    poll.outcome.Polled? && 0 < poll.limit <= poll.outcome.records
  }

  /** The wallet's last page came back full, so more may be waiting. */
  predicate HasBacklog(log: seq<Poll>, wallet: Uuid) {
    log != [] &&
    var last := log[|log| - 1];
    if last.wallet == wallet then FullPage(last) else HasBacklog(log[..|log| - 1], wallet)
  }

  predicate BudgetSpent(log: seq<Poll>, wallet: Uuid) {
    PollsOf(log, wallet) >= 10 || RecordsFor(log, wallet) >= 500
  }

  /** Every wallet with a backlog, except perhaps `but`, is queued again or has spent its budget. */
  ghost predicate Drains(tasks: seq<Task>, log: seq<Poll>, but: Option<Uuid>) {
    forall w: Uuid :: HasBacklog(log, w) && but != Some(w) ==> Queued(tasks, w) || BudgetSpent(log, w)
  }

  /** A finished page says whether its wallet has a backlog, and nothing about the others. */
  lemma DrainsButOne(tasks: seq<Task>, log: seq<Poll>, i: nat, poll: Poll)
    requires Drains(tasks, log, None) && i < |tasks| && poll.wallet == tasks[i].wallet
    ensures Drains(Without(tasks, i), log + [poll], Some(poll.wallet))
    ensures HasBacklog(log + [poll], poll.wallet) == FullPage(poll)
  {
    LogGrows(log, poll);
    assert (log + [poll])[..|log|] == log;
    var rest := Without(tasks, i);
    forall w: Uuid | HasBacklog(log + [poll], w) && w != poll.wallet
      ensures Queued(rest, w) || BudgetSpent(log + [poll], w)
    {
      assert HasBacklog(log, w);
      if Queued(tasks, w) {
        var j :| 0 <= j < |tasks| && tasks[j].wallet == w;
        assert rest[if j < i then j else j - 1].wallet == w;
      }
    }
  }

  lemma DrainsWithMore(tasks: seq<Task>, log: seq<Poll>, but: Option<Uuid>, task: Task)
    requires Drains(tasks, log, but)
    ensures Drains(tasks + [task], log, if but == Some(task.wallet) then None else but)
  {
    var more := tasks + [task];
    assert more[|tasks|].wallet == task.wallet;
    forall w: Uuid | HasBacklog(log, w) && but != Some(w) ensures Queued(more, w) || BudgetSpent(log, w) {
      if Queued(tasks, w) {
        var i :| 0 <= i < |tasks| && tasks[i].wallet == w;
        assert more[i].wallet == w;
      }
    }
  }

  // --- the two steps ------------------------------------------------------------------------------------------

  /** Queue a wallet's first page. */
  lemma FirstPage(tasks: seq<Task>, log: seq<Poll>, pageLimit: nat, after: int, wallet: Uuid, loaded: set<Uuid>)
    requires Fair(tasks, log, pageLimit) && UpTo(tasks, log, after) && after < wallet && Covered(loaded, tasks, log)
    ensures var more := tasks + [Task(wallet, 0, 0, NextLimit(pageLimit, 0))];
      Fair(more, log, pageLimit) && UpTo(more, log, wallet) && Covered(loaded + {wallet}, more, log)
  {
    Unpolled(log, wallet);
    var more := tasks + [Task(wallet, 0, 0, NextLimit(pageLimit, 0))];
    assert more[|tasks|].wallet == wallet;
    forall w | w in loaded ensures PollsOf(log, w) >= 1 || Queued(more, w) {
      if Queued(tasks, w) {
        var i :| 0 <= i < |tasks| && tasks[i].wallet == w;
        assert more[i].wallet == w;
      }
    }
  }

  /** Take a finished page off the queue and write it down. */
  lemma PageDone(tasks: seq<Task>, log: seq<Poll>, pageLimit: nat, i: nat, outcome: Outcome)
    requires Fair(tasks, log, pageLimit) && i < |tasks|
    requires outcome.Polled? ==> outcome.records <= tasks[i].limit
    ensures var done := log + [Poll(tasks[i].wallet, tasks[i].limit, outcome)];
      && Fair(Without(tasks, i), done, pageLimit)
      && PollsOf(done, tasks[i].wallet) == tasks[i].pages + 1
      && RecordsFor(done, tasks[i].wallet) == tasks[i].records + RecordsOf(done[|log|])
      && !Queued(Without(tasks, i), tasks[i].wallet)
  {
    var task := tasks[i];
    var poll := Poll(task.wallet, task.limit, outcome);
    assert TaskSound(task, log, pageLimit);
    LogGrows(log, poll);
    InTurnGrows(log, poll, pageLimit);
    assert (log + [poll])[..|log|] == log;
    var rest := Without(tasks, i);
    forall j | 0 <= j < |rest| ensures rest[j] == tasks[if j < i then j else j + 1] {
    }
    forall j | 0 <= j < |rest| ensures TaskSound(rest[j], log + [poll], pageLimit) && rest[j].wallet != task.wallet {
      assert TaskSound(tasks[if j < i then j else j + 1], log, pageLimit);
    }
  }

  /** Whoever was covered still is, once the finished wallet counts as polled. */
  lemma StillCovered(loaded: set<Uuid>, tasks: seq<Task>, log: seq<Poll>, i: nat, poll: Poll)
    requires Covered(loaded, tasks, log) && i < |tasks| && poll.wallet == tasks[i].wallet
    ensures Covered(loaded, Without(tasks, i), log + [poll])
  {
    LogGrows(log, poll);
    var rest := Without(tasks, i);
    forall w | w in loaded ensures PollsOf(log + [poll], w) >= 1 || Queued(rest, w) {
      if PollsOf(log, w) == 0 && w != poll.wallet {
        var j :| 0 <= j < |tasks| && tasks[j].wallet == w;
        assert rest[if j < i then j else j - 1].wallet == w;
      }
    }
  }

  /** What a tick keeps to, while `but`'s finished page is still to be looked at. */
  ghost predicate Sound(
    tasks: seq<Task>, log: seq<Poll>, pageLimit: nat, after: int, loaded: set<Uuid>, but: Option<Uuid>)
  {
    && Fair(tasks, log, pageLimit) && UpTo(tasks, log, after) && Covered(loaded, tasks, log)
    && OnlyThese(loaded, tasks, log) && Drains(tasks, log, but)
  }

  lemma TakenOut(
    tasks: seq<Task>, log: seq<Poll>, pageLimit: nat, after: int, loaded: set<Uuid>, i: nat, outcome: Outcome)
    requires Sound(tasks, log, pageLimit, after, loaded, None) && i < |tasks|
    requires outcome.Polled? ==> outcome.records <= tasks[i].limit
    ensures var task := tasks[i]; var done := log + [Poll(task.wallet, task.limit, outcome)];
      && Sound(Without(tasks, i), done, pageLimit, after, loaded, Some(task.wallet))
      && !Queued(Without(tasks, i), task.wallet) && Finished(task, done, after, loaded)
  {
    var task := tasks[i];
    var poll := Poll(task.wallet, task.limit, outcome);
    PageDone(tasks, log, pageLimit, i, outcome);
    StillCovered(loaded, tasks, log, i, poll);
    DrainsButOne(tasks, log, i, poll);
    StillOnlyThese(loaded, tasks, log, after, i, poll);
  }

  lemma StillOnlyThese(loaded: set<Uuid>, tasks: seq<Task>, log: seq<Poll>, after: int, i: nat, poll: Poll)
    requires OnlyThese(loaded, tasks, log) && UpTo(tasks, log, after) && i < |tasks| && poll.wallet == tasks[i].wallet
    ensures OnlyThese(loaded, Without(tasks, i), log + [poll]) && UpTo(Without(tasks, i), log + [poll], after)
  {
  }

  /** A wallet without a backlog, or without budget, is done for the tick. */
  lemma LeftOut(tasks: seq<Task>, log: seq<Poll>, pageLimit: nat, after: int, loaded: set<Uuid>, wallet: Uuid)
    requires Sound(tasks, log, pageLimit, after, loaded, Some(wallet))
    requires !HasBacklog(log, wallet) || BudgetSpent(log, wallet)
    ensures Sound(tasks, log, pageLimit, after, loaded, None)
  {
  }

  /** Any other goes back into the queue. */
  lemma PutBack(tasks: seq<Task>, log: seq<Poll>, pageLimit: nat, after: int, loaded: set<Uuid>, task: Task)
    requires Sound(tasks, log, pageLimit, after, loaded, Some(task.wallet))
    requires TaskSound(task, log, pageLimit) && !Queued(tasks, task.wallet)
    requires task.wallet <= after && task.wallet in loaded
    ensures Sound(tasks + [task], log, pageLimit, after, loaded, None)
  {
    NextPage(tasks, log, pageLimit, task);
    CoveredByMore(loaded, tasks, log, task);
    DrainsWithMore(tasks, log, Some(task.wallet), task);
  }

  lemma PutIn(tasks: seq<Task>, log: seq<Poll>, pageLimit: nat, after: int, loaded: set<Uuid>, wallet: Uuid)
    requires Sound(tasks, log, pageLimit, after, loaded, None) && after < wallet
    ensures var more := tasks + [Task(wallet, 0, 0, NextLimit(pageLimit, 0))];
      Sound(more, log, pageLimit, wallet, loaded + {wallet}, None)
  {
    FirstPage(tasks, log, pageLimit, after, wallet, loaded);
    DrainsWithMore(tasks, log, None, Task(wallet, 0, 0, NextLimit(pageLimit, 0)));
  }

  lemma PassedOver(tasks: seq<Task>, log: seq<Poll>, pageLimit: nat, after: int, loaded: set<Uuid>, wallet: Uuid)
    requires Sound(tasks, log, pageLimit, after, loaded, None) && after < wallet
    ensures Sound(tasks, log, pageLimit, wallet, loaded, None)
  {
  }

  /** Its page is the last one in the log. */
  ghost predicate Finished(task: Task, log: seq<Poll>, after: int, loaded: set<Uuid>) {
    && log != [] && task.wallet <= after && task.wallet in loaded
    && HasBacklog(log, task.wallet) == FullPage(log[|log| - 1])
    && PollsOf(log, task.wallet) == task.pages + 1
    && RecordsFor(log, task.wallet) == task.records + RecordsOf(log[|log| - 1])
  }

  /** Requeue a wallet that has backlog and budget. */
  lemma NextPage(tasks: seq<Task>, log: seq<Poll>, pageLimit: nat, task: Task)
    requires Fair(tasks, log, pageLimit) && TaskSound(task, log, pageLimit) && !Queued(tasks, task.wallet)
    ensures Fair(tasks + [task], log, pageLimit)
  {
  }

  lemma CoveredByMore(loaded: set<Uuid>, tasks: seq<Task>, log: seq<Poll>, task: Task)
    requires Covered(loaded, tasks, log)
    ensures Covered(loaded, tasks + [task], log)
  {
    forall w | w in loaded ensures PollsOf(log, w) >= 1 || Queued(tasks + [task], w) {
      if Queued(tasks, w) {
        var i :| 0 <= i < |tasks| && tasks[i].wallet == w;
        assert (tasks + [task])[i].wallet == w;
      }
    }
  }
}
