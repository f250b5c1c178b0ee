/** One supervision tick as it runs: fan-out by pages, backpressure, requeueing and draining. */
module TickScheduler {
  import opened Wrappers
  import opened Bytes
  import opened Toid
  import opened TickSchedule

  /**
   * The world around a tick: what the `n`-th page query returns, whether a wallet is streaming when
   * that page is fanned out, which task finishes next and how its poll ended.
   */
  datatype World = World(
    fetch: (nat, int) -> Option<seq<Uuid>>,
    live: (nat, Uuid) -> bool,
    pick: nat -> nat,
    outcome: (nat, Task) -> Outcome)

  /** Due wallets after an id, in id order, at most one page of them. */
  ghost predicate IsPage(page: seq<Uuid>, after: int) {
    && |page| <= FANOUT_PAGE_SIZE
    && (forall i :: 0 <= i < |page| ==> after < page[i])
    && (forall i, j :: 0 <= i < j < |page| ==> page[i] < page[j])
  }

  /** The store pages by id and Horizon honours `limit`. */
  ghost predicate Honest(world: World) {
    && (forall n, after :: PageHonest(world, n, after))
    && (forall n, task :: PollHonest(world, n, task))
  }

  ghost predicate PageHonest(world: World, n: nat, after: int) {
    world.fetch(n, after).Some? ==> IsPage(world.fetch(n, after).value, after)
  }

  ghost predicate PollHonest(world: World, n: nat, task: Task) {
    world.outcome(n, task).Polled? ==> world.outcome(n, task).records <= task.limit
  }

  /** The id the next page query starts after. */
  function CursorAfter(pages: seq<seq<Uuid>>): int {
    if pages == [] then -1
    else
      var page := pages[|pages| - 1];
      if page == [] then CursorAfter(pages[..|pages| - 1]) else page[|page| - 1]
  }

  /** The pages are what the store answered, each query starting where the page before ended. */
  ghost predicate Fetched(world: World, pages: seq<seq<Uuid>>) {
    forall n :: 0 <= n < |pages| ==> world.fetch(n, CursorAfter(pages[..n])) == Some(pages[n])
  }

  lemma FetchedMore(world: World, pages: seq<seq<Uuid>>, page: seq<Uuid>)
    requires Fetched(world, pages) && world.fetch(|pages|, CursorAfter(pages)) == Some(page)
    ensures Fetched(world, pages + [page])
    ensures CursorAfter(pages + [page]) == if page == [] then CursorAfter(pages) else page[|page| - 1]
  {
    var more := pages + [page];
    assert more[..|pages|] == pages;
    forall n | 0 <= n < |more| ensures world.fetch(n, CursorAfter(more[..n])) == Some(more[n]) {
      if n < |pages| {
        assert more[..n] == pages[..n];
      }
    }
  }

  /** Every wallet of the pages that was not streaming when its page was fanned out. */
  ghost predicate Loaded(world: World, pages: seq<seq<Uuid>>, loaded: set<Uuid>) {
    forall n :: 0 <= n < |pages| ==> PageLoaded(world, n, pages[n], loaded)
  }

  ghost predicate PageLoaded(world: World, n: nat, page: seq<Uuid>, loaded: set<Uuid>) {
    forall i :: 0 <= i < |page| && !world.live(n, page[i]) ==> page[i] in loaded
  }

  lemma LoadedMore(world: World, pages: seq<seq<Uuid>>, page: seq<Uuid>, loaded: set<Uuid>, now: set<Uuid>)
    requires Loaded(world, pages, loaded) && loaded <= now && PageLoaded(world, |pages|, page, now)
    ensures Loaded(world, pages + [page], now)
  {
    var more := pages + [page];
    forall n | 0 <= n < |more| ensures PageLoaded(world, n, more[n], now) {
      assert n < |pages| ==> PageLoaded(world, n, pages[n], loaded);
    }
  }

  /** A wallet of the pages that was not streaming when its page was fanned out. */
  ghost predicate Due(world: World, pages: seq<seq<Uuid>>, wallet: Uuid) {
    exists n, i :: 0 <= n < |pages| && 0 <= i < |pages[n]| && pages[n][i] == wallet && !world.live(n, wallet)
  }

  ghost predicate AllDue(world: World, pages: seq<seq<Uuid>>, loaded: set<Uuid>) {
    forall w :: w in loaded ==> Due(world, pages, w)
  }

  lemma DueMore(world: World, pages: seq<seq<Uuid>>, page: seq<Uuid>, loaded: set<Uuid>, now: set<Uuid>)
    requires AllDue(world, pages, loaded)
    requires forall w :: w in now && w !in loaded ==> w in page && !world.live(|pages|, w)
    ensures AllDue(world, pages + [page], now)
  {
    var more := pages + [page];
    forall w | w in now ensures Due(world, more, w) {
      if w in loaded {
        var n, i :| 0 <= n < |pages| && 0 <= i < |pages[n]| && pages[n][i] == w && !world.live(n, w);
        assert more[n][i] == w;
      } else {
        var i :| 0 <= i < |page| && page[i] == w;
        assert more[|pages|][i] == w;
      }
    }
  }

  lemma AllPolled(world: World, pages: seq<seq<Uuid>>, loaded: set<Uuid>, log: seq<Poll>)
    requires Loaded(world, pages, loaded) && Covered(loaded, [], log)
    ensures forall n, i :: 0 <= n < |pages| && 0 <= i < |pages[n]| && !world.live(n, pages[n][i]) ==>
      PollsOf(log, pages[n][i]) >= 1
  {
    forall n, i | 0 <= n < |pages| && 0 <= i < |pages[n]| && !world.live(n, pages[n][i])
      ensures PollsOf(log, pages[n][i]) >= 1
    {
      assert PageLoaded(world, n, pages[n], loaded);
    }
  }

  /** With no task left, the polls keep every budget, come in turn, and are of due wallets, drained or spent. */
  lemma AllDrained(world: World, pages: seq<seq<Uuid>>, loaded: set<Uuid>, log: seq<Poll>, pageLimit: nat, after: int)
    requires AllDue(world, pages, loaded) && Sound([], log, pageLimit, after, loaded, None)
    ensures WithinBudget(log) && AllInTurn(log, pageLimit)
    ensures forall i :: 0 <= i < |log| ==> Due(world, pages, log[i].wallet)
    ensures forall w: Uuid :: HasBacklog(log, w) ==> BudgetSpent(log, w)
  {
    forall i | 0 <= i < |log| ensures Due(world, pages, log[i].wallet) {
      assert log[i].wallet in loaded;
    }
    forall w: Uuid | HasBacklog(log, w) ensures BudgetSpent(log, w) {
      assert !Queued([], w);
    }
  }

  /** Pages fetched, the id reached, the wallets queued, and whether a query failed. */
  datatype FanOutState = FanOutState(pages: seq<seq<Uuid>>, after: int, loaded: set<Uuid>, failed: bool)

  /** What the store answered so far, and the wallets that were due in it. */
  ghost predicate Reached(world: World, f: FanOutState) {
    && -1 <= f.after < U128_RANGE && f.after == CursorAfter(f.pages)
    && Fetched(world, f.pages) && Loaded(world, f.pages, f.loaded) && AllDue(world, f.pages, f.loaded)
  }

  lemma ReachedMore(world: World, f: FanOutState, page: seq<Uuid>, now: set<Uuid>)
    requires Reached(world, f) && world.fetch(|f.pages|, f.after) == Some(page) && IsPage(page, f.after)
    requires f.loaded <= now && PageLoaded(world, |f.pages|, page, now)
    requires forall w :: w in now && w !in f.loaded ==> w in page && !world.live(|f.pages|, w)
    ensures var after := if page == [] then f.after else page[|page| - 1];
      && Reached(world, FanOutState(f.pages + [page], after, now, false))
      && f.after <= after && (page != [] ==> f.after < after)
  {
    LoadedMore(world, f.pages, page, f.loaded, now);
    DueMore(world, f.pages, page, f.loaded, now);
    FetchedMore(world, f.pages, page);
  }

  class Supervisor {
    var tasks: seq<Task>
    var log: seq<Poll>
    var steps: nat
    /** The most tasks ever held at once. */
    var peak: nat

    constructor ()
      ensures tasks == [] && log == [] && steps == 0 && peak == 0
    {
      tasks, log, steps, peak := [], [], 0, 0;
    }

    /** Everything the tick has kept to so far. */
    ghost predicate Valid(pageLimit: nat, after: int, loaded: set<Uuid>)
      reads this
    {
      ValidBut(pageLimit, after, loaded, None)
    }

    /** The same, while one wallet's finished page is still to be looked at. */
    ghost predicate ValidBut(pageLimit: nat, after: int, loaded: set<Uuid>, but: Option<Uuid>)
      reads this
    {
      && Sound(tasks, log, pageLimit, after, loaded, but)
      && |tasks| <= peak <= 2 * FANOUT_PAGE_SIZE
    }

    /** `spawn_page`. */
    method SpawnPage(wallet: Uuid, pages: nat, records: nat, pageLimit: nat)
      modifies this`tasks, this`peak
      ensures tasks == old(tasks) + [Task(wallet, pages, records, NextLimit(pageLimit, records))]
      ensures peak == if |tasks| > old(peak) then |tasks| else old(peak)
    {
      var remaining := if records > MAX_RECORDS_PER_WALLET_PER_TICK then 0
                       else MAX_RECORDS_PER_WALLET_PER_TICK - records;
      var limit := if pageLimit < remaining then pageLimit else remaining;
      tasks := tasks + [Task(wallet, pages, records, limit)];
      if |tasks| > peak {
        peak := |tasks|;
      }
    }

    /** A finished task leaves the set and its poll is written down. */
    method TakeOut(i: nat, outcome: Outcome, pageLimit: nat, ghost after: int, ghost loaded: set<Uuid>)
      requires Valid(pageLimit, after, loaded) && i < |tasks|
      requires outcome.Polled? ==> outcome.records <= tasks[i].limit
      modifies this`tasks, this`log
      ensures ValidBut(pageLimit, after, loaded, Some(old(tasks[i]).wallet)) && |tasks| == |old(tasks)| - 1
      ensures var task := old(tasks[i]);
        && log == old(log) + [Poll(task.wallet, task.limit, outcome)]
        && !Queued(tasks, task.wallet) && Finished(task, log, after, loaded)
        && Remaining(tasks) + MAX_PAGES_PER_TICK - task.pages == Remaining(old(tasks))
        && task.pages < MAX_PAGES_PER_TICK
    {
      var task := tasks[i];
      assert TaskSound(task, log, pageLimit);
      TakenOut(tasks, log, pageLimit, after, loaded, i, outcome);
      RemainingWithout(tasks, i);
      tasks, log := Without(tasks, i), log + [Poll(task.wallet, task.limit, outcome)];
    }

    /** The next task to finish is settled. */
    method SettleNext(world: World, pageLimit: nat, ghost after: int, ghost loaded: set<Uuid>) returns (counted: nat)
      requires Honest(world) && tasks != [] && Valid(pageLimit, after, loaded)
      modifies this
      ensures Valid(pageLimit, after, loaded) && |tasks| <= |old(tasks)|
      ensures Remaining(tasks) < Remaining(old(tasks))
      ensures Total(log) == Total(old(log)) + counted
    {
      var i := world.pick(steps) % |tasks|;
      var outcome := world.outcome(steps, tasks[i]);
      assert PollHonest(world, steps, tasks[i]);
      steps := steps + 1;
      counted := Settle(i, outcome, pageLimit, after, loaded);
    }

    /** A finished page: counted, and its wallet requeued if it has backlog and budget. */
    method Settle(i: nat, outcome: Outcome, pageLimit: nat, ghost after: int, ghost loaded: set<Uuid>)
      returns (counted: nat)
      requires Valid(pageLimit, after, loaded) && i < |tasks|
      requires outcome.Polled? ==> outcome.records <= tasks[i].limit
      modifies this`tasks, this`log, this`peak
      ensures Valid(pageLimit, after, loaded) && |tasks| <= |old(tasks)|
      ensures Remaining(tasks) < Remaining(old(tasks))
      ensures Total(log) == Total(old(log)) + counted
    {
      var task := tasks[i];
      TotalGrows(log, Poll(task.wallet, task.limit, outcome));
      TakeOut(i, outcome, pageLimit, after, loaded);
      counted := if outcome.Polled? then outcome.records else 0;
      Resume(task, outcome, pageLimit, after, loaded);
    }

    /** The wallet goes on if its page was full. */
    method Resume(task: Task, outcome: Outcome, pageLimit: nat, ghost after: int, ghost loaded: set<Uuid>)
      requires ValidBut(pageLimit, after, loaded, Some(task.wallet)) && !Queued(tasks, task.wallet)
      requires Finished(task, log, after, loaded) && log[|log| - 1] == Poll(task.wallet, task.limit, outcome)
      requires |tasks| < 2 * FANOUT_PAGE_SIZE && task.pages < MAX_PAGES_PER_TICK
      modifies this`tasks, this`peak
      ensures Valid(pageLimit, after, loaded) && |tasks| <= |old(tasks)| + 1
      ensures Remaining(tasks) < Remaining(old(tasks)) + MAX_PAGES_PER_TICK - task.pages
    {
      if outcome.Polled? && PageWasFull(outcome.records, task.limit) {
        Requeue(task.wallet, task.pages + 1, task.records + outcome.records, pageLimit, after, loaded);
      } else {
        LeftOut(tasks, log, pageLimit, after, loaded, task.wallet);
      }
    }

    /** Back into the queue, behind everyone waiting, unless the wallet's budget is spent. */
    method Requeue(wallet: Uuid, pages: nat, records: nat, pageLimit: nat, ghost after: int, ghost loaded: set<Uuid>)
      requires ValidBut(pageLimit, after, loaded, Some(wallet))
      requires !Queued(tasks, wallet) && wallet <= after && |tasks| < 2 * FANOUT_PAGE_SIZE
      requires pages == PollsOf(log, wallet) && records == RecordsFor(log, wallet)
      requires wallet in loaded && HasBacklog(log, wallet)
      modifies this`tasks, this`peak
      ensures Valid(pageLimit, after, loaded) && |tasks| <= |old(tasks)| + 1
      ensures var left := if pages < MAX_PAGES_PER_TICK then MAX_PAGES_PER_TICK - pages else 0;
        Remaining(tasks) <= Remaining(old(tasks)) + left
    {
      if pages < MAX_PAGES_PER_TICK && records < MAX_RECORDS_PER_WALLET_PER_TICK {
        ghost var task := Task(wallet, pages, records, NextLimit(pageLimit, records));
        PutBack(tasks, log, pageLimit, after, loaded, task);
        assert (tasks + [task])[..|tasks|] == tasks;
        SpawnPage(wallet, pages, records, pageLimit);
      } else {
        LeftOut(tasks, log, pageLimit, after, loaded, wallet);
      }
    }

    /** Queue one page of due wallets, but for those an open stream already serves. */
    method FanOut(world: World, n: nat, page: seq<Uuid>, pageLimit: nat, after: int, loaded: set<Uuid>)
      returns (now: set<Uuid>)
      requires Valid(pageLimit, after, loaded) && IsPage(page, after) && |tasks| <= FANOUT_PAGE_SIZE
      modifies this`tasks, this`peak
      ensures Valid(pageLimit, if page == [] then after else page[|page| - 1], now)
      ensures loaded <= now && forall i :: 0 <= i < |page| && !world.live(n, page[i]) ==> page[i] in now
      ensures forall w :: w in now && w !in loaded ==> w in page && !world.live(n, w)
    {
      now := loaded;
      var i := 0;
      while i < |page|
        invariant 0 <= i <= |page| && |tasks| <= FANOUT_PAGE_SIZE + i
        invariant Valid(pageLimit, if i == 0 then after else page[i - 1], now)
        invariant loaded <= now && forall j :: 0 <= j < i && !world.live(n, page[j]) ==> page[j] in now
        invariant forall w :: w in now && w !in loaded ==> w in page && !world.live(n, w)
      {
        now := Consider(page[i], world.live(n, page[i]), pageLimit, if i == 0 then after else page[i - 1], now);
        i := i + 1;
      }
    }

    /** The next due wallet is queued, unless it is streaming. */
    method Consider(wallet: Uuid, live: bool, pageLimit: nat, ghost after: int, loaded: set<Uuid>)
      returns (now: set<Uuid>)
      requires Valid(pageLimit, after, loaded) && after < wallet && |tasks| < 2 * FANOUT_PAGE_SIZE
      modifies this`tasks, this`peak
      ensures Valid(pageLimit, wallet, now) && |tasks| <= |old(tasks)| + 1
      ensures now == if live then loaded else loaded + {wallet}
    {
      now := loaded;
      if live {
        PassedOver(tasks, log, pageLimit, after, loaded, wallet);
      } else {
        PutIn(tasks, log, pageLimit, after, loaded, wallet);
        SpawnPage(wallet, 0, 0, pageLimit);
        now := now + {wallet};
      }
    }

    /** Settle tasks until no more than `keep` are left. */
    method SettleDownTo(world: World, keep: nat, pageLimit: nat, ghost after: int, ghost loaded: set<Uuid>)
      returns (counted: nat)
      requires Honest(world) && Valid(pageLimit, after, loaded)
      modifies this
      ensures Valid(pageLimit, after, loaded) && |tasks| <= keep
      ensures Total(log) == Total(old(log)) + counted
    {
      counted := 0;
      while |tasks| > keep
        invariant Valid(pageLimit, after, loaded)
        invariant Total(log) == Total(old(log)) + counted
        decreases Remaining(tasks)
      {
        var n := SettleNext(world, pageLimit, after, loaded);
        counted := counted + n;
      }
    }

    /** The fan-out so far. */
    ghost predicate FannedOut(world: World, f: FanOutState, pageLimit: nat)
      reads this
    {
      Reached(world, f) && Valid(pageLimit, f.after, f.loaded)
    }

    /** Query the next page, queue it and, unless it was the last, settle down to one page of tasks. */
    method NextPage(world: World, f: FanOutState, pageLimit: nat) returns (g: FanOutState, more: bool, counted: nat)
      requires Honest(world) && FannedOut(world, f, pageLimit) && |tasks| <= FANOUT_PAGE_SIZE && !f.failed
      modifies this
      ensures FannedOut(world, g, pageLimit) && Total(log) == Total(old(log)) + counted
      ensures g.failed ==> !more && world.fetch(|g.pages|, g.after).None?
      ensures f.after <= g.after && (more ==> |tasks| <= FANOUT_PAGE_SIZE && f.after < g.after)
      ensures !more && !g.failed ==> g.pages != [] && |g.pages[|g.pages| - 1]| < FANOUT_PAGE_SIZE
    {
      var page := world.fetch(|f.pages|, f.after);
      if page.None? {
        return f.(failed := true), false, 0;
      }
      g := QueuePage(world, f, page.value, pageLimit);
      more := |page.value| == FANOUT_PAGE_SIZE;
      counted := 0;
      if more {
        counted := SettleDownTo(world, FANOUT_PAGE_SIZE, pageLimit, g.after, g.loaded);
      }
    }

    /** A page as the store answered it is queued. */
    method QueuePage(world: World, f: FanOutState, page: seq<Uuid>, pageLimit: nat) returns (g: FanOutState)
      requires Honest(world) && FannedOut(world, f, pageLimit) && |tasks| <= FANOUT_PAGE_SIZE
      requires world.fetch(|f.pages|, f.after) == Some(page)
      modifies this`tasks, this`peak
      ensures FannedOut(world, g, pageLimit) && g.pages == f.pages + [page] && !g.failed
      ensures f.after <= g.after && (page != [] ==> f.after < g.after) && |page| <= FANOUT_PAGE_SIZE
    {
      assert PageHonest(world, |f.pages|, f.after);
      var now := FanOut(world, |f.pages|, page, pageLimit, f.after, f.loaded);
      ReachedMore(world, f, page, now);
      g := FanOutState(f.pages + [page], if page == [] then f.after else page[|page| - 1], now, false);
    }

    /** The fan-out loop, over as many pages as there are. */
    method FanOutAll(world: World, pageLimit: nat) returns (f: FanOutState, total: nat)
      requires Honest(world) && Valid(pageLimit, -1, {}) && tasks == [] && log == []
      modifies this
      ensures FannedOut(world, f, pageLimit) && total == Total(log)
      ensures f.failed ==> world.fetch(|f.pages|, f.after).None?
      ensures !f.failed ==> f.pages != [] && |f.pages[|f.pages| - 1]| < FANOUT_PAGE_SIZE
    {
      f, total := FanOutState([], -1, {}, false), 0;
      var more := true;
      while more
        invariant FannedOut(world, f, pageLimit) && total == Total(log)
        invariant more ==> |tasks| <= FANOUT_PAGE_SIZE && !f.failed
        invariant f.failed ==> world.fetch(|f.pages|, f.after).None?
        invariant !more && !f.failed ==> f.pages != [] && |f.pages[|f.pages| - 1]| < FANOUT_PAGE_SIZE
        decreases U128_RANGE - f.after, more
      {
        var counted;
        f, more, counted := NextPage(world, f, pageLimit);
        total := total + counted;
      }
    }

    /**
     * `tick`: it always ends, with every loaded wallet that was not streaming polled at least once and
     * polled on while its pages come back full, until its pages or records for the tick are spent; no
     * request goes beyond Horizon's limit, and there are never more than two fan-out pages of tasks. A
     * failed page query ends the fan-out, not the polls.
     */
    method Tick(world: World, requestedLimit: U32) returns (r: Result<nat, ()>, pages: seq<seq<Uuid>>)
      requires Honest(world) && tasks == [] && log == [] && peak == 0
      modifies this
      ensures tasks == [] && WithinBudget(log) && peak <= 1000
      ensures exists pageLimit :: IsPageLimit(requestedLimit, pageLimit) && AllInTurn(log, pageLimit)
      ensures forall i :: 0 <= i < |log| ==> Due(world, pages, log[i].wallet)
      ensures forall n, i :: 0 <= n < |pages| && 0 <= i < |pages[n]| && !world.live(n, pages[n][i]) ==>
        PollsOf(log, pages[n][i]) >= 1
      ensures forall w: Uuid :: HasBacklog(log, w) ==> BudgetSpent(log, w)
      ensures Fetched(world, pages)
      ensures r.Ok? ==> r.value == Total(log) && pages != [] && |pages[|pages| - 1]| < 500
      ensures r.Err? ==> world.fetch(|pages|, CursorAfter(pages)).None?
    {
      var pageLimit := Clamp(requestedLimit);
      assert IsPageLimit(requestedLimit, pageLimit);
      var f, total := FanOutAll(world, pageLimit);
      var counted := SettleDownTo(world, 0, pageLimit, f.after, f.loaded);
      AllPolled(world, f.pages, f.loaded, log);
      AllDrained(world, f.pages, f.loaded, log, pageLimit, f.after);
      pages := f.pages;
      r := if f.failed then Err(()) else Ok(total + counted);
    }
  }
}
