/** When ingestion credits everything below the cursor, exactly: the condition and its necessity. */
module IngestTheorems {
  import opened Wrappers
  import opened Digits
  import opened Toid
  import opened Deposits
  import opened IngestProtocol
  import opened IngestSafety

  // --- no double credit, whatever Horizon says -------------------------------------------------------

  lemma {:induction false} RowsStayUnique(net: Network, s: State, events: seq<Event>)
    requires RowsUnique(s.rows)
    ensures RowsUnique(Run(net, s, events).rows)
  {
    if events != [] {
      RowsStayUnique(net, s, events[..|events| - 1]);
    }
  }

  /** In no run at all does an operation get two rows. */
  lemma NeverCreditedTwice(net: Network, events: seq<Event>, r: nat, q: nat)
    requires r < |Run(net, INITIAL, events).rows| && q < |Run(net, INITIAL, events).rows|
    requires var rows := Run(net, INITIAL, events).rows; rows[r].horizonOpId == rows[q].horizonOpId
    ensures r == q
  {
    RowsStayUnique(net, INITIAL, events);
    var rows := Run(net, INITIAL, events).rows;
    assert Clash(rows[r], rows[q]) && Clash(rows[q], rows[r]);
  }

  // --- nothing lost -----------------------------------------------------------------------------------

  /** Exactly one row, with the exact amount, account, asset and keys the operation is owed. */
  ghost predicate CreditedOnce(rows: seq<Deposit>, owed: Deposit) {
    exists r :: 0 <= r < |rows| && Unattributed(rows[r]) == owed
      && forall q :: 0 <= q < |rows| && rows[q].horizonOpId == owed.horizonOpId ==> q == r
  }

  lemma SoundIsComplete(net: Network, s: State)
    requires Paged(net) && Sound(net, s)
    ensures Complete(net, s)
  {
    forall w, i | w in s.cursors && w < |net.lanes| && 0 <= i < |net.lanes[w].ops|
      && Value(net.lanes[w].ops[i].pagingToken) <= Place(Some(s.cursors[w]))
      ensures Settled(net, s.rows, w, i)
    {
      PassedSplits(net.lanes[w].ops, Place(Some(s.cursors[w])));
      assert CursorSound(net, s.rows, w, Some(s.cursors[w]));
    }
  }

  lemma EveryRunIsComplete(net: Network, events: seq<Event>, since: nat)
    requires Lawful(net.rules) && Paged(net) && KeysSeparate(net) && LedgersPlausible(net, since)
    requires ClocksFrom(since, events)
    ensures Complete(net, Run(net, INITIAL, events))
  {
    assert Sound(net, INITIAL);
    RunKeepsSound(net, INITIAL, events, since);
    SoundIsComplete(net, Run(net, INITIAL, events));
  }

  /**
   * After any interleaving of any number of workers, with crashes anywhere and the cursor free to
   * move backwards, an operation at or below the stored cursor that owes a deposit has exactly one row.
   */
  lemma EveryRunCreditsOnce(net: Network, events: seq<Event>, since: nat, w: nat, i: nat)
    requires Lawful(net.rules) && Paged(net) && KeysSeparate(net) && LedgersPlausible(net, since)
    requires ClocksFrom(since, events)
    requires w < |net.lanes| && i < |net.lanes[w].ops| && OwedAt(net, w, i).Some?
    requires var s := Run(net, INITIAL, events);
      w in s.cursors && Value(net.lanes[w].ops[i].pagingToken) <= Place(Some(s.cursors[w]))
    ensures CreditedOnce(Run(net, INITIAL, events).rows, OwedAt(net, w, i).value)
  {
    EveryRunIsComplete(net, events, since);
    var s, owed := Run(net, INITIAL, events), OwedAt(net, w, i).value;
    assert Settled(net, s.rows, w, i);
    var r :| 0 <= r < |s.rows| && Unattributed(s.rows[r]) == owed;
    forall q | 0 <= q < |s.rows| && s.rows[q].horizonOpId == owed.horizonOpId ensures q == r {
      NeverCreditedTwice(net, events, q, r);
    }
  }

  // --- the condition is necessary -----------------------------------------------------------------------

  lemma {:induction false} RunConcat(net: Network, s: State, a: seq<Event>, b: seq<Event>)
    ensures Run(net, s, a + b) == Run(net, Run(net, s, a), b)
  {
    if b == [] {
      assert a + b == a;
    } else {
      var n := |b| - 1;
      assert (a + b)[..|a + b| - 1] == a + b[..n];
      RunConcat(net, s, a, b[..n]);
    }
  }

  /** Every clock reading in the run is `now`. */
  ghost predicate ClockAt(now: nat, events: seq<Event>) {
    forall n :: 0 <= n < |events| && events[n].Process? ==> events[n].now == now
  }

  ghost function Repeat(steps: seq<Event>, n: nat): seq<Event> {
    if n == 0 then [] else Repeat(steps, n - 1) + steps
  }

  /** One worker takes a lane from its first operation to its last. */
  ghost function Drain(net: Network, w: nat, now: nat): seq<Event>
    requires w < |net.lanes|
  {
    [Start(0, w), Answer(0, |net.lanes[w].ops|, false)]
      + Repeat([Process(0, now, None), SetCursor(0)], |net.lanes[w].ops|)
  }

  lemma RunTwo(net: Network, s: State, d: Event, e: Event)
    ensures Run(net, s, [d, e]) == Apply(net, Apply(net, s, d), e)
  {
    assert [d, e][..1] == [d] && [d][..0] == [];
    assert Run(net, s, [d]) == Apply(net, s, d);
  }

  /** Worker 0 has taken lane `w` from `s` past its first `n` operations. */
  ghost predicate Taken(net: Network, s: State, after: State, w: nat, n: nat) {
    && w < |net.lanes| && n <= |net.lanes[w].ops|
    && 0 in after.workers && after.workers[0] == Worker(w, Serving(n, |net.lanes[w].ops|, false))
    && after.cursors == if n == 0 then s.cursors else s.cursors[w := net.lanes[w].ops[n - 1].pagingToken]
  }

  /** Process one operation and move the cursor past it. */
  lemma DrainOne(net: Network, s: State, mid: State, w: nat, i: nat, now: nat)
    requires Taken(net, s, mid, w, i) && i < |net.lanes[w].ops|
    ensures Taken(net, s, Apply(net, Apply(net, mid, Process(0, now, None)), SetCursor(0)), w, i + 1)
  {
    var recorded := Apply(net, mid, Process(0, now, None));
    assert recorded.workers[0] == Worker(w, Recorded(i, |net.lanes[w].ops|, false));
  }

  lemma {:induction false} RepeatAdvances(net: Network, s: State, w: nat, n: nat, steps: seq<Event>)
    requires Taken(net, s, s, w, 0) && n <= |net.lanes[w].ops|
    requires forall mid, i: nat :: Taken(net, s, mid, w, i) && i < |net.lanes[w].ops| ==>
      Taken(net, s, Run(net, mid, steps), w, i + 1)
    ensures Taken(net, s, Run(net, s, Repeat(steps, n)), w, n)
  {
    if n > 0 {
      RepeatAdvances(net, s, w, n - 1, steps);
      RunConcat(net, s, Repeat(steps, n - 1), steps);
    }
  }

  lemma DrainAdvances(net: Network, s: State, w: nat, now: nat)
    requires Taken(net, s, s, w, 0)
    ensures var n := |net.lanes[w].ops|;
      Taken(net, s, Run(net, s, Repeat([Process(0, now, None), SetCursor(0)], n)), w, n)
  {
    var steps := [Process(0, now, None), SetCursor(0)];
    forall mid, i: nat | Taken(net, s, mid, w, i) && i < |net.lanes[w].ops|
      ensures Taken(net, s, Run(net, mid, steps), w, i + 1)
    {
      RunTwo(net, mid, Process(0, now, None), SetCursor(0));
      DrainOne(net, s, mid, w, i, now);
    }
    RepeatAdvances(net, s, w, |net.lanes[w].ops|, steps);
  }

  lemma {:induction false} RepeatClock(steps: seq<Event>, n: nat, now: nat)
    requires ClockAt(now, steps)
    ensures ClockAt(now, Repeat(steps, n))
  {
    if n > 0 {
      RepeatClock(steps, n - 1, now);
    }
  }

  /** A worker that finds no cursor is given the lane from its start. */
  lemma OpensAtStart(net: Network, s: State, w: nat)
    requires Paged(net) && w < |net.lanes| && net.lanes[w].ops != [] && w !in s.cursors
    ensures Taken(net, s, Apply(net, Apply(net, s, Start(0, w)), Answer(0, |net.lanes[w].ops|, false)), w, 0)
  {
    var ops := net.lanes[w].ops;
    PassedSplits(ops, 0);
    assert Value(ops[0].pagingToken) > 0;
  }

  lemma DrainReachesEnd(net: Network, s: State, w: nat, now: nat)
    requires Paged(net) && w < |net.lanes| && net.lanes[w].ops != [] && w !in s.cursors
    ensures Run(net, s, Drain(net, w, now)).cursors
         == s.cursors[w := net.lanes[w].ops[|net.lanes[w].ops| - 1].pagingToken]
  {
    var n := |net.lanes[w].ops|;
    var begun := Apply(net, Apply(net, s, Start(0, w)), Answer(0, n, false));
    OpensAtStart(net, s, w);
    RunConcat(net, s, [Start(0, w), Answer(0, n, false)], Repeat([Process(0, now, None), SetCursor(0)], n));
    RunTwo(net, s, Start(0, w), Answer(0, n, false));
    DrainAdvances(net, begun, w, now);
  }

  /** Two lanes, or one, drained to the end. */
  ghost function DrainBoth(net: Network, w: nat, v: nat, now: nat): seq<Event>
    requires w < |net.lanes| && v < |net.lanes|
  {
    Drain(net, w, now) + if v == w then [] else Drain(net, v, now)
  }

  lemma DrainBothClock(net: Network, w: nat, v: nat, now: nat)
    requires w < |net.lanes| && v < |net.lanes|
    ensures ClockAt(now, DrainBoth(net, w, v, now))
  {
    RepeatClock([Process(0, now, None), SetCursor(0)], |net.lanes[w].ops|, now);
    RepeatClock([Process(0, now, None), SetCursor(0)], |net.lanes[v].ops|, now);
  }

  /** The stored cursor of lane `u` is its last operation's token. */
  ghost predicate AtEnd(net: Network, cursors: map<nat, string>, u: nat) {
    && u < |net.lanes| && net.lanes[u].ops != []
    && u in cursors && cursors[u] == net.lanes[u].ops[|net.lanes[u].ops| - 1].pagingToken
  }

  lemma DrainedPast(net: Network, w: nat, v: nat, now: nat)
    requires Paged(net) && w < |net.lanes| && v < |net.lanes|
    requires net.lanes[w].ops != [] && net.lanes[v].ops != []
    ensures var cursors := Run(net, INITIAL, DrainBoth(net, w, v, now)).cursors;
      AtEnd(net, cursors, w) && AtEnd(net, cursors, v)
  {
    var a := Drain(net, w, now);
    var b := if v == w then [] else Drain(net, v, now);
    RunConcat(net, INITIAL, a, b);
    DrainReachesEnd(net, INITIAL, w, now);
    var first := Run(net, INITIAL, a);
    assert AtEnd(net, first.cursors, w);
    if v != w {
      DrainReachesEnd(net, first, v, now);
    }
  }

  /** Every operation of a lane whose cursor is at the end must be settled. */
  lemma EndSettles(net: Network, s: State, u: nat, i: nat)
    requires Paged(net) && Complete(net, s) && AtEnd(net, s.cursors, u) && i < |net.lanes[u].ops|
    ensures Settled(net, s.rows, u, i)
  {
    var ops := net.lanes[u].ops;
    assert Value(ops[i].pagingToken) <= Value(ops[|ops| - 1].pagingToken);
  }

  /** If two different deposits share a unique key, some run loses one of them. */
  lemma ClashLosesDeposit(net: Network, since: nat, w: nat, i: nat, v: nat, j: nat)
    requires Paged(net)
    requires w < |net.lanes| && i < |net.lanes[w].ops| && v < |net.lanes| && j < |net.lanes[v].ops|
    requires OwedAt(net, w, i).Some? && OwedAt(net, v, j).Some? && OwedAt(net, w, i) != OwedAt(net, v, j)
    requires Clash(OwedAt(net, w, i).value, OwedAt(net, v, j).value)
    ensures !Complete(net, Run(net, INITIAL, DrainBoth(net, w, v, since)))
  {
    var s := Run(net, INITIAL, DrainBoth(net, w, v, since));
    DrainedPast(net, w, v, since);
    if Complete(net, s) {
      EndSettles(net, s, w, i);
      EndSettles(net, s, v, j);
      RowsStayUnique(net, INITIAL, DrainBoth(net, w, v, since));
      UniqueExcludes(s.rows, OwedAt(net, w, i).value, OwedAt(net, v, j).value);
    }
  }

  /** A table whose rows do not clash holds one of two clashing deposits at most. */
  lemma UniqueExcludes(rows: seq<Deposit>, a: Deposit, b: Deposit)
    requires RowsUnique(rows) && HasRow(rows, a) && HasRow(rows, b) && Clash(a, b)
    ensures a == b
  {
    var r :| 0 <= r < |rows| && Unattributed(rows[r]) == a;
    var q :| 0 <= q < |rows| && Unattributed(rows[q]) == b;
    ClashIgnoresCustomer(rows[r], rows[q]);
    ClashIgnoresCustomer(rows[q], rows[r]);
  }

  /** At a fixed clock reading, only rows of ledgers it allows are written. */
  ghost predicate RowsPlausible(rows: seq<Deposit>, now: nat) {
    forall r :: 0 <= r < |rows| ==> Decode(rows[r].horizonOpId, PlausibleMaxLedger(now)).Some?
  }

  lemma StepStaysPlausible(net: Network, s: State, e: Event, now: nat)
    requires Lawful(net.rules) && RowsPlausible(s.rows, now) && (e.Process? ==> e.now == now)
    ensures RowsPlausible(Apply(net, s, e).rows, now)
  {
    if e.Process? && e.worker in s.workers && s.workers[e.worker].lane < |net.lanes| {
      var lane, phase := net.lanes[s.workers[e.worker].lane], s.workers[e.worker].phase;
      if phase.Serving? && phase.next < |lane.ops| {
        assert ObeysClock(net.rules, lane.wallet, lane.ops[phase.next], now, e.address);
        CeilingOnlyAdmits(lane.ops[phase.next].id, PlausibleMaxLedger(now), U32_MAX);
      }
    }
  }

  lemma {:induction false} RowsStayPlausible(net: Network, s: State, events: seq<Event>, now: nat)
    requires Lawful(net.rules) && RowsPlausible(s.rows, now) && ClockAt(now, events)
    ensures RowsPlausible(Run(net, s, events).rows, now)
  {
    if events != [] {
      var n := |events| - 1;
      RowsStayPlausible(net, s, events[..n], now);
      StepStaysPlausible(net, Run(net, s, events[..n]), events[n], now);
    }
  }

  /** If the clock still rules out an operation's ledger, some run skips its deposit for good. */
  lemma LateClockLosesDeposit(net: Network, since: nat, w: nat, i: nat)
    requires Lawful(net.rules) && Paged(net) && w < |net.lanes| && i < |net.lanes[w].ops| && OwedAt(net, w, i).Some?
    requires ToidOf(net.lanes[w].ops[i], U32_MAX).Some?
    requires ToidOf(net.lanes[w].ops[i], U32_MAX).value.ledger > PlausibleMaxLedger(since)
    ensures !Complete(net, Run(net, INITIAL, DrainBoth(net, w, w, since)))
  {
    var s := Run(net, INITIAL, DrainBoth(net, w, w, since));
    DrainedPast(net, w, w, since);
    if Complete(net, s) {
      EndSettles(net, s, w, i);
      var r :| 0 <= r < |s.rows| && Unattributed(s.rows[r]) == OwedAt(net, w, i).value;
      DrainBothClock(net, w, w, since);
      RowsStayPlausible(net, INITIAL, DrainBoth(net, w, w, since), since);
      assert ObeysClock(net.rules, net.lanes[w].wallet, net.lanes[w].ops[i], since, None);
      CeilingOnlyAdmits(net.lanes[w].ops[i].id, PlausibleMaxLedger(since), U32_MAX);
    }
  }

  /**
   * Every run whose clocks read at least `since` credits all it should exactly when owed deposits
   * never share a unique key and all lie in ledgers plausible at `since`. With `since` zero this is
   * every run at all: the ledgers must then not exceed the fixed ceiling.
   */
  lemma CompleteIff(net: Network, since: nat)
    requires Lawful(net.rules) && Paged(net)
    ensures (forall events :: ClocksFrom(since, events) ==> Complete(net, Run(net, INITIAL, events)))
       <==> KeysSeparate(net) && LedgersPlausible(net, since)
  {
    if KeysSeparate(net) && LedgersPlausible(net, since) {
      forall events | ClocksFrom(since, events) ensures Complete(net, Run(net, INITIAL, events)) {
        EveryRunIsComplete(net, events, since);
      }
    }
    if !KeysSeparate(net) {
      var w: nat, i: nat, v: nat, j: nat :|
        w < |net.lanes| && i < |net.lanes[w].ops| && v < |net.lanes| && j < |net.lanes[v].ops|
        && OwedAt(net, w, i).Some? && OwedAt(net, v, j).Some? && OwedAt(net, w, i) != OwedAt(net, v, j)
        && Clash(OwedAt(net, w, i).value, OwedAt(net, v, j).value);
      DrainBothClock(net, w, v, since);
      ClashLosesDeposit(net, since, w, i, v, j);
      assert ClocksFrom(since, DrainBoth(net, w, v, since));
    } else if !LedgersPlausible(net, since) {
      var w: nat, i: nat :|
        w < |net.lanes| && i < |net.lanes[w].ops| && OwedAt(net, w, i).Some?
        && !(LedgerIn(net.lanes[w].ops[i]) <= PlausibleMaxLedger(since));
      assert ObeysClock(net.rules, net.lanes[w].wallet, net.lanes[w].ops[i], since, None);
      DrainBothClock(net, w, w, since);
      LateClockLosesDeposit(net, since, w, i);
      assert ClocksFrom(since, DrainBoth(net, w, w, since));
    }
  }

  // --- why the keys separate operations on the real network ---------------------------------------------

  /** Operation ids name operations, hashes name transactions, and accounts name wallets. */
  ghost predicate Faithful(net: Network) {
    && (forall w, v :: 0 <= w < v < |net.lanes| ==> net.lanes[w].wallet.account != net.lanes[v].wallet.account)
    && (forall w: nat, i: nat, v: nat, j: nat ::
          w < |net.lanes| && i < |net.lanes[w].ops| && v < |net.lanes| && j < |net.lanes[v].ops|
          && OwedAt(net, w, i).Some? && OwedAt(net, v, j).Some?
          ==> SameIdSameRecord(net.lanes[w].ops[i], net.lanes[v].ops[j])
              && SameHashSameTransaction(net.lanes[w].ops[i], net.lanes[v].ops[j]))
  }

  ghost predicate SameIdSameRecord(a: PaymentRecord, b: PaymentRecord) {
    AllDigits(a.id) && AllDigits(b.id) && Value(a.id) == Value(b.id) ==> a.id == b.id && CoreOf(a) == CoreOf(b)
  }

  /** The record, as one account's page or another's may word it: the token aside, all the same. */
  function CoreOf(rec: PaymentRecord): PaymentRecord {
    rec.(pagingToken := "")
  }

  ghost predicate SameHashSameTransaction(a: PaymentRecord, b: PaymentRecord) {
    var s, t := Decode(a.id, U32_MAX), Decode(b.id, U32_MAX);
    (s.Some? && t.Some? && HashOf(a) == HashOf(b))
    ==> s.value.ledger == t.value.ledger && s.value.txOrder == t.value.txOrder
  }

  lemma TokenIsNotRead(chain: Chain, wallet: Wallet, a: PaymentRecord, b: PaymentRecord)
    requires CoreOf(a) == CoreOf(b)
    ensures Owed(chain, wallet, a) == Owed(chain, wallet, b)
  {
    assert b == a.(pagingToken := b.pagingToken);
    assert CreditFor(chain, wallet.account, a) == CreditFor(chain, wallet.account, b);
    assert ToidOf(a, U32_MAX) == ToidOf(b, U32_MAX);
  }

  /** Two rows that share a unique key are rows of one operation. */
  lemma ClashIsSameRecord(chain: Chain, x: Wallet, a: PaymentRecord, y: Wallet, b: PaymentRecord)
    requires Owed(chain, x, a).Some? && Owed(chain, y, b).Some?
    requires Clash(Owed(chain, x, a).value, Owed(chain, y, b).value)
    requires SameIdSameRecord(a, b) && SameHashSameTransaction(a, b)
    ensures CoreOf(a) == CoreOf(b)
  {
    OwedRow(chain, x, a);
    OwedRow(chain, y, b);
    OrderIsLexicographic(a.id, b.id, U32_MAX);
  }

  /** TOID decoding makes the pair of transaction hash and operation index a key for operations. */
  lemma FaithfulKeysSeparate(net: Network, chain: Chain)
    requires net.rules == RulesOf(chain) && Faithful(net)
    ensures KeysSeparate(net)
  {
    forall w: nat, i: nat, v: nat, j: nat |
      w < |net.lanes| && i < |net.lanes[w].ops| && v < |net.lanes| && j < |net.lanes[v].ops|
      && OwedAt(net, w, i).Some? && OwedAt(net, v, j).Some?
      && Clash(OwedAt(net, w, i).value, OwedAt(net, v, j).value)
      ensures OwedAt(net, w, i) == OwedAt(net, v, j)
    {
      var a, b := net.lanes[w].ops[i], net.lanes[v].ops[j];
      assert SameIdSameRecord(a, b) && SameHashSameTransaction(a, b);
      ClashIsSameRecord(chain, net.lanes[w].wallet, a, net.lanes[v].wallet, b);
      TokenIsNotRead(chain, net.lanes[v].wallet, a, b);
      OneDestination(chain, net.lanes[w].wallet, net.lanes[v].wallet, a);
    }
  }

  /** On the real network, with the real rules, nothing below a cursor is lost or credited twice. */
  lemma IngestionCreditsOnce(net: Network, chain: Chain, events: seq<Event>, since: nat, w: nat, i: nat)
    requires net.rules == RulesOf(chain) && Paged(net) && Faithful(net)
    requires LedgersPlausible(net, since) && ClocksFrom(since, events)
    requires w < |net.lanes| && i < |net.lanes[w].ops|
    requires Owed(chain, net.lanes[w].wallet, net.lanes[w].ops[i]).Some?
    requires var s := Run(net, INITIAL, events);
      w in s.cursors && Value(net.lanes[w].ops[i].pagingToken) <= Place(Some(s.cursors[w]))
    ensures CreditedOnce(Run(net, INITIAL, events).rows, Owed(chain, net.lanes[w].wallet, net.lanes[w].ops[i]).value)
  {
    RulesAreLawful(chain);
    FaithfulKeysSeparate(net, chain);
    EveryRunCreditsOnce(net, events, since, w, i);
  }

  /** Horizon leaving out transaction hashes is enough to lose a deposit. */
  lemma MissingHashesClash(net: Network, chain: Chain, w: nat, i: nat, j: nat)
    requires net.rules == RulesOf(chain) && w < |net.lanes| && i < |net.lanes[w].ops| && j < |net.lanes[w].ops|
    requires OwedAt(net, w, i).Some? && OwedAt(net, w, j).Some?
    requires net.lanes[w].ops[i].transactionHash.None? && net.lanes[w].ops[j].transactionHash.None?
    requires net.lanes[w].ops[i].id != net.lanes[w].ops[j].id
    requires OwedAt(net, w, i).value.operationIndex == OwedAt(net, w, j).value.operationIndex
    ensures !KeysSeparate(net)
  {
    OwedRow(chain, net.lanes[w].wallet, net.lanes[w].ops[i]);
    OwedRow(chain, net.lanes[w].wallet, net.lanes[w].ops[j]);
    assert Clash(OwedAt(net, w, i).value, OwedAt(net, w, j).value);
  }
}
