/** Every interleaving credits every operation below the cursor exactly once. */
module IngestSafety {
  import opened Wrappers
  import opened Bytes
  import opened Digits
  import opened Toid
  import opened Deposits
  import opened IngestProtocol

  // --- the invariant ------------------------------------------------------------------------------

  /** The first `n` operations of a lane have what they are owed. */
  ghost predicate SettledUpTo(net: Network, rows: seq<Deposit>, w: nat, n: nat) {
    w < |net.lanes| && n <= |net.lanes[w].ops| && forall i: nat :: i < n ==> Settled(net, rows, w, i)
  }

  ghost predicate CursorSound(net: Network, rows: seq<Deposit>, w: nat, cursor: Option<string>) {
    w < |net.lanes| && SettledUpTo(net, rows, w, Passed(net.lanes[w].ops, Place(cursor)))
  }

  ghost predicate WorkerSound(net: Network, rows: seq<Deposit>, worker: Worker) {
    match worker.phase
    case Read(cursor) => CursorSound(net, rows, worker.lane, cursor)
    case Serving(next, upTo, _) =>
      next <= upTo && SettledUpTo(net, rows, worker.lane, next) && upTo <= |net.lanes[worker.lane].ops|
    case Recorded(next, upTo, _) =>
      next < upTo && SettledUpTo(net, rows, worker.lane, next + 1) && upTo <= |net.lanes[worker.lane].ops|
  }

  ghost predicate RowsUnique(rows: seq<Deposit>) {
    forall r, q :: 0 <= r < q < |rows| ==> !Clash(rows[r], rows[q])
  }

  ghost predicate IsOwed(net: Network, d: Deposit) {
    exists w: nat, i: nat :: w < |net.lanes| && i < |net.lanes[w].ops| && OwedAt(net, w, i) == Some(Unattributed(d))
  }

  ghost predicate Sound(net: Network, s: State) {
    && RowsUnique(s.rows)
    && (forall r :: 0 <= r < |s.rows| ==> IsOwed(net, s.rows[r]))
    && (forall w :: w in s.cursors ==> CursorSound(net, s.rows, w, Some(s.cursors[w])))
    && (forall k :: k in s.workers ==> WorkerSound(net, s.rows, s.workers[k]))
  }

  /** Rows are only ever added. */
  lemma SettledStays(net: Network, rows: seq<Deposit>, more: seq<Deposit>, w: nat, n: nat)
    requires SettledUpTo(net, rows, w, n) && rows <= more
    ensures SettledUpTo(net, more, w, n)
  {
    forall i: nat | i < n ensures Settled(net, more, w, i) {
      assert Settled(net, rows, w, i);
      if OwedAt(net, w, i).Some? {
        var r :| 0 <= r < |rows| && Unattributed(rows[r]) == OwedAt(net, w, i).value;
        assert more[r] == rows[r];
      }
    }
  }

  lemma MoreRowsStaySound(net: Network, s: State, more: seq<Deposit>)
    requires Sound(net, s) && s.rows <= more
    ensures forall w :: w in s.cursors ==> CursorSound(net, more, w, Some(s.cursors[w]))
    ensures forall k :: k in s.workers ==> WorkerSound(net, more, s.workers[k])
  {
    forall w | w in s.cursors ensures CursorSound(net, more, w, Some(s.cursors[w])) {
      assert CursorSound(net, s.rows, w, Some(s.cursors[w]));
      SettledStays(net, s.rows, more, w, Passed(net.lanes[w].ops, Place(Some(s.cursors[w]))));
    }
    forall k | k in s.workers ensures WorkerSound(net, more, s.workers[k]) {
      var worker := s.workers[k];
      assert WorkerSound(net, s.rows, worker);
      match worker.phase
      case Read(cursor) =>
        SettledStays(net, s.rows, more, worker.lane, Passed(net.lanes[worker.lane].ops, Place(cursor)));
      case Serving(next, _, _) => SettledStays(net, s.rows, more, worker.lane, next);
      case Recorded(next, _, _) => SettledStays(net, s.rows, more, worker.lane, next + 1);
    }
  }

  // --- recording ----------------------------------------------------------------------------------

  lemma ClashIgnoresCustomer(a: Deposit, b: Deposit)
    ensures Clash(a, b) <==> Clash(Unattributed(a), Unattributed(b))
  {
  }

  /** Whether it inserts or finds a duplicate, recording an owed deposit leaves it recorded. */
  lemma RecordSettles(net: Network, rows: seq<Deposit>, d: Deposit, w: nat, i: nat)
    requires KeysSeparate(net) && RowsUnique(rows)
    requires forall r :: 0 <= r < |rows| ==> IsOwed(net, rows[r])
    requires w < |net.lanes| && i < |net.lanes[w].ops| && OwedAt(net, w, i) == Some(Unattributed(d))
    ensures var after := RecordDeposit(rows, d);
      && rows <= after && RowsUnique(after)
      && (forall r :: 0 <= r < |after| ==> IsOwed(net, after[r]))
      && HasRow(after, Unattributed(d))
  {
    var after := RecordDeposit(rows, d);
    if r :| 0 <= r < |rows| && Clash(rows[r], d) {
      ClashIgnoresCustomer(rows[r], d);
      assert IsOwed(net, rows[r]);
      assert Unattributed(rows[r]) == Unattributed(d);
    } else {
      assert after[|rows|] == d;
      assert IsOwed(net, d);
    }
  }

  lemma ProcessSettles(net: Network, rows: seq<Deposit>, w: nat, i: nat, since: nat, now: nat, address: Option<Uuid>)
    requires Lawful(net.rules) && KeysSeparate(net) && LedgersPlausible(net, since) && now >= since && RowsUnique(rows)
    requires forall r :: 0 <= r < |rows| ==> IsOwed(net, rows[r])
    requires w < |net.lanes| && i < |net.lanes[w].ops|
    ensures var after := RowsAfter(net.rules, net.lanes[w].wallet, net.lanes[w].ops[i], rows, now, address);
      && rows <= after && RowsUnique(after)
      && (forall r :: 0 <= r < |after| ==> IsOwed(net, after[r]))
      && Settled(net, after, w, i)
  {
    assert ObeysClock(net.rules, net.lanes[w].wallet, net.lanes[w].ops[i], now, address);
    var row := net.rules.process(net.lanes[w].wallet, net.lanes[w].ops[i], PlausibleMaxLedger(now), address);
    if row.Some? {
      RecordSettles(net, rows, row.value, w, i);
    }
  }

  // --- every step keeps it --------------------------------------------------------------------------

  lemma ProcessKeepsSound(net: Network, s: State, e: Event, since: nat)
    requires Lawful(net.rules) && KeysSeparate(net) && LedgersPlausible(net, since) && Sound(net, s)
    requires e.Process? && e.now >= since && e.worker in s.workers && s.workers[e.worker].phase.Serving?
    ensures Sound(net, Apply(net, s, e))
  {
    var worker := s.workers[e.worker];
    assert WorkerSound(net, s.rows, worker);
    if worker.phase.next < worker.phase.upTo {
      ProcessSettles(net, s.rows, worker.lane, worker.phase.next, since, e.now, e.address);
      RecordedSound(net, s, e.worker, worker.phase, Apply(net, s, e).rows);
    }
  }

  /** A worker whose operation has just been settled moves on. */
  lemma RecordedSound(net: Network, s: State, k: nat, phase: Phase, rows: seq<Deposit>)
    requires Sound(net, s) && k in s.workers && s.workers[k].phase == phase && WorkerSound(net, s.rows, s.workers[k])
    requires phase.Serving? && phase.next < phase.upTo
    requires s.rows <= rows && RowsUnique(rows) && forall r :: 0 <= r < |rows| ==> IsOwed(net, rows[r])
    requires Settled(net, rows, s.workers[k].lane, phase.next)
    ensures Sound(net, Move(s, k, Recorded(phase.next, phase.upTo, phase.live)).(rows := rows))
  {
    SettledStays(net, s.rows, rows, s.workers[k].lane, phase.next);
    assert SettledUpTo(net, rows, s.workers[k].lane, phase.next + 1);
    MovedSound(net, s, k, Recorded(phase.next, phase.upTo, phase.live), rows);
  }

  /** One worker moves on while rows are added. */
  lemma MovedSound(net: Network, s: State, k: nat, phase: Phase, rows: seq<Deposit>)
    requires Sound(net, s) && k in s.workers && s.rows <= rows && RowsUnique(rows)
    requires forall r :: 0 <= r < |rows| ==> IsOwed(net, rows[r])
    requires WorkerSound(net, rows, s.workers[k].(phase := phase))
    ensures Sound(net, Move(s, k, phase).(rows := rows))
  {
    MoreRowsStaySound(net, s, rows);
  }

  lemma SetCursorKeepsSound(net: Network, s: State, e: Event)
    requires Paged(net) && Sound(net, s)
    requires e.SetCursor? && e.worker in s.workers && s.workers[e.worker].phase.Recorded?
    ensures Sound(net, Apply(net, s, e))
  {
    var worker := s.workers[e.worker];
    var w, next := worker.lane, worker.phase.next;
    assert WorkerSound(net, s.rows, worker);
    var ops := net.lanes[w].ops;
    PassedToken(ops, next);
    CursorMovedSound(net, s, e.worker, Serving(next + 1, worker.phase.upTo, worker.phase.live), ops[next].pagingToken);
  }

  /** One worker moves on and its lane's cursor with it. */
  lemma CursorMovedSound(net: Network, s: State, k: nat, phase: Phase, token: string)
    requires Sound(net, s) && k in s.workers && WorkerSound(net, s.rows, s.workers[k].(phase := phase))
    requires CursorSound(net, s.rows, s.workers[k].lane, Some(token))
    ensures Sound(net, Move(s, k, phase).(cursors := s.cursors[s.workers[k].lane := token]))
  {
  }

  lemma AnswerKeepsSound(net: Network, s: State, e: Event)
    requires Paged(net) && Sound(net, s)
    requires e.Answer? && e.worker in s.workers && s.workers[e.worker].phase.Read?
    ensures Sound(net, Apply(net, s, e))
  {
    var worker := s.workers[e.worker];
    assert WorkerSound(net, s.rows, worker);
    PassedSplits(net.lanes[worker.lane].ops, Place(worker.phase.cursor));
  }

  lemma StepKeepsSound(net: Network, s: State, e: Event, since: nat)
    requires Lawful(net.rules) && Paged(net) && KeysSeparate(net) && LedgersPlausible(net, since) && Sound(net, s)
    requires e.Process? ==> e.now >= since
    ensures Sound(net, Apply(net, s, e))
  {
    match e
    case Start(k, lane) =>
      if lane < |net.lanes| {
        StartKeepsSound(net, s, k, lane);
      }
    case Stop(k) =>
    case Answer(k, _, _) =>
      if k in s.workers && s.workers[k].phase.Read? {
        AnswerKeepsSound(net, s, e);
      }
    case Deliver(k) =>
      if k in s.workers {
        assert WorkerSound(net, s.rows, s.workers[k]);
      }
    case Process(k, _, _) =>
      if k in s.workers && s.workers[k].phase.Serving? {
        ProcessKeepsSound(net, s, e, since);
      }
    case SetCursor(k) =>
      if k in s.workers && s.workers[k].phase.Recorded? {
        SetCursorKeepsSound(net, s, e);
      }
  }

  lemma StartKeepsSound(net: Network, s: State, k: nat, lane: nat)
    requires Paged(net) && Sound(net, s) && lane < |net.lanes|
    ensures Sound(net, Apply(net, s, Start(k, lane)))
  {
    if lane !in s.cursors {
      PassedSplits(net.lanes[lane].ops, 0);
      assert Passed(net.lanes[lane].ops, 0) == 0 by {
        if net.lanes[lane].ops != [] {
          assert Value(net.lanes[lane].ops[0].pagingToken) > 0;
        }
      }
    }
    assert CursorSound(net, s.rows, lane, StoredCursor(s, lane));
  }

  lemma {:induction false} RunKeepsSound(net: Network, s: State, events: seq<Event>, since: nat)
    requires Lawful(net.rules) && Paged(net) && KeysSeparate(net) && LedgersPlausible(net, since) && Sound(net, s)
    requires ClocksFrom(since, events)
    ensures Sound(net, Run(net, s, events))
  {
    if events != [] {
      var n := |events| - 1;
      RunKeepsSound(net, s, events[..n], since);
      StepKeepsSound(net, Run(net, s, events[..n]), events[n], since);
    }
  }
}
