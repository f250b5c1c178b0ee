/**
 * Deposit ingestion as a protocol: any number of pollers, stream sessions, deposed leaders and their
 * successors share one cursor per wallet and one deposits table, and any of them may die at any point.
 */
module IngestProtocol {
  import opened Wrappers
  import opened Bytes
  import opened Digits
  import opened Toid
  import opened Deposits

  /** A wallet and every operation its account will ever take part in, oldest first. */
  datatype Lane = Lane(wallet: Wallet, ops: seq<PaymentRecord>)
  datatype Network = Network(rules: Rules, lanes: seq<Lane>)

  /** Horizon's paging contract: tokens are positive numbers and ascend. */
  ghost predicate Ordered(ops: seq<PaymentRecord>) {
    && (forall i :: 0 <= i < |ops| ==> AllDigits(ops[i].pagingToken) && Value(ops[i].pagingToken) > 0)
    && (forall i, j :: 0 <= i < j < |ops| ==> Value(ops[i].pagingToken) < Value(ops[j].pagingToken))
  }

  ghost predicate Paged(net: Network) {
    forall w :: 0 <= w < |net.lanes| ==> Ordered(net.lanes[w].ops)
  }

  /** Where a cursor stands; no cursor yet reads from the start. */
  function Place(cursor: Option<string>): nat {
    if cursor.Some? && AllDigits(cursor.value) then Value(cursor.value) else 0
  }

  /** How many operations lie at or below a cursor. */
  function Passed(ops: seq<PaymentRecord>, place: nat): nat {
    if ops == [] then 0
    else if AllDigits(ops[|ops| - 1].pagingToken) && Value(ops[|ops| - 1].pagingToken) <= place then |ops|
    else Passed(ops[..|ops| - 1], place)
  }

  lemma {:induction false} PassedSplits(ops: seq<PaymentRecord>, place: nat)
    requires Ordered(ops)
    ensures Passed(ops, place) <= |ops|
    ensures forall i :: 0 <= i < |ops| ==> (i < Passed(ops, place) <==> Value(ops[i].pagingToken) <= place)
  {
    if ops != [] && Value(ops[|ops| - 1].pagingToken) > place {
      PassedSplits(ops[..|ops| - 1], place);
    }
  }

  /** A cursor at an operation's own token has passed that operation and no later one. */
  lemma PassedToken(ops: seq<PaymentRecord>, i: nat)
    requires Ordered(ops) && i < |ops|
    ensures Passed(ops, Value(ops[i].pagingToken)) == i + 1
  {
    var place := Value(ops[i].pagingToken);
    PassedSplits(ops, place);
    assert i < Passed(ops, place);
    if i + 1 < |ops| {
      assert Value(ops[i + 1].pagingToken) > place;
    }
  }

  // --- state ------------------------------------------------------------------------------------

  /** What a worker holds between its awaits; `live` marks a stream session. */
  datatype Phase =
    | Read(cursor: Option<string>)
    | Serving(next: nat, upTo: nat, live: bool)
    | Recorded(next: nat, upTo: nat, live: bool)

  datatype Worker = Worker(lane: nat, phase: Phase)
  datatype State = State(cursors: map<nat, string>, rows: seq<Deposit>, workers: map<nat, Worker>)

  const INITIAL := State(map[], [], map[])

  datatype Event =
    /** A poll or a stream session begins by reading the stored cursor. */
    | Start(worker: nat, lane: nat)
    /** Horizon answers with up to `count` operations after that cursor. */
    | Answer(worker: nat, count: nat, live: bool)
    /** An open stream delivers one more operation. */
    | Deliver(worker: nat)
    /** The next operation is processed, reading the clock and the address table. */
    | Process(worker: nat, now: nat, address: Option<Uuid>)
    /** The cursor is moved past the operation just processed, whatever it holds by now. */
    | SetCursor(worker: nat)
    /** The worker ends: done, failed, cancelled or crashed. */
    | Stop(worker: nat)

  // --- the deposits table -------------------------------------------------------------------------

  /** Both unique indexes of the table. */
  predicate Clash(a: Deposit, b: Deposit) {
    (a.txHash == b.txHash && a.operationIndex == b.operationIndex) || a.horizonOpId == b.horizonOpId
  }

  /** `record_deposit`: a unique violation is a benign no-op. */
  function RecordDeposit(rows: seq<Deposit>, d: Deposit): seq<Deposit> {
    if exists i :: 0 <= i < |rows| && Clash(rows[i], d) then rows else rows + [d]
  }

  /** The table once a record has been processed. */
  function RowsAfter(rules: Rules, wallet: Wallet, rec: PaymentRecord, rows: seq<Deposit>, now: nat,
                     address: Option<Uuid>)
    : seq<Deposit>
  {
    match rules.process(wallet, rec, PlausibleMaxLedger(now), address)
    case Some(row) => RecordDeposit(rows, row)
    case None => rows
  }

  // --- steps --------------------------------------------------------------------------------------

  function StoredCursor(s: State, lane: nat): Option<string> {
    if lane in s.cursors then Some(s.cursors[lane]) else None
  }

  function Move(s: State, k: nat, phase: Phase): State
    requires k in s.workers
  {
    s.(workers := s.workers[k := s.workers[k].(phase := phase)])
  }

  /** One step; an event its worker cannot take changes nothing. */
  function Apply(net: Network, s: State, e: Event): State {
    match e
    case Start(k, lane) =>
      if lane >= |net.lanes| then s
      else s.(workers := s.workers[k := Worker(lane, Read(StoredCursor(s, lane)))])
    case Stop(k) =>
      s.(workers := s.workers - {k})
    case _ =>
      if e.worker !in s.workers || s.workers[e.worker].lane >= |net.lanes| then s
      else ApplyWorker(net, s, e, net.lanes[s.workers[e.worker].lane], s.workers[e.worker].phase)
  }

  function ApplyWorker(net: Network, s: State, e: Event, lane: Lane, phase: Phase): State
    requires e.worker in s.workers
  {
    var k := e.worker;
    match (e, phase)
    case (Answer(_, count, live), Read(cursor)) =>
      var from := Passed(lane.ops, Place(cursor));
      Move(s, k, Serving(from, Min(from + count, |lane.ops|), live))
    case (Deliver(_), Serving(next, upTo, live)) =>
      if live && upTo < |lane.ops| then Move(s, k, Serving(next, upTo + 1, live)) else s
    case (Process(_, now, address), Serving(next, upTo, live)) =>
      if next >= upTo || next >= |lane.ops| then s
      else
        Move(s, k, Recorded(next, upTo, live))
          .(rows := RowsAfter(net.rules, lane.wallet, lane.ops[next], s.rows, now, address))
    case (SetCursor(_), Recorded(next, upTo, live)) =>
      if next >= |lane.ops| then s
      else
        Move(s, k, Serving(next + 1, upTo, live))
          .(cursors := s.cursors[s.workers[k].lane := lane.ops[next].pagingToken])
    case _ => s
  }

  function Run(net: Network, s: State, events: seq<Event>): State {
    if events == [] then s else Apply(net, Run(net, s, events[..|events| - 1]), events[|events| - 1])
  }

  /** Horizon serves the operations after the cursor, up to `count` of them; a stream then gets one more at a time. */
  lemma AnswerServes(net: Network, s: State, e: Event)
    requires e.worker in s.workers && s.workers[e.worker].lane < |net.lanes|
    ensures var (t, was, ops) := (Apply(net, s, e), s.workers[e.worker], net.lanes[s.workers[e.worker].lane].ops);
      && (e.Answer? && was.phase.Read? && Ordered(ops) ==>
            && e.worker in t.workers && t.workers[e.worker].lane == was.lane
            && var p := t.workers[e.worker].phase;
            && p.Serving? && p.live == e.live && p.next <= p.upTo <= |ops| && p.upTo <= p.next + e.count
            && (p.upTo < p.next + e.count ==> p.upTo == |ops|)
            && (forall i :: 0 <= i < |ops| ==> (i < p.next <==> Value(ops[i].pagingToken) <= Place(was.phase.cursor))))
      && (e.Deliver? && was.phase.Serving? && was.phase.live && was.phase.upTo < |ops| ==>
            && e.worker in t.workers
            && t.workers[e.worker] == Worker(was.lane, Serving(was.phase.next, was.phase.upTo + 1, true)))
  {
    var ops := net.lanes[s.workers[e.worker].lane].ops;
    if e.Answer? && s.workers[e.worker].phase.Read? && Ordered(ops) {
      PassedSplits(ops, Place(s.workers[e.worker].phase.cursor));
    }
  }

  /** Starting reads the stored cursor; stopping, at any point, forgets the worker and nothing else. */
  lemma StartAndStop(net: Network, s: State, e: Event)
    requires e.Start? || e.Stop?
    ensures var t := Apply(net, s, e);
      && t.rows == s.rows && t.cursors == s.cursors
      && (e.Stop? ==> t.workers == s.workers - {e.worker})
      && (e.Start? && e.lane < |net.lanes| ==>
            t.workers == s.workers[e.worker := Worker(e.lane, Read(
              if e.lane in s.cursors then Some(s.cursors[e.lane]) else None))])
  {
  }

  // --- what is promised ---------------------------------------------------------------------------

  function OwedAt(net: Network, w: nat, i: nat): Option<Deposit>
    requires w < |net.lanes| && i < |net.lanes[w].ops|
  {
    net.rules.Owed(net.lanes[w].wallet, net.lanes[w].ops[i])
  }

  predicate HasRow(rows: seq<Deposit>, owed: Deposit) {
    exists r :: 0 <= r < |rows| && Unattributed(rows[r]) == owed
  }

  predicate Settled(net: Network, rows: seq<Deposit>, w: nat, i: nat)
    requires w < |net.lanes| && i < |net.lanes[w].ops|
  {
    OwedAt(net, w, i).Some? ==> HasRow(rows, OwedAt(net, w, i).value)
  }

  /** Every operation at or below a stored cursor that owes a deposit has its row. */
  ghost predicate Complete(net: Network, s: State) {
    forall w, i :: w in s.cursors && w < |net.lanes| && 0 <= i < |net.lanes[w].ops|
      && AllDigits(net.lanes[w].ops[i].pagingToken)
      && Value(net.lanes[w].ops[i].pagingToken) <= Place(Some(s.cursors[w]))
      ==> Settled(net, s.rows, w, i)
  }

  /** No two deposits owed share a unique key. */
  ghost predicate KeysSeparate(net: Network) {
    forall w: nat, i: nat, v: nat, j: nat ::
      w < |net.lanes| && i < |net.lanes[w].ops| && v < |net.lanes| && j < |net.lanes[v].ops|
      && OwedAt(net, w, i).Some? && OwedAt(net, v, j).Some?
      && Clash(OwedAt(net, w, i).value, OwedAt(net, v, j).value)
      ==> OwedAt(net, w, i) == OwedAt(net, v, j)
  }

  /** The ledger a record's operation id names. */
  function LedgerIn(rec: PaymentRecord): nat {
    var toid := ToidOf(rec, U32_MAX);
    if toid.Some? then toid.value.ledger else 0
  }

  /** Every operation that owes a deposit lies in a ledger the clock already allows at time `since`. */
  ghost predicate LedgersPlausible(net: Network, since: nat) {
    forall w: nat, i: nat ::
      w < |net.lanes| && i < |net.lanes[w].ops| && OwedAt(net, w, i).Some?
      ==> LedgerIn(net.lanes[w].ops[i]) <= PlausibleMaxLedger(since)
  }

  /** No worker's clock ever reads earlier than `since`. */
  ghost predicate ClocksFrom(since: nat, events: seq<Event>) {
    forall n :: 0 <= n < |events| && events[n].Process? ==> events[n].now >= since
  }
}
