/**
 * The pollers and stream sessions as they run. At every await the rest of the service may take any
 * steps at all; each call leaves behind a trace showing that it is a run of the protocol.
 */
module IngestWorkers {
  import opened Wrappers
  import opened Bytes
  import opened Toid
  import opened Deposits
  import opened IngestProtocol
  import opened IngestSafety
  import opened IngestTheorems

  datatype IngestError = StoreFailed | HorizonFailed

  /** What happens at one await: steps of other workers, what is read, and how the call fares. */
  datatype Turn = Turn(others: seq<Event>, fault: Fault, now: nat, address: Option<Uuid>, served: nat)

  /** Steps of other workers, whose clocks read at least `since`. */
  ghost predicate Others(events: seq<Event>, k: nat, since: nat) {
    ClocksFrom(since, events) && forall n :: 0 <= n < |events| ==> events[n].worker != k
  }

  ghost predicate Fair(turn: Turn, k: nat, since: nat) {
    Others(turn.others, k, since) && turn.now >= since
  }

  ghost predicate Environment(env: nat -> Turn, k: nat, since: nat) {
    forall n :: Fair(env(n), k, since)
  }

  /** The steps of worker `k` alone. */
  ghost function Own(events: seq<Event>, k: nat): seq<Event> {
    if events == [] then []
    else
      var n := |events| - 1;
      Own(events[..n], k) + if events[n].worker == k then [events[n]] else []
  }

  lemma {:induction false} OwnConcat(a: seq<Event>, b: seq<Event>, k: nat)
    ensures Own(a + b, k) == Own(a, k) + Own(b, k)
  {
    if b == [] {
      assert a + b == a;
    } else {
      var n := |b| - 1;
      assert (a + b)[..|a + b| - 1] == a + b[..n];
      OwnConcat(a, b[..n], k);
    }
  }

  lemma {:induction false} ForeignSteps(net: Network, s: State, events: seq<Event>, k: nat, since: nat)
    requires Others(events, k, since)
    ensures Own(events, k) == []
    ensures var after := Run(net, s, events);
      (k in after.workers <==> k in s.workers) && (k in s.workers ==> after.workers[k] == s.workers[k])
  {
    if events != [] {
      ForeignSteps(net, s, events[..|events| - 1], k, since);
    }
  }

  /** A trace that takes `s` to `after`, of which worker `k` took exactly the steps `own`. */
  ghost predicate Traces(net: Network, s: State, trace: seq<Event>, after: State, k: nat, own: seq<Event>, since: nat) {
    Run(net, s, trace) == after && Own(trace, k) == own && ClocksFrom(since, trace)
  }

  /** Others take their steps and then worker `k` takes one. */
  lemma OneTurn(net: Network, s: State, trace: seq<Event>, mid: State, own: seq<Event>, others: seq<Event>, e: Event,
                since: nat)
    requires Traces(net, s, trace, mid, e.worker, own, since) && Others(others, e.worker, since)
    requires e.Process? ==> e.now >= since
    ensures Traces(net, s, trace + others + [e], Apply(net, Run(net, mid, others), e), e.worker, own + [e], since)
  {
    RunConcat(net, s, trace, others);
    RunConcat(net, s, trace + others, [e]);
    ForeignSteps(net, mid, others, e.worker, since);
    OwnConcat(trace, others, e.worker);
    OwnConcat(trace + others, [e], e.worker);
    assert [e][..0] == [];
    assert Own([e], e.worker) == [e];
    assert Run(net, Run(net, mid, others), [e]) == Apply(net, Run(net, mid, others), e);
  }

  /** The steps of a worker that has processed and passed `n` operations. */
  ghost function Rounds(k: nat, w: nat, opening: Event, turns: seq<(nat, Option<Uuid>)>): seq<Event> {
    if turns == [] then [Start(k, w), opening]
    else
      var n := |turns| - 1;
      Rounds(k, w, opening, turns[..n]) + [Process(k, turns[n].0, turns[n].1), SetCursor(k)]
  }

  lemma RoundsGrow(k: nat, w: nat, opening: Event, turns: seq<(nat, Option<Uuid>)>, turn: (nat, Option<Uuid>))
    ensures Rounds(k, w, opening, turns + [turn])
         == Rounds(k, w, opening, turns) + [Process(k, turn.0, turn.1), SetCursor(k)]
  {
    assert (turns + [turn])[..|turns|] == turns;
  }

  /** The steps of a stream that has taken, processed and passed one operation per turn. */
  ghost function StreamRounds(k: nat, w: nat, turns: seq<(nat, Option<Uuid>)>): seq<Event> {
    if turns == [] then [Start(k, w), Answer(k, 0, true)]
    else
      var n := |turns| - 1;
      StreamRounds(k, w, turns[..n]) + [Deliver(k), Process(k, turns[n].0, turns[n].1), SetCursor(k)]
  }

  lemma StreamRoundsGrow(k: nat, w: nat, turns: seq<(nat, Option<Uuid>)>, turn: (nat, Option<Uuid>))
    ensures StreamRounds(k, w, turns + [turn])
         == StreamRounds(k, w, turns) + [Deliver(k)] + [Process(k, turn.0, turn.1), SetCursor(k)]
  {
    assert (turns + [turn])[..|turns|] == turns;
  }

  /** How many operations an answer of at most `count` holds, from a cursor on. */
  function Served(ops: seq<PaymentRecord>, cursor: Option<string>, count: nat): int {
    var from := Passed(ops, Place(cursor));
    Min(from + count, |ops|) - from
  }

  class Service {
    var cursors: map<nat, string>
    var rows: seq<Deposit>
    var workers: map<nat, Worker>

    constructor ()
      ensures Value() == INITIAL
    {
      cursors, rows, workers := map[], [], map[];
    }

    function Value(): State
      reads this
    {
      State(cursors, rows, workers)
    }

    method Become(s: State)
      modifies this
      ensures Value() == s
    {
      cursors, rows, workers := s.cursors, s.rows, s.workers;
    }

    /** `get_cursor`, remembered as what worker `k` will work from. */
    method GetCursor(net: Network, k: nat, w: nat) returns (cursor: Option<string>)
      requires w < |net.lanes|
      modifies this`workers
      ensures Value() == Apply(net, old(Value()), Start(k, w))
      ensures cursor == StoredCursor(old(Value()), w)
      ensures k in workers && workers[k] == Worker(w, Read(cursor))
    {
      cursor := if w in cursors then Some(cursors[w]) else None;
      workers := workers[k := Worker(w, Read(cursor))];
    }

    /** `record_deposit`. */
    method InsertDeposit(d: Deposit) returns (inserted: bool)
      modifies this`rows
      ensures rows == RecordDeposit(old(rows), d)
      ensures inserted <==> forall i :: 0 <= i < |old(rows)| ==> !Clash(old(rows)[i], d)
    {
      var i := 0;
      while i < |rows|
        invariant 0 <= i <= |rows| && rows == old(rows)
        invariant forall j :: 0 <= j < i ==> !Clash(rows[j], d)
      {
        if Clash(rows[i], d) {
          return false;
        }
        i := i + 1;
      }
      rows := rows + [d];
      inserted := true;
    }

    /** `process` on the next record of worker `k`. */
    method ProcessRecord(net: Network, k: nat, now: nat, address: Option<Uuid>) returns (recorded: bool)
      requires k in workers && workers[k].lane < |net.lanes| && workers[k].phase.Serving?
      requires workers[k].phase.next < workers[k].phase.upTo <= |net.lanes[workers[k].lane].ops|
      modifies this`rows, this`workers
      ensures Value() == Apply(net, old(Value()), Process(k, now, address))
      ensures k in workers && workers[k].phase.Recorded?
    {
      var lane, phase := net.lanes[workers[k].lane], workers[k].phase;
      var row := net.rules.process(lane.wallet, lane.ops[phase.next], PlausibleMaxLedger(now), address);
      recorded := false;
      if row.Some? {
        recorded := InsertDeposit(row.value);
      }
      workers := workers[k := workers[k].(phase := Recorded(phase.next, phase.upTo, phase.live))];
    }

    /** `set_cursor`: overwrites whatever is stored. */
    method StoreCursor(net: Network, k: nat)
      requires k in workers && workers[k].lane < |net.lanes| && workers[k].phase.Recorded?
      requires workers[k].phase.next < |net.lanes[workers[k].lane].ops|
      modifies this`cursors, this`workers
      ensures Value() == Apply(net, old(Value()), SetCursor(k))
    {
      var worker := workers[k];
      var phase := worker.phase;
      cursors := cursors[worker.lane := net.lanes[worker.lane].ops[phase.next].pagingToken];
      workers := workers[k := worker.(phase := Serving(phase.next + 1, phase.upTo, phase.live))];
    }

    /** Others take their steps while worker `k` waits. */
    method Await(net: Network, k: nat, others: seq<Event>, ghost since: nat)
      requires Others(others, k, since)
      modifies this
      ensures Value() == Run(net, old(Value()), others)
      ensures k in old(workers) ==> k in workers && workers[k] == old(workers[k])
    {
      ForeignSteps(net, Value(), others, k, since);
      Become(Run(net, Value(), others));
    }

    /** The worker returns, for whatever reason. */
    method Leave(net: Network, k: nat, others: seq<Event>, ghost s: State, ghost trace: seq<Event>,
                 ghost own: seq<Event>, ghost since: nat)
      returns (ghost full: seq<Event>)
      requires Traces(net, s, trace, Value(), k, own, since) && Others(others, k, since)
      modifies this
      ensures Traces(net, s, full, Value(), k, own + [Stop(k)], since)
    {
      OneTurn(net, s, trace, Value(), own, others, Stop(k), since);
      full := trace + others + [Stop(k)];
      Await(net, k, others, since);
      workers := workers - {k};
    }

    /** One await of `process`; if its reply is lost, the record may have been written. */
    method ProcessTurn(net: Network, k: nat, turn: Turn, ghost s: State, ghost trace: seq<Event>,
                       ghost own: seq<Event>, ghost since: nat)
      returns (ok: bool, ghost longer: seq<Event>, ghost mine: seq<Event>)
      requires Traces(net, s, trace, Value(), k, own, since) && Fair(turn, k, since)
      requires k in workers && workers[k].lane < |net.lanes| && workers[k].phase.Serving?
      requires workers[k].phase.next < workers[k].phase.upTo <= |net.lanes[workers[k].lane].ops|
      modifies this
      ensures Traces(net, s, longer, Value(), k, mine, since)
      ensures ok <==> turn.fault.Fine?
      ensures ok ==> mine == own + [Process(k, turn.now, turn.address)] && k in workers
      ensures ok ==> var was := old(workers[k]);
        workers[k] == was.(phase := Recorded(was.phase.next, was.phase.upTo, was.phase.live))
    {
      if turn.fault == Lost(false) {
        longer := Leave(net, k, turn.others, s, trace, own, since);
        return false, longer, own + [Stop(k)];
      }
      OneTurn(net, s, trace, Value(), own, turn.others, Process(k, turn.now, turn.address), since);
      Await(net, k, turn.others, since);
      var _ := ProcessRecord(net, k, turn.now, turn.address);
      longer := trace + turn.others + [Process(k, turn.now, turn.address)];
      mine, ok := own + [Process(k, turn.now, turn.address)], turn.fault.Fine?;
      if !ok {
        longer := Leave(net, k, [], s, longer, mine, since);
        mine := mine + [Stop(k)];
      }
    }

    /** One await of `set_cursor`, whose reply may be lost too. */
    method CursorTurn(net: Network, k: nat, turn: Turn, ghost s: State, ghost trace: seq<Event>, ghost own: seq<Event>,
                      ghost since: nat)
      returns (ok: bool, ghost longer: seq<Event>, ghost mine: seq<Event>)
      requires Traces(net, s, trace, Value(), k, own, since) && Fair(turn, k, since)
      requires k in workers && workers[k].lane < |net.lanes| && workers[k].phase.Recorded?
      requires workers[k].phase.next < |net.lanes[workers[k].lane].ops|
      modifies this
      ensures Traces(net, s, longer, Value(), k, mine, since)
      ensures ok <==> turn.fault.Fine?
      ensures ok ==> mine == own + [SetCursor(k)] && k in workers
      ensures ok ==> var was := old(workers[k]);
        workers[k] == was.(phase := Serving(was.phase.next + 1, was.phase.upTo, was.phase.live))
    {
      if turn.fault == Lost(false) {
        longer := Leave(net, k, turn.others, s, trace, own, since);
        return false, longer, own + [Stop(k)];
      }
      OneTurn(net, s, trace, Value(), own, turn.others, SetCursor(k), since);
      Await(net, k, turn.others, since);
      StoreCursor(net, k);
      longer, mine, ok := trace + turn.others + [SetCursor(k)], own + [SetCursor(k)], turn.fault.Fine?;
      if !ok {
        longer := Leave(net, k, [], s, longer, mine, since);
        mine := mine + [Stop(k)];
      }
    }

    /** Process one record, then move the cursor past it: the order both kinds of worker keep. */
    method ServeNext(net: Network, k: nat, first: Turn, second: Turn, ghost s: State, ghost trace: seq<Event>,
                     ghost own: seq<Event>, ghost since: nat)
      returns (ok: bool, ghost longer: seq<Event>, ghost mine: seq<Event>)
      requires Traces(net, s, trace, Value(), k, own, since) && Fair(first, k, since) && Fair(second, k, since)
      requires k in workers && workers[k].lane < |net.lanes| && workers[k].phase.Serving?
      requires workers[k].phase.next < workers[k].phase.upTo <= |net.lanes[workers[k].lane].ops|
      modifies this
      ensures Traces(net, s, longer, Value(), k, mine, since)
      ensures ok <==> first.fault.Fine? && second.fault.Fine?
      ensures ok ==> mine == own + [Process(k, first.now, first.address), SetCursor(k)] && k in workers
      ensures ok ==> var was := old(workers[k]);
        workers[k] == was.(phase := Serving(was.phase.next + 1, was.phase.upTo, was.phase.live))
    {
      ok, longer, mine := ProcessTurn(net, k, first, s, trace, own, since);
      if ok {
        ok, longer, mine := CursorTurn(net, k, second, s, longer, mine, since);
      }
    }

    /** One await of `get_cursor`. */
    method ReadTurn(net: Network, k: nat, w: nat, turn: Turn, ghost since: nat)
      returns (cursor: Option<string>, ghost trace: seq<Event>)
      requires w < |net.lanes| && Fair(turn, k, since)
      modifies this
      ensures Traces(net, old(Value()), trace, Value(), k, [Start(k, w)], since)
      ensures k in workers && workers[k] == Worker(w, Read(cursor))
      ensures cursor == StoredCursor(Run(net, old(Value()), turn.others), w)
    {
      ghost var s := Value();
      OneTurn(net, s, [], s, [], turn.others, Start(k, w), since);
      Await(net, k, turn.others, since);
      cursor := GetCursor(net, k, w);
      trace := [] + turn.others + [Start(k, w)];
      assert [] + [Start(k, w)] == [Start(k, w)];
    }

    /** Horizon's answer: the operations right after the cursor. */
    method TakeAnswer(net: Network, k: nat, w: nat, cursor: Option<string>, count: nat, live: bool) returns (from: nat)
      requires w < |net.lanes| && Paged(net) && k in workers && workers[k] == Worker(w, Read(cursor))
      modifies this`workers
      ensures Value() == Apply(net, old(Value()), Answer(k, count, live))
      ensures from == Passed(net.lanes[w].ops, Place(cursor)) <= |net.lanes[w].ops|
      ensures k in workers && workers[k] == Worker(w, Serving(from, Min(from + count, |net.lanes[w].ops|), live))
    {
      var ops := net.lanes[w].ops;
      PassedSplits(ops, Place(cursor));
      from := Passed(ops, Place(cursor));
      workers := workers[k := Worker(w, Serving(from, Min(from + count, |ops|), live))];
    }

    /** One await of Horizon, which answers from the cursor on. */
    method AnswerTurn(net: Network, k: nat, w: nat, cursor: Option<string>, turn: Turn, count: nat, live: bool,
                      ghost s: State, ghost trace: seq<Event>, ghost own: seq<Event>, ghost since: nat)
      returns (from: nat, ghost longer: seq<Event>)
      requires w < |net.lanes| && Paged(net) && Fair(turn, k, since)
      requires Traces(net, s, trace, Value(), k, own, since) && k in workers && workers[k] == Worker(w, Read(cursor))
      modifies this
      ensures Traces(net, s, longer, Value(), k, own + [Answer(k, count, live)], since)
      ensures from == Passed(net.lanes[w].ops, Place(cursor)) <= |net.lanes[w].ops|
      ensures k in workers && workers[k] == Worker(w, Serving(from, Min(from + count, |net.lanes[w].ops|), live))
    {
      OneTurn(net, s, trace, Value(), own, turn.others, Answer(k, count, live), since);
      Await(net, k, turn.others, since);
      from := TakeAnswer(net, k, w, cursor, count, live);
      longer := trace + turn.others + [Answer(k, count, live)];
    }

    /** The cursor read and Horizon's answer, which open a poll or a stream alike. */
    method Open(net: Network, k: nat, w: nat, reading: Turn, asking: Turn, count: nat, live: bool, ghost since: nat)
      returns (r: Option<nat>, ghost trace: seq<Event>, ghost own: seq<Event>)
      requires w < |net.lanes| && Paged(net) && Fair(reading, k, since) && Fair(asking, k, since)
      modifies this
      ensures Traces(net, old(Value()), trace, Value(), k, own, since)
      ensures r.None? <==> !reading.fault.Fine? || !asking.fault.Fine?
      ensures r.Some? ==> own == [Start(k, w), Answer(k, count, live)] && r.value <= |net.lanes[w].ops|
      ensures r.Some? ==>
        r.value == Passed(net.lanes[w].ops, Place(StoredCursor(Run(net, old(Value()), reading.others), w)))
      ensures r.Some? ==>
        k in workers && workers[k] == Worker(w, Serving(r.value, Min(r.value + count, |net.lanes[w].ops|), live))
    {
      ghost var s := Value();
      var cursor, from;
      cursor, trace := ReadTurn(net, k, w, reading, since);
      own := [Start(k, w)];
      if !reading.fault.Fine? || !asking.fault.Fine? {
        trace := Leave(net, k, asking.others, s, trace, own, since);
        return None, trace, own + [Stop(k)];
      }
      from, trace := AnswerTurn(net, k, w, cursor, asking, count, live, s, trace, own, since);
      own := own + [Answer(k, count, live)];
      r := Some(from);
    }

    /** One turn of a poll's loop. */
    method ServeRound(net: Network, k: nat, w: nat, next: nat, upTo: nat, first: Turn, second: Turn,
                      ghost opening: Event, ghost s: State, ghost trace: seq<Event>,
                      ghost turns: seq<(nat, Option<Uuid>)>, ghost since: nat)
      returns (ok: bool, ghost longer: seq<Event>, ghost mine: seq<Event>)
      requires Traces(net, s, trace, Value(), k, Rounds(k, w, opening, turns), since)
      requires Fair(first, k, since) && Fair(second, k, since)
      requires w < |net.lanes| && next < upTo <= |net.lanes[w].ops|
      requires k in workers && workers[k] == Worker(w, Serving(next, upTo, false))
      modifies this
      ensures Traces(net, s, longer, Value(), k, mine, since)
      ensures ok <==> first.fault.Fine? && second.fault.Fine?
      ensures ok ==> mine == Rounds(k, w, opening, turns + [(first.now, first.address)])
      ensures ok ==> k in workers && workers[k] == Worker(w, Serving(next + 1, upTo, false))
    {
      RoundsGrow(k, w, opening, turns, (first.now, first.address));
      ok, longer, mine := ServeNext(net, k, first, second, s, trace, Rounds(k, w, opening, turns), since);
    }

    /** The loop of a poll over the page it was given. */
    method ServePage(net: Network, k: nat, w: nat, from: nat, upTo: nat, env: nat -> Turn, ghost opening: Event,
                     ghost s: State, ghost begun: seq<Event>, ghost since: nat)
      returns (ok: bool, ghost trace: seq<Event>, ghost own: seq<Event>, ghost turns: seq<(nat, Option<Uuid>)>)
      requires Environment(env, k, since) && w < |net.lanes| && from <= upTo <= |net.lanes[w].ops|
      requires k in workers && workers[k] == Worker(w, Serving(from, upTo, false))
      requires Traces(net, s, begun, Value(), k, Rounds(k, w, opening, []), since)
      modifies this
      ensures Traces(net, s, trace, Value(), k, own, since)
      ensures ok ==> own == Rounds(k, w, opening, turns) && |turns| == upTo - from
      ensures !ok ==> exists n :: !env(n).fault.Fine?
    {
      trace, own, turns, ok := begun, Rounds(k, w, opening, []), [], true;
      var next := from;
      while ok && next < upTo
        invariant from <= next <= upTo && Traces(net, s, trace, Value(), k, own, since)
        invariant ok ==> |turns| == next - from && own == Rounds(k, w, opening, turns)
        invariant !ok ==> exists n :: !env(n).fault.Fine?
        invariant ok ==> k in workers && workers[k] == Worker(w, Serving(next, upTo, false))
      {
        var first, second := env(2 * (next - from) + 2), env(2 * (next - from) + 3);
        ok, trace, own := ServeRound(net, k, w, next, upTo, first, second, opening, s, trace, turns, since);
        turns := turns + [(first.now, first.address)];
        next := next + 1;
      }
    }

    /** Serve the page a poll was given, and return. */
    method ServeAndLeave(net: Network, k: nat, w: nat, from: nat, upTo: nat, env: nat -> Turn, ghost opening: Event,
                         ghost s: State, ghost begun: seq<Event>, ghost since: nat)
      returns (ok: bool, ghost trace: seq<Event>, ghost turns: seq<(nat, Option<Uuid>)>)
      requires Environment(env, k, since) && w < |net.lanes| && from <= upTo <= |net.lanes[w].ops|
      requires k in workers && workers[k] == Worker(w, Serving(from, upTo, false))
      requires Traces(net, s, begun, Value(), k, Rounds(k, w, opening, []), since)
      modifies this
      ensures Run(net, s, trace) == Value() && ClocksFrom(since, trace)
      ensures ok ==> Own(trace, k) == Rounds(k, w, opening, turns) + [Stop(k)] && |turns| == upTo - from
      ensures !ok ==> exists n :: !env(n).fault.Fine?
    {
      ghost var own;
      ok, trace, own, turns := ServePage(net, k, w, from, upTo, env, opening, s, begun, since);
      if ok {
        trace := Leave(net, k, [], s, trace, own, since);
      }
    }

    /**
     * `poll_once`: whatever others do meanwhile and wherever it fails, it is a run of the protocol. A
     * poll that succeeds has processed, and then passed, every record Horizon served after the cursor it
     * read, and reports how many.
     */
    method PollOnce(net: Network, k: nat, w: nat, limit: nat, env: nat -> Turn, ghost since: nat)
      returns (r: Result<nat, IngestError>, ghost trace: seq<Event>, ghost turns: seq<(nat, Option<Uuid>)>)
      requires w < |net.lanes| && Paged(net) && Environment(env, k, since)
      modifies this
      ensures Run(net, old(Value()), trace) == Value() && ClocksFrom(since, trace)
      ensures r.Ok? ==> r.value == |turns| <= limit
      ensures r.Ok? ==> var cursor := StoredCursor(Run(net, old(Value()), env(0).others), w);
        r.value == Served(net.lanes[w].ops, cursor, Min(limit, env(1).served))
      ensures r.Ok? ==> Own(trace, k) == Rounds(k, w, Answer(k, Min(limit, env(1).served), false), turns) + [Stop(k)]
      ensures r.Err? ==> exists n :: !env(n).fault.Fine?
    {
      ghost var s, own := Value(), [];
      turns := [];
      var count := Min(limit, env(1).served);
      var begun;
      assert Fair(env(0), k, since) && Fair(env(1), k, since);
      begun, trace, own := Open(net, k, w, env(0), env(1), count, false, since);
      if begun.None? {
        return Err(HorizonFailed), trace, turns;
      }
      var from, upTo := begun.value, Min(begun.value + count, |net.lanes[w].ops|);
      var ok;
      ok, trace, turns := ServeAndLeave(net, k, w, from, upTo, env, Answer(k, count, false), s, trace, since);
      r := if ok then Ok(upTo - from) else Err(StoreFailed);
    }

    /** One await of an open stream, which delivers the next operation. */
    method DeliverTurn(net: Network, k: nat, turn: Turn, ghost s: State, ghost trace: seq<Event>,
                       ghost own: seq<Event>, ghost since: nat)
      returns (ghost longer: seq<Event>)
      requires Traces(net, s, trace, Value(), k, own, since) && Fair(turn, k, since)
      requires k in workers && workers[k].lane < |net.lanes| && workers[k].phase.Serving? && workers[k].phase.live
      requires workers[k].phase.upTo < |net.lanes[workers[k].lane].ops|
      modifies this
      ensures Traces(net, s, longer, Value(), k, own + [Deliver(k)], since) && k in workers
      ensures var was := old(workers[k]); workers[k] == was.(phase := Serving(was.phase.next, was.phase.upTo + 1, true))
    {
      OneTurn(net, s, trace, Value(), own, turn.others, Deliver(k), since);
      Await(net, k, turn.others, since);
      var phase := workers[k].phase;
      workers := workers[k := workers[k].(phase := Serving(phase.next, phase.upTo + 1, true))];
      longer := trace + turn.others + [Deliver(k)];
    }

    /** Take one record off the stream and serve it. */
    method StreamNext(net: Network, k: nat, w: nat, next: nat, delivery: Turn, first: Turn, second: Turn,
                      ghost s: State, ghost trace: seq<Event>, ghost turns: seq<(nat, Option<Uuid>)>, ghost since: nat)
      returns (ok: bool, ghost longer: seq<Event>, ghost mine: seq<Event>)
      requires Traces(net, s, trace, Value(), k, StreamRounds(k, w, turns), since)
      requires Fair(delivery, k, since) && Fair(first, k, since) && Fair(second, k, since)
      requires w < |net.lanes| && next < |net.lanes[w].ops|
      requires k in workers && workers[k] == Worker(w, Serving(next, next, true))
      modifies this
      ensures Traces(net, s, longer, Value(), k, mine, since)
      ensures ok <==> delivery.fault.Fine? && first.fault.Fine? && second.fault.Fine?
      ensures ok ==> mine == StreamRounds(k, w, turns + [(first.now, first.address)])
      ensures ok ==> k in workers && workers[k] == Worker(w, Serving(next + 1, next + 1, true))
    {
      ghost var own := StreamRounds(k, w, turns);
      StreamRoundsGrow(k, w, turns, (first.now, first.address));
      if !delivery.fault.Fine? {
        longer := Leave(net, k, delivery.others, s, trace, own, since);
        return false, longer, own + [Stop(k)];
      }
      longer := DeliverTurn(net, k, delivery, s, trace, own, since);
      ok, longer, mine := ServeNext(net, k, first, second, s, longer, own + [Deliver(k)], since);
    }

    /** The records of an open stream, until Horizon closes it, it goes idle or a step fails. */
    method ServeStream(net: Network, k: nat, w: nat, from: nat, records: nat, env: nat -> Turn,
                       ghost s: State, ghost begun: seq<Event>, ghost since: nat)
      returns (failed: Option<IngestError>, ghost trace: seq<Event>, ghost own: seq<Event>,
               ghost turns: seq<(nat, Option<Uuid>)>)
      requires Environment(env, k, since) && Traces(net, s, begun, Value(), k, StreamRounds(k, w, []), since)
      requires w < |net.lanes| && from <= |net.lanes[w].ops|
      requires k in workers && workers[k] == Worker(w, Serving(from, from, true))
      modifies this
      ensures Traces(net, s, trace, Value(), k, own, since)
      ensures failed.None? ==>
        own == StreamRounds(k, w, turns) && |turns| == Min(from + records, |net.lanes[w].ops|) - from
      ensures failed.Some? ==> exists n :: !env(n).fault.Fine?
    {
      trace, own, turns, failed := begun, StreamRounds(k, w, []), [], None;
      var i: nat := 0;
      while i < records && from + i < |net.lanes[w].ops|
        invariant 0 <= i <= records && from + i <= |net.lanes[w].ops| && |turns| == i
        invariant own == StreamRounds(k, w, turns) && Traces(net, s, trace, Value(), k, own, since)
        invariant k in workers && workers[k] == Worker(w, Serving(from + i, from + i, true))
      {
        assert Fair(env(2 + 3 * i), k, since) && Fair(env(3 + 3 * i), k, since) && Fair(env(4 + 3 * i), k, since);
        var first, second := env(3 + 3 * i), env(4 + 3 * i);
        var ok;
        ok, trace, own := StreamNext(net, k, w, from + i, env(2 + 3 * i), first, second, s, trace, turns, since);
        if !ok {
          failed := Some(if !env(2 + 3 * i).fault.Fine? then HorizonFailed else StoreFailed);
          return;
        }
        turns, i := turns + [(first.now, first.address)], i + 1;
      }
    }

    /**
     * `stream_session`: it too is a run of the protocol, however it ends. One that ends well has taken,
     * processed and passed, one by one, the operations after the cursor it read.
     */
    method StreamSession(net: Network, k: nat, w: nat, records: nat, env: nat -> Turn, ghost since: nat)
      returns (r: Result<(), IngestError>, ghost trace: seq<Event>, ghost turns: seq<(nat, Option<Uuid>)>)
      requires w < |net.lanes| && Paged(net) && Environment(env, k, since)
      modifies this
      ensures Run(net, old(Value()), trace) == Value() && ClocksFrom(since, trace)
      ensures r.Ok? ==> var cursor := StoredCursor(Run(net, old(Value()), env(0).others), w);
        |turns| == Served(net.lanes[w].ops, cursor, records)
      ensures r.Ok? ==> Own(trace, k) == StreamRounds(k, w, turns) + [Stop(k)]
      ensures r.Err? ==> exists n :: !env(n).fault.Fine?
    {
      ghost var s, own := Value(), [];
      turns := [];
      var begun, failed;
      assert Fair(env(0), k, since) && Fair(env(1), k, since);
      begun, trace, own := Open(net, k, w, env(0), env(1), 0, true, since);
      if begun.None? {
        return Err(HorizonFailed), trace, turns;
      }
      failed, trace, own, turns := ServeStream(net, k, w, begun.value, records, env, s, trace, since);
      if failed.Some? {
        return Err(failed.value), trace, turns;
      }
      trace := Leave(net, k, [], s, trace, own, since);
      r := Ok(());
    }

    /** One poll on a service in good order leaves it in good order, even one that fails half way. */
    method PollKeepsSound(net: Network, k: nat, w: nat, limit: nat, env: nat -> Turn, ghost since: nat)
      returns (r: Result<nat, IngestError>)
      requires w < |net.lanes| && Paged(net) && Environment(env, k, since)
      requires Lawful(net.rules) && KeysSeparate(net) && LedgersPlausible(net, since) && Sound(net, Value())
      modifies this
      ensures Sound(net, Value()) && Complete(net, Value())
    {
      ghost var s, trace, turns := Value(), [], [];
      r, trace, turns := PollOnce(net, k, w, limit, env, since);
      RunKeepsSound(net, s, trace, since);
      SoundIsComplete(net, Value());
    }
  }
}
