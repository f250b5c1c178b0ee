/** Idempotency keys: claims that are taken, completed, released, taken over and purged. */
module Idempotency {
  import opened Wrappers
  import opened Bytes

  const TTL_SECS: nat := 86_400

  /** Wallet, operation scope and client key. */
  type Key = (Uuid, string, string)

  datatype Response = Response(statusCode: nat, body: string)
  datatype Row = Row(requestHash: string, response: Option<Response>, expiresAt: nat)
  type Rows = map<Key, Row>

  // --- the statements ---------------------------------------------------------------------------------

  /** The claiming upsert takes a key that is free or expired. */
  predicate Grants(rows: Rows, key: Key, now: nat) {
    key !in rows || rows[key].expiresAt <= now
  }

  function Claim(rows: Rows, key: Key, requestHash: string, now: nat): Rows {
    if Grants(rows, key, now) then rows[key := Row(requestHash, None, now + TTL_SECS)] else rows
  }

  datatype Answer = Claimed | Mismatch | Replay(response: Response) | InProgress | Missing

  /** The SELECT that decides for a claim that was not granted; the row may be gone by then. */
  function Read(rows: Rows, key: Key, requestHash: string): Answer {
    if key !in rows then Missing
    else if rows[key].requestHash != requestHash then Mismatch
    else if rows[key].response.Some? then Replay(rows[key].response.value)
    else InProgress
  }

  function Complete(rows: Rows, key: Key, response: Response): Rows {
    if key in rows && rows[key].response.None? then rows[key := rows[key].(response := Some(response))] else rows
  }

  function Release(rows: Rows, key: Key): Rows {
    if key in rows && rows[key].response.None? then rows - {key} else rows
  }

  function Purge(rows: Rows, now: nat): Rows {
    map k | k in rows && !(rows[k].expiresAt <= now) :: rows[k]
  }

  /** A free or expired key is taken for a day, with no response; any other is left as it is. */
  lemma ClaimTakes(rows: Rows, key: Key, requestHash: string, now: nat)
    ensures var after := Claim(rows, key, requestHash, now);
      && (forall k :: k in rows && k != key ==> k in after && after[k] == rows[k]) && after.Keys == rows.Keys + {key}
      && (key in rows && now < rows[key].expiresAt ==> after[key] == rows[key])
      && (key in rows && now < rows[key].expiresAt <==> !Grants(rows, key, now))
      && (Grants(rows, key, now) ==>
            && after[key].requestHash == requestHash && after[key].response == None
            && after[key].expiresAt == now + 24 * 60 * 60)
  {
  }

  // --- many requests -------------------------------------------------------------------------------------

  /** A granted claim whose request is still running. */
  datatype Live = Live(key: Key, requestHash: string, expires: nat)

  /** A response stored by a claim. */
  datatype Stored = Stored(key: Key, requestHash: string, response: Response)

  /** A replay handed to a request. */
  datatype Replayed = Replayed(key: Key, requestHash: string, response: Response)

  datatype State = State(
    rows: Rows, live: map<nat, Live>, waiting: map<nat, (Key, string)>, stored: set<Stored>, replayed: set<Replayed>)

  datatype Event =
    | Try(request: nat, key: Key, requestHash: string, now: nat)
    | Look(request: nat, now: nat)
    | Finish(request: nat, response: Response, now: nat)
    | GiveUp(request: nat, now: nat)
    /** The request's process dies: its claim stays behind, unfinished. */
    | Die(request: nat, now: nat)
    | Sweep(now: nat)

  function Apply(s: State, e: Event): State {
    match e
    case Try(request, key, requestHash, now) =>
      if request in s.live then s
      else if Grants(s.rows, key, now) then
        s.(rows := Claim(s.rows, key, requestHash, now),
           live := s.live[request := Live(key, requestHash, now + TTL_SECS)])
      else s.(waiting := s.waiting[request := (key, requestHash)])
    case Look(request, _) =>
      if request !in s.waiting then s
      else
        var (key, requestHash) := s.waiting[request];
        var answer := Read(s.rows, key, requestHash);
        s.(waiting := s.waiting - {request},
           replayed := s.replayed + if answer.Replay? then {Replayed(key, requestHash, answer.response)} else {})
    case Finish(request, response, _) =>
      if request !in s.live then s
      else
        var c := s.live[request];
        s.(rows := Complete(s.rows, c.key, response), live := s.live - {request},
           stored := s.stored + {Stored(c.key, c.requestHash, response)})
    case GiveUp(request, _) =>
      if request !in s.live then s
      else s.(rows := Release(s.rows, s.live[request].key), live := s.live - {request})
    case Die(request, _) => s.(live := s.live - {request}, waiting := s.waiting - {request})
    case Sweep(now) => s.(rows := Purge(s.rows, now))
  }

  function Run(s: State, events: seq<Event>): State {
    if events == [] then s else Apply(Run(s, events[..|events| - 1]), events[|events| - 1])
  }

  /** A granted request runs for a day at most in time; one that is not granted waits for its answer. */
  lemma TryStarts(s: State, e: Event)
    requires e.Try? && e.request !in s.live
    ensures var t := Apply(s, e);
      && t.stored == s.stored && t.replayed == s.replayed && t.rows == Claim(s.rows, e.key, e.requestHash, e.now)
      && (Grants(s.rows, e.key, e.now) ==>
            && t.live == s.live[e.request := Live(e.key, e.requestHash, e.now + 24 * 60 * 60)]
            && t.waiting == s.waiting)
      && (!Grants(s.rows, e.key, e.now) ==>
            t.live == s.live && t.waiting == s.waiting[e.request := (e.key, e.requestHash)])
  {
  }

  /** Looking ends the wait and dying ends everything of the request; neither touches the table. */
  lemma LookAndDieEnd(s: State, e: Event)
    requires e.Look? || e.Die?
    ensures var t := Apply(s, e);
      && t.rows == s.rows && t.stored == s.stored && s.replayed <= t.replayed && e.request !in t.waiting
      && t.waiting.Keys == s.waiting.Keys - {e.request}
      && t.live.Keys == s.live.Keys - (if e.Die? then {e.request} else {})
      && (forall r :: r in t.waiting ==> t.waiting[r] == s.waiting[r])
      && (forall r :: r in t.live ==> t.live[r] == s.live[r])
      && (t.replayed != s.replayed ==> e.Look? && e.request in s.waiting)
  {
  }

  const EMPTY := State(map[], map[], map[], {}, {})

  /** No clock reading finds a claim that is still running past its TTL. */
  ghost predicate InTime(s: State, e: Event) {
    forall request :: request in s.live ==> e.now < s.live[request].expires
  }

  ghost predicate AllInTime(s: State, events: seq<Event>) {
    forall n :: 0 <= n < |events| ==> InTime(Run(s, events[..n]), events[n])
  }

  // --- what every run keeps ----------------------------------------------------------------------------------

  /** A running claim owns its row. */
  ghost predicate Owns(rows: Rows, c: Live) {
    c.key in rows && rows[c.key] == Row(c.requestHash, None, c.expires)
  }

  /** No two running claims are on one key. */
  ghost predicate Exclusive(s: State) {
    forall a, b :: a in s.live && b in s.live && a != b ==> s.live[a].key != s.live[b].key
  }

  ghost predicate Provenance(s: State) {
    && (forall k :: k in s.rows && s.rows[k].response.Some? ==>
          Stored(k, s.rows[k].requestHash, s.rows[k].response.value) in s.stored)
    && (forall r :: r in s.replayed ==> Stored(r.key, r.requestHash, r.response) in s.stored)
  }

  ghost predicate Sound(s: State) {
    && (forall request :: request in s.live ==> Owns(s.rows, s.live[request]))
    && Exclusive(s) && Provenance(s)
  }

  /** The step takes away the row of a claim that is still running although it has outlived its TTL. */
  ghost predicate Overtakes(s: State, e: Event) {
    exists request :: request in s.live && s.live[request].expires <= e.now && TakesRow(s, e, s.live[request].key)
  }

  predicate TakesRow(s: State, e: Event, key: Key) {
    e.Sweep? || (e.Try? && e.key == key && e.request !in s.live)
  }

  lemma InTimeNeverOvertakes(s: State, e: Event)
    requires InTime(s, e)
    ensures !Overtakes(s, e)
  {
  }

  /** Exactly the overtaking steps cost a running claim its row or its key. */
  lemma StepSoundIff(s: State, e: Event)
    requires Sound(s)
    ensures Sound(Apply(s, e)) <==> !Overtakes(s, e)
  {
    if Overtakes(s, e) {
      var request :| request in s.live && s.live[request].expires <= e.now && TakesRow(s, e, s.live[request].key);
      assert Owns(s.rows, s.live[request]) && !Owns(Apply(s, e).rows, s.live[request]);
      assert request in Apply(s, e).live;
    } else {
      StepKeepsSound(s, e);
    }
  }

  lemma StepKeepsSound(s: State, e: Event)
    requires Sound(s) && !Overtakes(s, e)
    ensures Sound(Apply(s, e))
  {
    match e
    case Try(_, _, _, _) => TryKeepsSound(s, e);
    case Look(_, _) =>
    case Finish(request, _, _) =>
      assert request in s.live ==> Owns(s.rows, s.live[request]);
    case GiveUp(request, _) =>
      assert request in s.live ==> Owns(s.rows, s.live[request]);
    case Die(_, _) =>
    case Sweep(_) =>
      assert forall request :: request in s.live && TakesRow(s, e, s.live[request].key) ==>
          e.now < s.live[request].expires;
  }

  lemma TryKeepsSound(s: State, e: Event)
    requires Sound(s) && !Overtakes(s, e) && e.Try?
    ensures Sound(Apply(s, e))
  {
    if e.request !in s.live && Grants(s.rows, e.key, e.now) {
      forall request | request in s.live ensures s.live[request].key != e.key {
        assert Owns(s.rows, s.live[request]);
        assert TakesRow(s, e, s.live[request].key) ==> e.now < s.live[request].expires;
      }
    }
  }

  lemma PrefixNext(s: State, events: seq<Event>, n: nat)
    requires n < |events|
    ensures Run(s, events[..n + 1]) == Apply(Run(s, events[..n]), events[n])
  {
    assert events[..n + 1][..n] == events[..n];
  }

  lemma {:induction false} SoundUpTo(s: State, events: seq<Event>, n: nat)
    requires Sound(s) && n <= |events|
    requires forall i :: 0 <= i < n ==> !Overtakes(Run(s, events[..i]), events[i])
    ensures Sound(Run(s, events[..n]))
  {
    if n > 0 {
      SoundUpTo(s, events, n - 1);
      PrefixNext(s, events, n - 1);
      StepSoundIff(Run(s, events[..n - 1]), events[n - 1]);
    }
  }

  /** Throughout a run every running claim owns its key, exactly when no step overtakes one. */
  lemma RunSoundIff(s: State, events: seq<Event>)
    requires Sound(s)
    ensures (forall n :: 0 <= n <= |events| ==> Sound(Run(s, events[..n])))
       <==> (forall n :: 0 <= n < |events| ==> !Overtakes(Run(s, events[..n]), events[n]))
  {
    if forall n :: 0 <= n <= |events| ==> Sound(Run(s, events[..n])) {
      forall n | 0 <= n < |events| ensures !Overtakes(Run(s, events[..n]), events[n]) {
        PrefixNext(s, events, n);
        StepSoundIff(Run(s, events[..n]), events[n]);
      }
    }
    if forall n :: 0 <= n < |events| ==> !Overtakes(Run(s, events[..n]), events[n]) {
      forall n | 0 <= n <= |events| ensures Sound(Run(s, events[..n])) {
        SoundUpTo(s, events, n);
      }
    }
  }

  lemma RunKeepsSound(s: State, events: seq<Event>)
    requires Sound(s) && AllInTime(s, events)
    ensures Sound(Run(s, events))
  {
    forall n | 0 <= n < |events| ensures !Overtakes(Run(s, events[..n]), events[n]) {
      InTimeNeverOvertakes(Run(s, events[..n]), events[n]);
    }
    RunSoundIff(s, events);
    assert events[..|events|] == events;
  }

  /** With every request finishing within its TTL, no two claims on a key ever run together. */
  lemma ClaimsAreExclusive(events: seq<Event>, a: nat, b: nat)
    requires AllInTime(EMPTY, events)
    requires a in Run(EMPTY, events).live && b in Run(EMPTY, events).live && a != b
    ensures Run(EMPTY, events).live[a].key != Run(EMPTY, events).live[b].key
  {
    RunKeepsSound(EMPTY, events);
  }

  /** And every replay is of a response stored by a claim with the same key and the same request hash. */
  lemma ReplaysAreGenuine(events: seq<Event>, r: Replayed)
    requires AllInTime(EMPTY, events) && r in Run(EMPTY, events).replayed
    ensures Stored(r.key, r.requestHash, r.response) in Run(EMPTY, events).stored
  {
    RunKeepsSound(EMPTY, events);
  }

  /** While running claims own their rows, a second one on a key is granted once the first has outlived its TTL. */
  lemma SecondClaimIff(s: State, request: nat, key: Key, requestHash: string, now: nat, first: nat)
    requires Sound(s) && first in s.live && s.live[first].key == key && request !in s.live
    ensures request in Apply(s, Try(request, key, requestHash, now)).live <==> s.live[first].expires <= now
  {
    assert Owns(s.rows, s.live[first]);
  }

  // --- exactly when a replay can be someone else's ----------------------------------------------------------

  /** A claimer stores its response in a row that has gone to a request with another hash. */
  ghost predicate Mislabels(s: State, e: Event) {
    && e.Finish? && e.request in s.live
    && var c := s.live[e.request];
    && c.key in s.rows && s.rows[c.key].response.None? && s.rows[c.key].requestHash != c.requestHash
    && Stored(c.key, s.rows[c.key].requestHash, e.response) !in s.stored
  }

  lemma StepGenuineIff(s: State, e: Event)
    requires Provenance(s)
    ensures Provenance(Apply(s, e)) <==> !Mislabels(s, e)
  {
    if Mislabels(s, e) {
      var c := s.live[e.request];
      assert c.key in Apply(s, e).rows && Apply(s, e).rows[c.key].response == Some(e.response);
      assert Stored(c.key, s.rows[c.key].requestHash, e.response) !in Apply(s, e).stored;
    }
  }

  lemma {:induction false} ProvenanceUpTo(s: State, events: seq<Event>, n: nat)
    requires Provenance(s) && n <= |events|
    requires forall i :: 0 <= i < n ==> !Mislabels(Run(s, events[..i]), events[i])
    ensures Provenance(Run(s, events[..n]))
  {
    if n > 0 {
      ProvenanceUpTo(s, events, n - 1);
      PrefixNext(s, events, n - 1);
      StepGenuineIff(Run(s, events[..n - 1]), events[n - 1]);
    }
  }

  /** Whatever the clocks say: stored and replayed responses stay genuine exactly when no step mislabels one. */
  lemma ReplaysGenuineIff(s: State, events: seq<Event>)
    requires Provenance(s)
    ensures (forall n :: 0 <= n <= |events| ==> Provenance(Run(s, events[..n])))
       <==> (forall n :: 0 <= n < |events| ==> !Mislabels(Run(s, events[..n]), events[n]))
  {
    if forall n :: 0 <= n <= |events| ==> Provenance(Run(s, events[..n])) {
      forall n | 0 <= n < |events| ensures !Mislabels(Run(s, events[..n]), events[n]) {
        PrefixNext(s, events, n);
        StepGenuineIff(Run(s, events[..n]), events[n]);
      }
    }
    if forall n :: 0 <= n < |events| ==> !Mislabels(Run(s, events[..n]), events[n]) {
      forall n | 0 <= n <= |events| ensures Provenance(Run(s, events[..n])) {
        ProvenanceUpTo(s, events, n);
      }
    }
  }

  lemma {:induction false} RunNext(s: State, e: Event, rest: seq<Event>)
    ensures Run(s, [e] + rest) == Run(Apply(s, e), rest)
    decreases |rest|
  {
    if rest == [] {
      assert [e] + rest == [e] && [e][..0] == [];
    } else {
      RunNext(s, e, rest[..|rest| - 1]);
      assert ([e] + rest)[..|rest|] == [e] + rest[..|rest| - 1];
    }
  }

  lemma RunThree(s: State, a: Event, b: Event, c: Event)
    ensures Run(s, [a, b, c]) == Apply(Apply(Apply(s, a), b), c)
  {
    RunNext(s, a, [b, c]);
    RunNext(Apply(s, a), b, [c]);
    RunNext(Apply(Apply(s, a), b), c, []);
    assert [a] + [b, c] == [a, b, c] && [b] + [c] == [b, c] && [c] + [] == [c];
  }

  /** From any state, a mislabelled response is handed to whoever asks with that hash before the row expires. */
  lemma MislabelIsReplayed(s: State, e: Event, third: nat, now: nat)
    requires Mislabels(s, e) && third !in s.live && now < s.rows[s.live[e.request].key].expiresAt
    ensures var key := s.live[e.request].key;
      var theirs := s.rows[key].requestHash;
      var end := Run(s, [e, Try(third, key, theirs, now), Look(third, now)]);
      Replayed(key, theirs, e.response) in end.replayed && Stored(key, theirs, e.response) !in end.stored
  {
    var key := s.live[e.request].key;
    RunThree(s, e, Try(third, key, s.rows[key].requestHash, now), Look(third, now));
  }

  /**
   * Any claim still running past its TTL can answer for someone else: another request takes the key
   * over, the late response lands in its row, and a third request is handed it.
   */
  lemma LateFinishIsReplayedToAnother(s: State, first: nat, second: nat, third: nat, theirs: string,
                                      response: Response, now: nat)
    requires Sound(s) && first in s.live && s.live[first].expires <= now && theirs != s.live[first].requestHash
    requires second !in s.live && third !in s.live && second != third
    requires Stored(s.live[first].key, theirs, response) !in s.stored
    ensures var key := s.live[first].key;
      var steps := [Try(second, key, theirs, now), Finish(first, response, now), Try(third, key, theirs, now),
                    Look(third, now)];
      var end := Run(s, steps);
      Replayed(key, theirs, response) in end.replayed && Stored(key, theirs, response) !in end.stored
  {
    var key := s.live[first].key;
    assert Owns(s.rows, s.live[first]);
    var taken := Apply(s, Try(second, key, theirs, now));
    MislabelIsReplayed(taken, Finish(first, response, now), third, now);
    var rest := [Finish(first, response, now), Try(third, key, theirs, now), Look(third, now)];
    RunNext(s, Try(second, key, theirs, now), rest);
    assert [Try(second, key, theirs, now)] + rest
        == [Try(second, key, theirs, now), Finish(first, response, now), Try(third, key, theirs, now),
            Look(third, now)];
  }

  /** And it can let a third request in beside the one that took the key over, by giving its claim up. */
  lemma LateReleaseLetsAnotherIn(s: State, first: nat, second: nat, third: nat, theirs: string, others: string,
                                 now: nat)
    requires Sound(s) && first in s.live && s.live[first].expires <= now
    requires second !in s.live && third !in s.live && second != third
    ensures var key := s.live[first].key;
      var end := Run(s, [Try(second, key, theirs, now), GiveUp(first, now), Try(third, key, others, now)]);
      && second in end.live && third in end.live && end.live[second].key == end.live[third].key
      && now < end.live[second].expires
  {
    var key := s.live[first].key;
    assert Owns(s.rows, s.live[first]);
    RunThree(s, Try(second, key, theirs, now), GiveUp(first, now), Try(third, key, others, now));
  }

  // --- a stored response is stable ------------------------------------------------------------------------------

  lemma StepKeepsResponse(s: State, e: Event, key: Key)
    requires key in s.rows && s.rows[key].response.Some? && e.now < s.rows[key].expiresAt
    ensures key in Apply(s, e).rows && Apply(s, e).rows[key] == s.rows[key]
  {
  }

  /** Whatever requests do, a stored response stays as it is until it expires. */
  lemma {:induction false} ResponseIsStable(s: State, events: seq<Event>, key: Key)
    requires key in s.rows && s.rows[key].response.Some?
    requires forall n :: 0 <= n < |events| ==> events[n].now < s.rows[key].expiresAt
    ensures key in Run(s, events).rows && Run(s, events).rows[key] == s.rows[key]
  {
    if events != [] {
      ResponseIsStable(s, events[..|events| - 1], key);
      StepKeepsResponse(Run(s, events[..|events| - 1]), events[|events| - 1], key);
    }
  }

  // --- the table as it runs -----------------------------------------------------------------------------------------

  class KeyTable {
    var rows: Rows
    /** The requests under way, and what they have stored and been handed. */
    var live: map<nat, Live>
    var waiting: map<nat, (Key, string)>
    var stored: set<Stored>
    var replayed: set<Replayed>

    constructor ()
      ensures Value() == EMPTY
    {
      rows, live, waiting, stored, replayed := map[], map[], map[], {}, {};
    }

    function Value(): State
      reads this
    {
      State(rows, live, waiting, stored, replayed)
    }

    /** The claiming INSERT of `claim_idempotency_key`. */
    method InsertClaim(key: Key, requestHash: string, now: nat) returns (granted: bool)
      modifies this`rows
      ensures granted <==> Grants(old(rows), key, now)
      ensures rows == Claim(old(rows), key, requestHash, now)
    {
      granted := key !in rows || rows[key].expiresAt <= now;
      if granted {
        rows := rows[key := Row(requestHash, None, now + TTL_SECS)];
      }
    }

    /** Its SELECT, for a claim that was not granted. */
    method ReadKey(key: Key, requestHash: string) returns (answer: Answer)
      ensures answer == Read(rows, key, requestHash)
    {
      if key !in rows {
        return Missing;
      }
      var row := rows[key];
      if row.requestHash != requestHash {
        answer := Mismatch;
      } else if row.response.Some? {
        answer := Replay(row.response.value);
      } else {
        answer := InProgress;
      }
    }

    method CompleteKey(key: Key, response: Response)
      modifies this`rows
      ensures rows == Complete(old(rows), key, response)
    {
      if key in rows && rows[key].response.None? {
        rows := rows[key := rows[key].(response := Some(response))];
      }
    }

    method ReleaseKey(key: Key)
      modifies this`rows
      ensures rows == Release(old(rows), key)
    {
      if key in rows && rows[key].response.None? {
        rows := rows - {key};
      }
    }

    method PurgeExpired(now: nat)
      modifies this`rows
      ensures rows == Purge(old(rows), now)
    {
      rows := map k | k in rows && rows[k].expiresAt > now :: rows[k];
    }

    /** What one request does next, or the sweep. */
    method Step(e: Event)
      modifies this
      ensures Value() == Apply(old(Value()), e)
    {
      match e {
        case Try(request, key, requestHash, now) =>
          if request !in live {
            var granted := InsertClaim(key, requestHash, now);
            if granted {
              live := live[request := Live(key, requestHash, now + TTL_SECS)];
            } else {
              waiting := waiting[request := (key, requestHash)];
            }
          }
        case Look(request, _) =>
          if request in waiting {
            var (key, requestHash) := waiting[request];
            var answer := ReadKey(key, requestHash);
            var handed := if answer.Replay? then {Replayed(key, requestHash, answer.response)} else {};
            waiting, replayed := waiting - {request}, replayed + handed;
          }
        case Finish(request, response, _) =>
          if request in live {
            var c := live[request];
            CompleteKey(c.key, response);
            live, stored := live - {request}, stored + {Stored(c.key, c.requestHash, response)};
          }
        case GiveUp(request, _) =>
          if request in live {
            ReleaseKey(live[request].key);
            live := live - {request};
          }
        case Die(request, _) =>
          live, waiting := live - {request}, waiting - {request};
        case Sweep(now) =>
          PurgeExpired(now);
      }
    }

    /**
     * Requests on one table, statement by statement in any order. In time they keep their rows, one claim
     * a key, and every response handed out is one stored for that request.
     */
    method Serve(events: seq<Event>)
      modifies this
      ensures Value() == Run(old(Value()), events)
      ensures Sound(old(Value())) && AllInTime(old(Value()), events) ==> Sound(Value())
    {
      ghost var start := Value();
      var i := 0;
      while i < |events|
        invariant 0 <= i <= |events| && Value() == Run(start, events[..i])
      {
        assert events[..i + 1][..i] == events[..i];
        Step(events[i]);
        i := i + 1;
      }
      assert events[..i] == events;
      if Sound(start) && AllInTime(start, events) {
        RunKeepsSound(start, events);
      }
    }

    /**
     * `claim_idempotency_key`: two statements, with anything in between. It never reports a response the
     * table does not hold for this key and this request hash, nor a claim the table does not show.
     */
    method ClaimKey(key: Key, requestHash: string, now: nat, between: seq<Event>) returns (answer: Answer)
      modifies this
      ensures answer != Claimed ==> Value() == Run(old(Value()), between)
      ensures answer == Claimed <==> Grants(old(rows), key, now)
      ensures answer == Claimed ==> rows == Claim(old(rows), key, requestHash, now)
      ensures answer.Replay? ==>
        key in rows && rows[key].requestHash == requestHash && rows[key].response == Some(answer.response)
      ensures answer.InProgress? ==> key in rows && rows[key].requestHash == requestHash && rows[key].response.None?
      ensures answer.Mismatch? ==> key in rows && rows[key].requestHash != requestHash
      ensures answer.Missing? ==> key !in rows
      ensures answer != Claimed && (forall n :: 0 <= n < |between| ==> between[n].now < old(rows)[key].expiresAt)
        && old(rows)[key].response.Some? && old(rows)[key].requestHash == requestHash
        ==> answer == Replay(old(rows)[key].response.value)
    {
      var granted := InsertClaim(key, requestHash, now);
      if granted {
        return Claimed;
      }
      ghost var s := Value();
      Serve(between);
      if s.rows[key].response.Some? && forall n :: 0 <= n < |between| ==> between[n].now < s.rows[key].expiresAt {
        ResponseIsStable(s, between, key);
      }
      answer := ReadKey(key, requestHash);
    }
  }
}
