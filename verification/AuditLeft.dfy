/** Signed histories, and the histories an operation of the code has left in the tables. */
module AuditLeft {
  import opened Wrappers
  import opened Bytes
  import opened AuditEncoding
  import opened AuditChain
  import opened AuditWalk
  import opened AuditHealth
  import opened AuditRuns
  import opened AuditLedger
  import opened AuditTamper
  import opened AuditProvenance

  /** With the head untouched, an append does the same whether or not the last row is still there. */
  lemma CutAppends(mac: Macs, db: Db, user: Uuid, e: Event, last: Uuid)
    requires Pinned(mac, db, user) && db.heads[user].seqNo < I64_MAX && e.id !in db.logs && last in db.logs
    ensures var cut := db.(logs := db.logs - {last});
      && Append(mac, db, user, e).Ok? && Append(mac, cut, user, e).Ok?
      && var left := Append(mac, cut, user, e).value;
      && left.(logs := left.logs[last := db.logs[last]]) == Append(mac, db, user, e).value
      && var row := e.ToRow(user).Linked(mac, e.id, db.heads[user].seqNo + 1, db.heads[user].rowHash);
      left.logs == cut.logs[e.id := row]
  {
    var n, h := db.heads[user].seqNo, db.heads[user].rowHash;
    InsertSucceeds(mac, db.logs, user, e, n, h);
    var cut := db.(logs := db.logs - {last});
    var row := e.ToRow(user).Linked(mac, e.id, n + 1, h);
    assert cut.logs[e.id := row][last := db.logs[last]] == db.logs[e.id := row];
  }

  lemma {:induction false} TraceConcat(mac: Macs, t: Trail, a: seq<Step>, b: seq<Step>)
    ensures Trace(mac, t, a + b) == Trace(mac, Trace(mac, t, a), b)
  {
    if b == [] {
      assert a + b == a;
    } else {
      TraceConcat(mac, t, a, b[..|b| - 1]);
      assert (a + b)[..|a + b| - 1] == a + b[..|b| - 1];
    }
  }

  lemma AllowedConcat(mac: Macs, t: Trail, a: seq<Step>, b: seq<Step>)
    requires AllowedRun(mac, t, a) && AllowedRun(mac, Trace(mac, t, a), b)
    ensures AllowedRun(mac, t, a + b)
  {
    forall i | 0 <= i < |a + b| ensures Allowed(mac, Trace(mac, t, (a + b)[..i]), (a + b)[i]) {
      if i < |a| {
        assert (a + b)[..i] == a[..i];
      } else {
        assert (a + b)[..i] == a + b[..i - |a|];
        TraceConcat(mac, t, a, b[..i - |a|]);
      }
    }
  }

  function RecordThenTamper(user: Uuid, e: Event, changed: Db): seq<Step> {
    [Code(RecordAudit(user, e)), Tamper(changed)]
  }

  /** A record, after which someone changes rows but no head. */
  lemma RecordedThenTampered(mac: Macs, t: Trail, user: Uuid, e: Event, after: Db, changed: Db)
    requires TrailSound(mac, t) && Append(mac, t.w.db, user, e) == Ok(after) && changed.heads == after.heads
    ensures var steps := RecordThenTamper(user, e, changed);
      var end := Trace(mac, t, steps);
      && AllowedRun(mac, t, steps) && TrailSound(mac, end)
      && end.w.db == changed && end.left == t.left + {(user, History(after, user))}
  {
    AdvanceKeepsTrail(mac, t, Code(RecordAudit(user, e)));
    TwoSteps(mac, t, Code(RecordAudit(user, e)), Tamper(changed));
  }

  lemma TwoSteps(mac: Macs, t: Trail, a: Step, b: Step)
    ensures Trace(mac, t, [a, b]) == Advance(mac, Advance(mac, t, a), b)
    ensures Allowed(mac, t, a) && Allowed(mac, Advance(mac, t, a), b) ==> AllowedRun(mac, t, [a, b])
  {
    var steps := [a, b];
    assert steps[..0] == [] && steps[..1] == [a] && [a][..0] == [];
    assert Trace(mac, t, [a]) == Advance(mac, t, a);
  }

  /** What two records leave, with the rows tampered with after each of them. */
  lemma RecordTwice(mac: Macs, t: Trail, user: Uuid, first: Event, second: Event, db: Db, cut: Db, left: Db,
                    restored: Db)
    requires TrailSound(mac, t) && t.left == {}
    requires Append(mac, t.w.db, user, first) == Ok(db) && Append(mac, cut, user, second) == Ok(left)
    requires cut.heads == db.heads && restored.heads == left.heads
    ensures var steps := RecordThenTamper(user, first, cut) + RecordThenTamper(user, second, restored);
      && AllowedRun(mac, t, steps) && Trace(mac, t, steps).w.db == restored
      && Trace(mac, t, steps).left == {(user, History(db, user)), (user, History(left, user))}
  {
    var a, b := RecordThenTamper(user, first, cut), RecordThenTamper(user, second, restored);
    RecordedThenTampered(mac, t, user, first, db, cut);
    RecordedThenTampered(mac, Trace(mac, t, a), user, second, left, restored);
    AllowedConcat(mac, t, a, b);
    TraceConcat(mac, t, a, b);
  }

  /** The tables once the code has recorded `second` with the row of `first` cut off the chain. */
  ghost function LeftAfterCut(mac: Macs, db: Db, user: Uuid, first: Event, second: Event): Result<Db, StoreError>
  {
    Append(mac, db.(logs := db.logs - {first.id}), user, second)
  }

  /** Cut the last row off an intact chain, let the code append, and put the row back. */
  lemma RestoredIsIntact(mac: Macs, db: Db, user: Uuid, first: Event, second: Event)
    requires Healthy(mac, db) && user in db.heads && db.heads[user].seqNo < I64_MAX && second.id !in db.logs
    requires first.id in db.logs && db.logs[first.id].userId == user
    ensures LeftAfterCut(mac, db, user, first, second).Ok?
    ensures var left := LeftAfterCut(mac, db, user, first, second).value;
      var restored := left.(logs := left.logs[first.id := db.logs[first.id]]);
      && user in restored.heads && Verify(mac, restored, user).status == Intact
      && |History(restored, user)| == |History(db, user)| + 1
      && |History(left, user)| == |History(db, user)|
  {
    assert LegacyOnly(db, user) || Pinned(mac, db, user);
    CutAppends(mac, db, user, second, first.id);
    RestoredVerifies(mac, db, user, second);
    CutBreaks(mac, db, user, second, first.id);
  }

  /** Record, cut the row off, record again, put the row back. */
  ghost function CutAndRestore(mac: Macs, db: Db, user: Uuid, first: Event, second: Event): seq<Step>
    requires first.id in db.logs && LeftAfterCut(mac, db, user, first, second).Ok?
  {
    var left := LeftAfterCut(mac, db, user, first, second).value;
    RecordThenTamper(user, first, db.(logs := db.logs - {first.id}))
    + RecordThenTamper(user, second, left.(logs := left.logs[first.id := db.logs[first.id]]))
  }

  lemma CutAndRestoreRuns(mac: Macs, t: Trail, user: Uuid, first: Event, second: Event, db: Db)
    requires TrailSound(mac, t) && t.left == {} && Append(mac, t.w.db, user, first) == Ok(db)
    requires first.id in db.logs && user in db.heads && LeftAfterCut(mac, db, user, first, second).Ok?
    ensures var left := LeftAfterCut(mac, db, user, first, second).value;
      var steps := CutAndRestore(mac, db, user, first, second);
      && AllowedRun(mac, t, steps)
      && Trace(mac, t, steps).w.db == left.(logs := left.logs[first.id := db.logs[first.id]])
      && Trace(mac, t, steps).left == {(user, History(db, user)), (user, History(left, user))}
  {
    var left := LeftAfterCut(mac, db, user, first, second).value;
    RecordTwice(mac, t, user, first, second, db, db.(logs := db.logs - {first.id}), left,
                left.(logs := left.logs[first.id := db.logs[first.id]]));
  }

  lemma FirstRecord(mac: Macs, db: Db, user: Uuid, e: Event)
    requires Fresh(db) && Append(mac, db, user, e).Ok?
    ensures var after := Append(mac, db, user, e).value;
      Healthy(mac, after) && user in after.heads && e.id in after.logs && after.logs[e.id].userId == user
  {
    FreshIsHealthy(mac, db);
    AppendKeepsHealthy(mac, db, user, e);
  }

  /** The tables verify, yet no operation left the user's chain as it is there. */
  ghost predicate IntactButNotLeft(mac: Macs, t: Trail, user: Uuid) {
    && user in t.w.db.heads && Verify(mac, t.w.db, user).status == Intact
    && (user, History(t.w.db, user)) !in t.left
  }

  lemma LongerIsAnother(mac: Macs, t: Trail, user: Uuid, db: Db, left: Db)
    requires user in t.w.db.heads && Verify(mac, t.w.db, user).status == Intact
    requires t.left == {(user, History(db, user)), (user, History(left, user))}
    requires |History(t.w.db, user)| > |History(db, user)| == |History(left, user)|
    ensures IntactButNotLeft(mac, t, user)
  {
  }

  /**
   * A signed history need not ever have been in the tables. From legacy rows only, for every user
   * and any two events: after this run the chain verifies, yet no operation of the run left it.
   */
  lemma RestoredRowWasNeverLeft(mac: Macs, w: World, user: Uuid, first: Event, second: Event, db: Db)
    requires Fresh(w.db) && Append(mac, w.db, user, first) == Ok(db)
    requires user in db.heads && db.heads[user].seqNo < I64_MAX && second.id !in db.logs
    ensures first.id in db.logs && LeftAfterCut(mac, db, user, first, second).Ok?
    ensures var start, steps := Trail(w, map[], {}), CutAndRestore(mac, db, user, first, second);
      AllowedRun(mac, start, steps) && IntactButNotLeft(mac, Trace(mac, start, steps), user)
  {
    FirstRecord(mac, w.db, user, first);
    RestoredIsIntact(mac, db, user, first, second);
    NothingSignedYet(mac, w);
    CutAndRestoreRuns(mac, Trail(w, map[], {}), user, first, second, db);
    var t := Trace(mac, Trail(w, map[], {}), CutAndRestore(mac, db, user, first, second));
    LongerIsAnother(mac, t, user, db, LeftAfterCut(mac, db, user, first, second).value);
  }

  lemma RestoredVerifies(mac: Macs, db: Db, user: Uuid, e: Event)
    requires Healthy(mac, db) && Pinned(mac, db, user) && Append(mac, db, user, e).Ok?
    ensures Verify(mac, Append(mac, db, user, e).value, user).status == Intact
    ensures |History(Append(mac, db, user, e).value, user)| == |History(db, user)| + 1
  {
    var after := Append(mac, db, user, e).value;
    AppendPins(mac, db, user, e);
    PinnedVerifies(mac, after, user);
    WalkedPositions(mac, db.logs, user, db.heads[user].seqNo, db.heads[user].rowHash);
    WalkedPositions(mac, after.logs, user, after.heads[user].seqNo, after.heads[user].rowHash);
  }

  lemma CutBreaks(mac: Macs, db: Db, user: Uuid, e: Event, last: Uuid)
    requires Pinned(mac, db, user) && db.heads[user].seqNo < I64_MAX && e.id !in db.logs
    requires last in db.logs && db.logs[last].userId == user
    ensures var cut := db.(logs := db.logs - {last});
      && Append(mac, cut, user, e).Ok?
      && var left := Append(mac, cut, user, e).value;
      && Verify(mac, left, user).status.Broken?
      && |History(left, user)| == |History(db, user)|
  {
    CutAppends(mac, db, user, e, last);
    var n, h := db.heads[user].seqNo, db.heads[user].rowHash;
    WalkedPositions(mac, db.logs, user, n, h);
    ChainMembers(db.logs, user);
    CutThenAppend(mac, db, user, last, e.id, e.ToRow(user).Linked(mac, e.id, n + 1, h), n);
    ChainMembers(Append(mac, db.(logs := db.logs - {last}), user, e).value.logs, user);
  }

  /** The table left by the append has as many chained rows as before the cut, with a gap. */
  lemma CutThenAppend(mac: Macs, db: Db, user: Uuid, last: Uuid, id: Uuid, row: Row, n: I64)
    requires last in ChainKeys(db.logs, user, 0) && id !in db.logs && n < I64_MAX
    requires row.userId == user && row.seqNo == Some(n + 1) && n >= 0
    requires forall k :: k in ChainKeys(db.logs, user, 0) ==> db.logs[k].seqNo.value <= n
    requires |ChainKeys(db.logs, user, 0)| == n
    ensures var logs := (db.logs - {last})[id := row];
      && |ChainKeys(logs, user, 0)| == n
      && AllChained(logs, Chain(logs, user))
      && WalkRows(mac, logs, Chain(logs, user)).Stopped?
  {
    var logs := (db.logs - {last})[id := row];
    var keys := ChainKeys(db.logs, user, 0);
    assert ChainKeys(logs, user, 0).Keys == keys.Keys - {last} + {id};
    ChainMembers(logs, user);
    var ids := Chain(logs, user);
    WalkCounts(mac, logs, ids);
    assert id in ids;
    var i :| 0 <= i < |ids| && ids[i] == id;
  }

  lemma LinksExtend(logs: Logs, ids: seq<nat>, id: Uuid, row: Row)
    requires forall i :: 0 <= i < |ids| ==> ids[i] in logs
    requires id !in ids
    ensures forall i :: 0 <= i < |ids + [id]| ==> (ids + [id])[i] in logs[id := row]
    ensures Links(logs[id := row], ids + [id]) == Links(logs, ids) + [Link(id, row)]
  {
  }

  /** No chained row lies beyond the end of a complete walk. */
  lemma WalkBound(mac: Macs, logs: Logs, user: Uuid, n: nat, h: Hash)
    requires AllChained(logs, Chain(logs, user)) && WalkRows(mac, logs, Chain(logs, user)) == At(n, h)
    ensures forall k :: k in ChainKeys(logs, user, 0) ==> logs[k].seqNo.value <= n
  {
    var ids := Chain(logs, user);
    ChainMembers(logs, user);
    WalkCounts(mac, logs, ids);
    forall k | k in ChainKeys(logs, user, 0) ensures logs[k].seqNo.value <= n {
      assert k in ids;
      var i :| 0 <= i < |ids| && ids[i] == k;
    }
  }

  /** After a complete walk, the appended row is simply the next one of the history. */
  lemma AppendHistory(mac: Macs, tip: Tip, user: Uuid, e: Event)
    requires AllChained(tip.db.logs, Chain(tip.db.logs, user)) && tip.seqNo >= 0
    requires WalkRows(mac, tip.db.logs, Chain(tip.db.logs, user)) == At(tip.seqNo, tip.hash)
    requires AppendAt(mac, tip, user, e).Ok?
    ensures History(AppendAt(mac, tip, user, e).value, user)
         == History(tip.db, user) + [Link(e.id, e.ToRow(user).Linked(mac, e.id, tip.seqNo + 1, tip.hash))]
  {
    var logs, ids := tip.db.logs, Chain(tip.db.logs, user);
    var row := e.ToRow(user).Linked(mac, e.id, tip.seqNo + 1, tip.hash);
    WalkBound(mac, logs, user, tip.seqNo, tip.hash);
    InsertChain(logs, user, e.id, row);
    assert e.id !in ids by { ChainMembers(logs, user); }
    LinksExtend(logs, ids, e.id, row);
  }

  ghost predicate LeftSound(t: Trail) {
    forall k :: k in t.ledger ==> (k.user, t.ledger[k]) in t.left
  }

  /**
   * The walk the code itself does before it anonymises: the chained rows lead from the start to the
   * tip that an append would continue.
   */
  ghost predicate ReachesTip(mac: Macs, db: Db, user: Uuid) {
    && ChainTip(mac, db, user).Ok?
    && var tip := ChainTip(mac, db, user).value;
    ChainIsChained(tip.db.logs, user, 0);
    tip.seqNo >= 0 && WalkRows(mac, tip.db.logs, Chain(tip.db.logs, user)) == At(tip.seqNo, tip.hash)
  }

  /** What the verifier says about such a chain: all it can still object to is stray unchained rows. */
  lemma ReachesTipIff(mac: Macs, db: Db, user: Uuid)
    requires ChainTip(mac, db, user).Ok?
    ensures var status := Verify(mac, db, user).status;
      ReachesTip(mac, db, user) <==> (status.Broken? ==> status.reason == UnchainedAfterStart)
  {
    ChainIsChained(db.logs, user, 0);
    StoppedByRow(mac, db.logs, Chain(db.logs, user));
    if user !in db.heads {
      AdoptWalked(mac, db, user);
      NothingToBreak(mac, db, user);
    }
  }

  /** A walk is only ever stopped by a row, never by what is unchained. */
  lemma {:induction false} StoppedByRow(mac: Macs, logs: Logs, ids: seq<nat>)
    requires AllChained(logs, ids)
    ensures WalkRows(mac, logs, ids).Stopped? ==> WalkRows(mac, logs, ids).reason != UnchainedAfterStart
  {
    if ids != [] {
      StoppedByRow(mac, logs, ids[..|ids| - 1]);
    }
  }

  /** The MAC has a collision between these rows and something that has been signed. */
  ghost predicate Collides(mac: Mac, t: Trail, links: seq<Link>) {
    exists k :: k in t.ledger && !NoCollision(mac, links, t.ledger[k])
  }

  /** A chain that reaches its tip is what the tip was signed for. */
  lemma ReachedIsBase(mac: Mac, t: Trail, user: Uuid)
    requires TrailSound(Keyed(mac), t) && ReachesTip(Keyed(mac), t.w.db, user)
    requires !Collides(mac, t, History(t.w.db, user))
    ensures Base(Keyed(mac), t.ledger, t.w.db, user) == History(ChainTip(Keyed(mac), t.w.db, user).value.db, user)
  {
    var macs, db := Keyed(mac), t.w.db;
    var tip := ChainTip(macs, db, user).value;
    if user in db.heads {
      BaseSound(macs, t.ledger, db, user);
      ChainIsChained(db.logs, user, 0);
      WalkCounts(macs, db.logs, Chain(db.logs, user));
      WalkIsHashChain(macs, db.logs, Chain(db.logs, user), tip.hash);
      EncodingTellsApart(mac, History(db, user), t.ledger[Signed(user, tip.seqNo, tip.hash)]);
      SameHashSameRows(macs, History(db, user), Base(macs, t.ledger, db, user), tip.hash);
    }
  }

  /** If the last link of the chain is the row just put at position `n + 1`, the others came before it. */
  lemma RowsBelowLast(mac: Macs, logs: Logs, user: Uuid, id: Uuid, row: Row, h: Hash, n: nat)
    requires id !in logs && row.userId == user && row.seqNo == Some(n + 1)
    requires forall k :: k in logs && logs[k].userId == user ==> logs[k].seqNo != Some(n + 1)
    requires AllChained(logs[id := row], Chain(logs[id := row], user))
    requires WalkRows(mac, logs[id := row], Chain(logs[id := row], user)) == At(n + 1, h)
    ensures Chain(logs[id := row], user) == Chain(logs, user) + [id]
  {
    WalkBound(mac, logs[id := row], user, n + 1, h);
    forall k | k in ChainKeys(logs, user, 0) ensures logs[k].seqNo.value < n + 1 {
      assert k in ChainKeys(logs[id := row], user, 0);
    }
    InsertChain(logs, user, id, row);
  }

  /** Only a chain that reaches its tip is continued in the tables by what is signed. */
  lemma LeftMeansReached(mac: Macs, t: Trail, user: Uuid, e: Event)
    requires TrailSound(mac, t) && Append(mac, t.w.db, user, e).Ok? && user in t.w.db.heads
    requires AppendEntry(mac, t.ledger, t.w.db, user, e).1 == History(Append(mac, t.w.db, user, e).value, user)
    ensures ReachesTip(mac, t.w.db, user)
  {
    var db, after := t.w.db, Append(mac, t.w.db, user, e).value;
    var tip := ChainTip(mac, db, user).value;
    var (head, history) := AppendEntry(mac, t.ledger, db, user, e);
    AppendSigns(mac, t.ledger, db, user, e);
    BaseSound(mac, t.ledger, db, user);
    ChainIsChained(after.logs, user, 0);
    WalkIsHashChain(mac, after.logs, Chain(after.logs, user), head.hash);
    var row := e.ToRow(user).Linked(mac, e.id, tip.seqNo + 1, tip.hash);
    RowsBelowLast(mac, db.logs, user, e.id, row, head.hash, tip.seqNo);
    ChainIsChained(db.logs, user, 0);
    LinksExtend(db.logs, Chain(db.logs, user), e.id, row);
    assert history[..tip.seqNo] == Base(mac, t.ledger, db, user);
    assert History(after, user)[..tip.seqNo] == History(db, user);
    WalkIsHashChain(mac, db.logs, Chain(db.logs, user), tip.hash);
  }

  /** Recording leaves in the tables what it signs exactly when the chain reached the tip before. */
  lemma RecordLeavesIff(mac: Mac, t: Trail, user: Uuid, e: Event)
    requires TrailSound(Keyed(mac), t) && Append(Keyed(mac), t.w.db, user, e).Ok?
    requires !Collides(mac, t, History(t.w.db, user))
    ensures AppendEntry(Keyed(mac), t.ledger, t.w.db, user, e).1
         == History(Append(Keyed(mac), t.w.db, user, e).value, user)
       <==> ReachesTip(Keyed(mac), t.w.db, user)
  {
    var macs, db := Keyed(mac), t.w.db;
    if user !in db.heads {
      AdoptWalked(macs, db, user);
    }
    if ReachesTip(macs, db, user) {
      ReachedIsBase(mac, t, user);
      ChainIsChained(ChainTip(macs, db, user).value.db.logs, user, 0);
      EntryIsHistory(macs, t.ledger, db, user, e);
    } else if AppendEntry(macs, t.ledger, db, user, e).1 == History(Append(macs, db, user, e).value, user) {
      LeftMeansReached(macs, t, user, e);
    }
  }

  /** On a broken chain that is exactly when stray unchained rows are all that is wrong. */
  lemma RecordOnBrokenLeavesIff(mac: Mac, t: Trail, user: Uuid, e: Event)
    requires TrailSound(Keyed(mac), t) && Append(Keyed(mac), t.w.db, user, e).Ok?
    requires !Collides(mac, t, History(t.w.db, user)) && Verify(Keyed(mac), t.w.db, user).status.Broken?
    ensures AppendEntry(Keyed(mac), t.ledger, t.w.db, user, e).1
         == History(Append(Keyed(mac), t.w.db, user, e).value, user)
       <==> Verify(Keyed(mac), t.w.db, user).status.reason == UnchainedAfterStart
  {
    RecordLeavesIff(mac, t, user, e);
    ReachesTipIff(Keyed(mac), t.w.db, user);
  }

  /** So a record keeps every signed history among those left exactly then, or if that one was left before. */
  lemma RecordKeepsLeftIff(mac: Mac, t: Trail, user: Uuid, e: Event)
    requires TrailSound(Keyed(mac), t) && LeftSound(t) && Append(Keyed(mac), t.w.db, user, e).Ok?
    requires !Collides(mac, t, History(t.w.db, user))
    ensures LeftSound(Advance(Keyed(mac), t, Code(RecordAudit(user, e))))
       <==> (|| ReachesTip(Keyed(mac), t.w.db, user)
             || (user, AppendEntry(Keyed(mac), t.ledger, t.w.db, user, e).1) in t.left)
  {
    RecordLeavesIff(mac, t, user, e);
    RecordSigns(Keyed(mac), t, user, e);
    var (head, history) := AppendEntry(Keyed(mac), t.ledger, t.w.db, user, e);
    LeftSoundMore(t, Advance(Keyed(mac), t, Code(RecordAudit(user, e))), head, history);
  }

  lemma RecordSigns(mac: Macs, t: Trail, user: Uuid, e: Event)
    requires Append(mac, t.w.db, user, e).Ok?
    ensures var (head, history) := AppendEntry(mac, t.ledger, t.w.db, user, e);
      var after := Advance(mac, t, Code(RecordAudit(user, e)));
      && head.user == user && after.ledger == t.ledger[head := history]
      && after.left == t.left + {(user, History(Append(mac, t.w.db, user, e).value, user))}
  {
  }

  lemma LeftSoundMore(t: Trail, after: Trail, head: Signed, history: seq<Link>)
    requires LeftSound(t) && after.ledger == t.ledger[head := history] && t.left <= after.left
    ensures LeftSound(after) <==> (head.user, history) in after.left
  {
    assert after.ledger[head] == history;
  }

  /** Tables someone could put in place now, in which the user has an intact chain. */
  ghost predicate CouldVerify(mac: Mac, t: Trail, db: Db, user: Uuid) {
    && HeadsSigned(Keyed(mac), t.ledger, db) && user in db.heads
    && Verify(Keyed(mac), db, user).status == Intact && !Collides(mac, t, History(db, user))
  }

  /** Only the rows of one user's chain, under the head `k`. */
  ghost function OnlyChain(mac: Macs, db: Db, k: Signed): Db {
    Db(map id | id in db.logs && id in ChainKeys(db.logs, k.user, 0) :: db.logs[id],
       map[k.user := Head(k.seqNo, k.hash, mac.head(k.user, k.seqNo, k.hash))])
  }

  lemma OnlyChainHistory(mac: Macs, db: Db, k: Signed)
    ensures var alone := OnlyChain(mac, db, k);
      History(alone, k.user) == History(db, k.user) && LegacyKeys(alone.logs, k.user) == map[]
  {
    var alone := OnlyChain(mac, db, k);
    assert ChainKeys(alone.logs, k.user, 0) == ChainKeys(db.logs, k.user, 0);
    ChainIsChained(db.logs, k.user, 0);
    ChainMembers(alone.logs, k.user);
    assert History(alone, k.user) == History(db, k.user);
  }

  /** A signed history that some tables can hold can be put in place so that it verifies. */
  lemma SignedCouldVerify(mac: Mac, t: Trail, db: Db, k: Signed)
    requires TrailSound(Keyed(mac), t) && k in t.ledger && History(db, k.user) == t.ledger[k]
    requires !Collides(mac, t, t.ledger[k])
    ensures var alone := OnlyChain(Keyed(mac), db, k);
      CouldVerify(mac, t, alone, k.user) && History(alone, k.user) == t.ledger[k]
  {
    OnlyChainHistory(Keyed(mac), db, k);
    HashChainVerifies(Keyed(mac), OnlyChain(Keyed(mac), db, k), k.user, k);
  }

  /**
   * Whatever tables are put in place, an intact chain is one an operation left: exactly when every
   * signed history that any tables can hold is.
   */
  lemma IntactAlwaysLeftIff(mac: Mac, t: Trail)
    requires TrailSound(Keyed(mac), t) && forall k :: k in t.ledger ==> !Collides(mac, t, t.ledger[k])
    ensures (forall db: Db, user: Uuid :: CouldVerify(mac, t, db, user) ==> (user, History(db, user)) in t.left)
       <==> (forall db: Db, k :: k in t.ledger && History(db, k.user) == t.ledger[k] ==>
               (k.user, t.ledger[k]) in t.left)
  {
    if forall db: Db, user: Uuid :: CouldVerify(mac, t, db, user) ==> (user, History(db, user)) in t.left {
      forall db: Db, k | k in t.ledger && History(db, k.user) == t.ledger[k] ensures (k.user, t.ledger[k]) in t.left {
        SignedCouldVerify(mac, t, db, k);
      }
    }
    if forall db: Db, k :: k in t.ledger && History(db, k.user) == t.ledger[k] ==> (k.user, t.ledger[k]) in t.left {
      forall db: Db, user: Uuid | CouldVerify(mac, t, db, user) ensures (user, History(db, user)) in t.left {
        IntactIsSigned(mac, t.(w := t.w.(db := db)), user);
      }
    }
  }

  /** Recording is only attempted on chains that reach their tip, and without a collision. */
  ghost predicate Careful(mac: Mac, t: Trail, step: Step) {
    step.Code? && step.op.RecordAudit? && Append(Keyed(mac), t.w.db, step.op.user, step.op.event).Ok? ==>
      ReachesTip(Keyed(mac), t.w.db, step.op.user) && !Collides(mac, t, History(t.w.db, step.op.user))
  }

  /** A history that hashes to its signed head, with nothing unchained beside it, verifies. */
  lemma HashChainVerifies(mac: Macs, db: Db, user: Uuid, head: Signed)
    requires HashChain(mac, History(db, user), head.hash) && |History(db, user)| == head.seqNo
    requires HeadOf(db, user) == Some(Head(head.seqNo, head.hash, mac.head(user, head.seqNo, head.hash)))
    requires LegacyKeys(db.logs, user) == map[]
    ensures Verify(mac, db, user).status == Intact
  {
    ChainIsChained(db.logs, user, 0);
    WalkIsHashChain(mac, db.logs, Chain(db.logs, user), head.hash);
  }

  /** After an anonymisation the user's chain is walked to its head, or there is nothing chained. */
  lemma AnonymisedWalk(mac: Macs, db: Db, user: Uuid)
    requires Anonymise(mac, db, user).Ok?
    ensures var tip := ChainTip(mac, db, user).value;
      var ids := Chain(tip.db.logs, user);
      var scrubbed := Anonymise(mac, db, user).value.0;
      && AllChained(tip.db.logs, ids) && |ids| == tip.seqNo
      && Chain(scrubbed.logs, user) == ids && AllChained(scrubbed.logs, ids)
      && WalkRows(mac, scrubbed.logs, ids) == At(|ids|, Relink(mac, tip.db.logs, ids).1)
  {
    AnonymiseHeads(mac, db, user);
    var tip := ChainTip(mac, db, user).value;
    var ids := Chain(tip.db.logs, user);
    RelinkedChain(mac, tip.db.logs, user);
    var (relinked, hash) := Relink(mac, tip.db.logs, ids);
    ScrubStrayKeepsChain(mac, relinked, user, ids, hash);
  }

  /** Inside a deletion the append continues the anonymised history. */
  lemma DeleteBase(mac: Macs, t: Trail, user: Uuid)
    requires TrailSound(mac, t) && Anonymise(mac, t.w.db, user).Ok?
    requires ChainTip(mac, Anonymise(mac, t.w.db, user).value.0, user).Ok?
    ensures var scrubbed := Anonymise(mac, t.w.db, user).value.0;
      var tip := ChainTip(mac, scrubbed, user).value;
      && Base(mac, SignAnonymise(mac, t.ledger, t.w.db, user), scrubbed, user) == History(tip.db, user)
      && AllChained(tip.db.logs, Chain(tip.db.logs, user)) && tip.seqNo >= 0
      && WalkRows(mac, tip.db.logs, Chain(tip.db.logs, user)) == At(tip.seqNo, tip.hash)
  {
    var scrubbed := Anonymise(mac, t.w.db, user).value.0;
    AnonymiseHeads(mac, t.w.db, user);
    if user in scrubbed.heads {
      DeleteBaseHeaded(mac, t, user);
    } else {
      AdoptWalked(mac, scrubbed, user);
    }
    ChainIsChained(ChainTip(mac, scrubbed, user).value.db.logs, user, 0);
  }

  lemma DeleteBaseHeaded(mac: Macs, t: Trail, user: Uuid)
    requires TrailSound(mac, t) && Anonymise(mac, t.w.db, user).Ok?
    requires ChainTip(mac, Anonymise(mac, t.w.db, user).value.0, user).Ok?
    requires user in Anonymise(mac, t.w.db, user).value.0.heads
    ensures var scrubbed := Anonymise(mac, t.w.db, user).value.0;
      var tip := ChainTip(mac, scrubbed, user).value;
      && Base(mac, SignAnonymise(mac, t.ledger, t.w.db, user), scrubbed, user) == History(tip.db, user)
      && AllChained(tip.db.logs, Chain(tip.db.logs, user)) && tip.seqNo >= 0
      && WalkRows(mac, tip.db.logs, Chain(tip.db.logs, user)) == At(tip.seqNo, tip.hash)
  {
    AnonymiseHeads(mac, t.w.db, user);
    var logs := ChainTip(mac, t.w.db, user).value.db.logs;
    var ids := Chain(logs, user);
    assert ids != [];
    HeadedTip(mac, Anonymise(mac, t.w.db, user).value.0, user, |ids|, Relink(mac, logs, ids).1);
    AnonymisedWalk(mac, t.w.db, user);
  }

  lemma HeadedTip(mac: Macs, db: Db, user: Uuid, n: I64, hash: Hash)
    requires HeadOf(db, user) == Some(Head(n, hash, mac.head(user, n, hash)))
    ensures ChainTip(mac, db, user) == Ok(Tip(db, n, hash))
  {
  }

  /** An append that continues what is in the tables leaves there what it signs. */
  lemma EntryIsHistory(mac: Macs, ledger: map<Signed, seq<Link>>, db: Db, user: Uuid, e: Event)
    requires Append(mac, db, user, e).Ok?
    requires var tip := ChainTip(mac, db, user).value;
      && Base(mac, ledger, db, user) == History(tip.db, user)
      && AllChained(tip.db.logs, Chain(tip.db.logs, user)) && tip.seqNo >= 0
      && WalkRows(mac, tip.db.logs, Chain(tip.db.logs, user)) == At(tip.seqNo, tip.hash)
    ensures AppendEntry(mac, ledger, db, user, e).1 == History(Append(mac, db, user, e).value, user)
  {
    AppendHistory(mac, ChainTip(mac, db, user).value, user, e);
  }

  /** A deletion leaves in the tables exactly what it signs, whatever it started from. */
  lemma DeleteLeaves(mac: Macs, t: Trail, user: Uuid, e: Event)
    requires TrailSound(mac, t) && Anonymise(mac, t.w.db, user).Ok?
    requires Append(mac, Anonymise(mac, t.w.db, user).value.0, user, e).Ok?
    ensures var scrubbed := Anonymise(mac, t.w.db, user).value.0;
      AppendEntry(mac, SignAnonymise(mac, t.ledger, t.w.db, user), scrubbed, user, e).1
      == History(Append(mac, scrubbed, user, e).value, user)
  {
    DeleteBase(mac, t, user);
    EntryIsHistory(mac, SignAnonymise(mac, t.ledger, t.w.db, user), Anonymise(mac, t.w.db, user).value.0, user, e);
  }

  lemma AdvanceKeepsLeft(mac: Mac, t: Trail, step: Step)
    requires TrailSound(Keyed(mac), t) && LeftSound(t) && Careful(mac, t, step)
    ensures LeftSound(Advance(Keyed(mac), t, step))
  {
    match step
    case Tamper(_) =>
    case Code(RecordAudit(user, e)) =>
      if Append(Keyed(mac), t.w.db, user, e).Ok? {
        RecordKeepsLeftIff(mac, t, user, e);
      }
    case Code(Delete(user, checked, id, now)) =>
      if DeleteAccount(Keyed(mac), t.w.accounts, t.w.db, user, checked, id, now).Ok? {
        DeleteLeaves(Keyed(mac), t, user, DeletionEvent(id, now));
      }
  }

  lemma {:induction false} TraceKeepsLeft(mac: Mac, t: Trail, steps: seq<Step>)
    requires TrailSound(Keyed(mac), t) && LeftSound(t) && AllowedRun(Keyed(mac), t, steps)
    requires forall i :: 0 <= i < |steps| ==> Careful(mac, Trace(Keyed(mac), t, steps[..i]), steps[i])
    ensures LeftSound(Trace(Keyed(mac), t, steps))
  {
    if steps != [] {
      var n := |steps| - 1;
      forall i | 0 <= i < n
        ensures Allowed(Keyed(mac), Trace(Keyed(mac), t, steps[..n][..i]), steps[..n][i])
        ensures Careful(mac, Trace(Keyed(mac), t, steps[..n][..i]), steps[..n][i])
      {
        assert steps[..n][..i] == steps[..i];
      }
      TraceKeepsTrail(Keyed(mac), t, steps[..n]);
      TraceKeepsLeft(mac, t, steps[..n]);
      AdvanceKeepsLeft(mac, Trace(Keyed(mac), t, steps[..n]), steps[n]);
    }
  }

  lemma SignedIsLeft(mac: Mac, t: Trail, user: Uuid)
    requires TrailSound(Keyed(mac), t) && LeftSound(t)
    requires user in t.w.db.heads && Verify(Keyed(mac), t.w.db, user).status == Intact
    requires !Collides(mac, t, History(t.w.db, user))
    ensures (user, History(t.w.db, user)) in t.left
  {
    IntactIsSigned(mac, t, user);
  }

  lemma NothingSignedYet(mac: Macs, w: World)
    requires w.db.heads == map[]
    ensures TrailSound(mac, Trail(w, map[], {})) && LeftSound(Trail(w, map[], {}))
  {
  }

  /**
   * When recording is only attempted on chains that reach their tip, an intact chain with a head is, row for
   * row, a history that an operation of the code itself left in the tables.
   */
  lemma IntactChainWasLeft(mac: Mac, w: World, steps: seq<Step>, t: Trail, user: Uuid)
    requires w.db.heads == map[] && t == Trace(Keyed(mac), Trail(w, map[], {}), steps)
    requires AllowedRun(Keyed(mac), Trail(w, map[], {}), steps)
    requires forall i :: 0 <= i < |steps| ==> Careful(mac, Trace(Keyed(mac), Trail(w, map[], {}), steps[..i]), steps[i])
    requires user in t.w.db.heads && Verify(Keyed(mac), t.w.db, user).status == Intact
    requires !Collides(mac, t, History(t.w.db, user))
    ensures (user, History(t.w.db, user)) in t.left
  {
    NothingSignedYet(Keyed(mac), w);
    TraceKeepsTrail(Keyed(mac), Trail(w, map[], {}), steps);
    TraceKeepsLeft(mac, Trail(w, map[], {}), steps);
    SignedIsLeft(mac, t, user);
  }
}
