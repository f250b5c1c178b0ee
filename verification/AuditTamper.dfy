/** What verification proves about rows that someone else may have edited. */
module AuditTamper {
  import opened Wrappers
  import opened Bytes
  import opened AuditEncoding
  import opened Ordering
  import opened AuditChain
  import opened AuditWalk
  import opened AuditHealth
  import opened AuditRuns

  // --- broken stays broken ----------------------------------------------------------------------

  /** Unchained rows next to a head always break the chain. */
  lemma UnchainedBreaks(mac: Macs, db: Db, user: Uuid)
    requires user in db.heads && LegacyKeys(db.logs, user).Keys != {}
    ensures Verify(mac, db, user).status.Broken?
  {
    assert |LegacyKeys(db.logs, user).Keys| != 0;
  }

  /** Without a head and without chained rows there is nothing to be broken. */
  lemma NothingToBreak(mac: Macs, db: Db, user: Uuid)
    requires user !in db.heads && !HasChainedRow(db.logs, user)
    ensures !Verify(mac, db, user).status.Broken?
  {
    ChainMembers(db.logs, user);
    assert ChainKeys(db.logs, user, 0) == map[];
  }

  /** A broken chain that an operation does not refuse is one whose head still verifies. */
  lemma BrokenTip(mac: Macs, db: Db, user: Uuid)
    requires Verify(mac, db, user).status.Broken? && ChainTip(mac, db, user).Ok?
    ensures user in db.heads
    ensures var tip := ChainTip(mac, db, user).value;
      && tip.db == db && HeadVerified(mac, user, db.heads[user]) == Some((tip.seqNo, tip.hash))
  {
    if user !in db.heads && !HasChainedRow(db.logs, user) {
      NothingToBreak(mac, db, user);
    }
  }

  /** The new row lands below a chained row: the head it writes cannot be the last row. */
  lemma AppendBelow(mac: Macs, logs: Logs, heads: map<Uuid, Head>, user: Uuid, s: I64, h: Hash, k: nat)
    requires user in heads && HeadVerified(mac, user, heads[user]) == Some((s, h))
    requires k in ChainKeys(logs, user, 0) && logs[k].seqNo.value > s
    ensures Verify(mac, Db(logs, heads), user).status.Broken?
  {
    var ids := Chain(logs, user);
    ChainMembers(logs, user);
    WalkCounts(mac, logs, ids);
    var i :| 0 <= i < |ids| && ids[i] == k;
  }

  /** The new row lands last but does not continue the walk: the walk breaks at it or before. */
  lemma AppendAbove(mac: Macs, logs: Logs, user: Uuid, id: Uuid, row: Row)
    requires id !in logs && row.userId == user && row.seqNo.Some? && row.seqNo.value > 0
    requires forall k :: k in ChainKeys(logs, user, 0) ==> logs[k].seqNo.value < row.seqNo.value
    requires AllChained(logs, Chain(logs, user))
    requires var walk := WalkRows(mac, logs, Chain(logs, user));
      walk.Stopped? || row.seqNo.value != walk.last + 1 || ToHash(row.prevHash) != Some(walk.prev)
    ensures AllChained(logs[id := row], Chain(logs[id := row], user))
    ensures WalkRows(mac, logs[id := row], Chain(logs[id := row], user)).Stopped?
  {
    var ids := Chain(logs, user);
    ChainMembers(logs, user);
    InsertChain(logs, user, id, row);
    assert id !in ids;
    WalkFrame(mac, logs, logs[id := row], ids);
    ChainIsChained(logs[id := row], user, 0);
    assert (ids + [id])[..|ids|] == ids;
  }

  /** A legacy row is still a legacy row after an append, and breaks the chain as before. */
  lemma LegacyStaysBroken(mac: Macs, db: Db, after: Db, user: Uuid, id: Uuid, row: Row)
    requires LegacyKeys(db.logs, user).Keys != {} && user in after.heads
    requires id !in db.logs && after.logs == db.logs[id := row]
    ensures Verify(mac, after, user).status.Broken?
  {
    var k :| k in LegacyKeys(db.logs, user).Keys;
    assert k in LegacyKeys(after.logs, user).Keys;
    UnchainedBreaks(mac, after, user);
  }

  /** With every chained row at or below the tip, the row appended there cannot complete a broken walk. */
  lemma AppendAtEndBreaks(mac: Macs, tip: Tip, user: Uuid, id: Uuid, row: Row)
    requires Verify(mac, tip.db, user).status.Broken? && LegacyKeys(tip.db.logs, user).Keys == {}
    requires user in tip.db.heads && HeadVerified(mac, user, tip.db.heads[user]) == Some((tip.seqNo, tip.hash))
    requires id !in tip.db.logs && row.userId == user && row.prevHash == Some(tip.hash)
    requires 0 <= tip.seqNo < I64_MAX && row.seqNo == Some(tip.seqNo + 1)
    requires forall k :: k in ChainKeys(tip.db.logs, user, 0) ==> tip.db.logs[k].seqNo.value < tip.seqNo + 1
    ensures AllChained(tip.db.logs[id := row], Chain(tip.db.logs[id := row], user))
    ensures WalkRows(mac, tip.db.logs[id := row], Chain(tip.db.logs[id := row], user)).Stopped?
  {
    var logs := tip.db.logs;
    ChainMembers(logs, user);
    WalkCounts(mac, logs, Chain(logs, user));
    AppendAbove(mac, logs, user, id, row);
  }

  lemma AppendAtNeverMends(mac: Macs, tip: Tip, user: Uuid, e: Event)
    requires Verify(mac, tip.db, user).status.Broken?
    requires user in tip.db.heads && HeadVerified(mac, user, tip.db.heads[user]) == Some((tip.seqNo, tip.hash))
    requires AppendAt(mac, tip, user, e).Ok?
    ensures Verify(mac, AppendAt(mac, tip, user, e).value, user).status.Broken?
  {
    var logs, after := tip.db.logs, AppendAt(mac, tip, user, e).value;
    var row := e.ToRow(user).Linked(mac, e.id, tip.seqNo + 1, tip.hash);
    assert after.logs == logs[e.id := row];
    if LegacyKeys(logs, user).Keys != {} {
      LegacyStaysBroken(mac, tip.db, after, user, e.id, row);
    } else if k :| k in ChainKeys(logs, user, 0) && logs[k].seqNo.value > tip.seqNo + 1 {
      AppendBelow(mac, after.logs, after.heads, user, tip.seqNo + 1, row.rowHash.value, k);
    } else {
      AppendAtEndBreaks(mac, tip, user, e.id, row);
    }
  }

  /** No append turns a broken chain into one that verifies, whatever the tables hold. */
  lemma AppendNeverMends(mac: Macs, db: Db, user: Uuid, e: Event)
    requires Verify(mac, db, user).status.Broken? && Append(mac, db, user, e).Ok?
    ensures Verify(mac, Append(mac, db, user, e).value, user).status.Broken?
  {
    BrokenTip(mac, db, user);
    AppendAtNeverMends(mac, ChainTip(mac, db, user).value, user, e);
  }

  /** A walk that ends at a verified head leaves unchained rows as the only possible damage. */
  lemma OnlyUnchainedLeft(mac: Macs, db: Db, user: Uuid)
    requires Verify(mac, db, user).status.Broken? && Anonymise(mac, db, user).Ok?
    ensures user in db.heads && LegacyKeys(db.logs, user).Keys != {}
  {
    BrokenTip(mac, db, user);
    ChainMembers(db.logs, user);
    WalkCounts(mac, db.logs, Chain(db.logs, user));
  }

  /** Rewriting keeps unchained rows unchained. */
  lemma RewriteKeepsLegacy(mac: Macs, db: Db, user: Uuid, id: nat)
    requires id in LegacyKeys(db.logs, user) && |Chain(db.logs, user)| <= I64_MAX
    requires AllChained(db.logs, Chain(db.logs, user))
    ensures id in LegacyKeys(Rewrite(mac, db, user, Chain(db.logs, user)).0.logs, user)
  {
    var ids := Chain(db.logs, user);
    ChainMembers(db.logs, user);
    assert id !in ids;
    LinkInOrderFrame(mac, Scrub(db.logs, Elements(ids)), ids);
  }

  /** No anonymisation turns a broken chain into one that verifies, whatever the tables hold. */
  lemma AnonymiseNeverMends(mac: Macs, db: Db, user: Uuid)
    requires Verify(mac, db, user).status.Broken? && Anonymise(mac, db, user).Ok?
    ensures Verify(mac, Anonymise(mac, db, user).value.0, user).status.Broken?
  {
    OnlyUnchainedLeft(mac, db, user);
    BrokenTip(mac, db, user);
    ChainMembers(db.logs, user);
    WalkCounts(mac, db.logs, Chain(db.logs, user));
    var id :| id in LegacyKeys(db.logs, user).Keys;
    RewriteKeepsLegacy(mac, db, user, id);
    UnchainedBreaks(mac, Anonymise(mac, db, user).value.0, user);
  }

  // --- operations on other users ----------------------------------------------------------------

  /** `b` keeps every row of `user` as it is in `a`, adds none, and keeps the head. */
  ghost predicate SameFor(a: Db, b: Db, user: Uuid) {
    && (forall id :: id in a.logs && a.logs[id].userId == user ==> id in b.logs && b.logs[id] == a.logs[id])
    && (forall id :: id in b.logs && b.logs[id].userId == user ==> id in a.logs && a.logs[id] == b.logs[id])
    && HeadOf(a, user) == HeadOf(b, user)
  }

  lemma {:induction false} LinkInOrderUsers(mac: Macs, logs: Logs, ids: seq<nat>)
    requires |ids| <= I64_MAX && forall i :: 0 <= i < |ids| ==> ids[i] in logs
    ensures LinkInOrder(mac, logs, ids).0.Keys == logs.Keys
    ensures forall id :: id in logs ==> LinkInOrder(mac, logs, ids).0[id].userId == logs[id].userId
  {
    if ids != [] {
      LinkInOrderUsers(mac, logs, ids[..|ids| - 1]);
    }
  }

  lemma TipSameForOthers(mac: Macs, db: Db, user: Uuid, other: Uuid)
    requires other != user && ChainTip(mac, db, user).Ok?
    ensures SameFor(db, ChainTip(mac, db, user).value.db, other)
  {
    if user !in db.heads {
      var keys := LegacyKeys(db.logs, user);
      SortedInLogs(db.logs, keys);
      SortedIsListing(keys);
      forall i | 0 <= i < |Sorted(keys)| ensures Sorted(keys)[i] in keys {
        assert Sorted(keys)[i] in Sorted(keys);
      }
      LinkSameForOthers(mac, db, user, Sorted(keys), other);
    }
  }

  lemma LinkSameForOthers(mac: Macs, db: Db, user: Uuid, ids: seq<nat>, other: Uuid)
    requires other != user && |ids| <= I64_MAX
    requires forall i :: 0 <= i < |ids| ==> ids[i] in db.logs && db.logs[ids[i]].userId == user
    ensures SameFor(db, db.(logs := LinkInOrder(mac, db.logs, ids).0), other)
  {
    LinkInOrderUsers(mac, db.logs, ids);
    LinkInOrderFrame(mac, db.logs, ids);
  }

  lemma AppendSameForOthers(mac: Macs, db: Db, user: Uuid, e: Event, other: Uuid)
    requires other != user && Append(mac, db, user, e).Ok?
    ensures SameFor(db, Append(mac, db, user, e).value, other)
  {
    TipSameForOthers(mac, db, user, other);
  }

  lemma RelinkSameForOthers(mac: Macs, db: Db, user: Uuid, ids: seq<nat>, other: Uuid)
    requires other != user && |ids| <= I64_MAX
    requires forall i :: 0 <= i < |ids| ==> ids[i] in db.logs && db.logs[ids[i]].userId == user
    ensures SameFor(db, db.(logs := Relink(mac, db.logs, ids).0), other)
  {
    var scrubbed := Scrub(db.logs, Elements(ids));
    LinkInOrderUsers(mac, scrubbed, ids);
    LinkInOrderFrame(mac, scrubbed, ids);
    assert forall id :: id in db.logs && id !in ids ==> scrubbed[id] == db.logs[id];
  }

  lemma RewriteSameForOthers(mac: Macs, db: Db, user: Uuid, ids: seq<nat>, other: Uuid)
    requires other != user && |ids| <= I64_MAX
    requires forall i :: 0 <= i < |ids| ==> ids[i] in db.logs && db.logs[ids[i]].userId == user
    ensures SameFor(db, Rewrite(mac, db, user, ids).0, other)
  {
    RelinkSameForOthers(mac, db, user, ids, other);
  }

  lemma AnonymiseSameForOthers(mac: Macs, db: Db, user: Uuid, other: Uuid)
    requires other != user && Anonymise(mac, db, user).Ok?
    ensures SameFor(db, Anonymise(mac, db, user).value.0, other)
  {
    TipSameForOthers(mac, db, user, other);
    var tip := ChainTip(mac, db, user).value;
    ChainMembers(tip.db.logs, user);
    RewriteSameForOthers(mac, tip.db, user, Chain(tip.db.logs, user), other);
    SameForTransitive(db, tip.db, Anonymise(mac, db, user).value.0, other);
  }

  lemma SameForTransitive(a: Db, b: Db, c: Db, user: Uuid)
    requires SameFor(a, b, user) && SameFor(b, c, user)
    ensures SameFor(a, c, user)
  {
  }

  /** One operation never mends anyone's broken chain. */
  lemma ApplyNeverMends(mac: Macs, w: World, op: Op, user: Uuid)
    requires Verify(mac, w.db, user).status.Broken?
    ensures Verify(mac, Apply(mac, w, op).db, user).status.Broken?
  {
    match op
    case RecordAudit(u, e) =>
      if Append(mac, w.db, u, e).Ok? {
        AppendKeepsBroken(mac, w.db, u, e, user);
      }
    case Delete(u, checked, id, now) =>
      if DeleteAccount(mac, w.accounts, w.db, u, checked, id, now).Ok? {
        AnonymiseKeepsBroken(mac, w.db, u, user);
        AppendKeepsBroken(mac, Anonymise(mac, w.db, u).value.0, u, DeletionEvent(id, now), user);
      }
  }

  lemma AppendKeepsBroken(mac: Macs, db: Db, u: Uuid, e: Event, user: Uuid)
    requires Verify(mac, db, user).status.Broken? && Append(mac, db, u, e).Ok?
    ensures Verify(mac, Append(mac, db, u, e).value, user).status.Broken?
  {
    if u == user {
      AppendNeverMends(mac, db, user, e);
    } else {
      AppendSameForOthers(mac, db, u, e, user);
      VerifyFrame(mac, db, Append(mac, db, u, e).value, user);
    }
  }

  lemma AnonymiseKeepsBroken(mac: Macs, db: Db, u: Uuid, user: Uuid)
    requires Verify(mac, db, user).status.Broken? && Anonymise(mac, db, u).Ok?
    ensures Verify(mac, Anonymise(mac, db, u).value.0, user).status.Broken?
  {
    if u == user {
      AnonymiseNeverMends(mac, db, user);
    } else {
      AnonymiseSameForOthers(mac, db, u, user);
      VerifyFrame(mac, db, Anonymise(mac, db, u).value.0, user);
    }
  }

  /** Over any run, from any tables: a chain found broken stays broken for good. */
  lemma {:induction false} RunNeverMends(mac: Macs, w: World, ops: seq<Op>, user: Uuid)
    requires Verify(mac, w.db, user).status.Broken?
    ensures Verify(mac, Run(mac, w, ops).db, user).status.Broken?
  {
    if ops != [] {
      RunNeverMends(mac, w, ops[..|ops| - 1], user);
      ApplyNeverMends(mac, Run(mac, w, ops[..|ops| - 1]), ops[|ops| - 1], user);
    }
  }
}
