/** What recording, anonymising and deleting write, column by column, on whatever tables. */
module AuditColumns {
  import opened Wrappers
  import opened Bytes
  import opened AuditEncoding
  import opened AuditChain
  import opened AuditWalk
  import opened AuditHealth
  import opened AuditLedger
  import opened AuditProvenance

  /** The recorded row, column by column, on whatever tables: what the caller gave, placed after the tip. */
  lemma RecordedRow(mac: Macs, db: Db, user: Uuid, e: Event)
    requires Append(mac, db, user, e).Ok?
    ensures var after := Append(mac, db, user, e).value;
      && e.id !in db.logs && e.id in after.logs && user in after.heads
      && var (row, head, tip) := (after.logs[e.id], after.heads[user], ChainTip(mac, db, user).value);
      && row.userId == user && row.action == e.action && row.category == e.category
      && row.target == e.target && row.ipAddress == e.ipAddress && row.createdAt == e.createdAt
      && row.seqNo == Some(tip.seqNo + 1) && row.prevHash == Some(tip.hash)
      && row.rowHash == Some(mac.row(tip.hash, LinkFields(e.id, user, tip.seqNo + 1, e.action, e.category, e.target,
                                                          e.ipAddress, e.createdAt)))
      && head.seqNo == tip.seqNo + 1 && row.rowHash == Some(head.rowHash)
      && head.headMac == mac.head(user, head.seqNo, row.rowHash.value)
  {
    if user !in db.heads {
      AdoptShape(mac, db, user);
    }
  }

  /** A user's first row is the first of the chain and links to 32 zero bytes. */
  lemma FirstRow(mac: Macs, db: Db, user: Uuid, e: Event)
    requires Append(mac, db, user, e).Ok? && user !in db.heads
    requires forall id :: id in db.logs ==> db.logs[id].userId != user
    ensures var row := Append(mac, db, user, e).value.logs[e.id];
      row.seqNo == Some(1) && row.prevHash == Some(seq(32, _ => 0))
  {
    assert LegacyKeys(db.logs, user) == map[];
    var zeros: Bytes := seq(32, _ => 0);
    assert GENESIS_PREV_HASH == zeros;
  }

  /** The table's CHECK on positions. */
  ghost predicate Positive(logs: Logs) {
    forall id :: id in logs && logs[id].seqNo.Some? ==> logs[id].seqNo.value >= 1
  }

  /** Nothing but the chain columns and the two personal ones differs. */
  predicate SameEvent(a: Row, b: Row) {
    a.userId == b.userId && a.action == b.action && a.category == b.category && a.createdAt == b.createdAt
  }

  /** Rows whose two personal columns are to be nulled: those of the chain, and strays that carry one. */
  ghost function Personal(logs: Logs, user: Uuid): set<nat> {
    set id | id in logs.Keys && logs[id].userId == user
             && (logs[id].seqNo.Some? || logs[id].target.Some? || logs[id].ipAddress.Some?)
  }

  /** A relinked row: the same event, in a chain, with its personal columns nulled. */
  predicate Nulled(after: Row, before: Row) {
    SameEvent(after, before) && after.target == None && after.ipAddress == None && after.seqNo.Some?
  }

  lemma RelinkedRow(mac: Macs, logs: Logs, ids: seq<nat>, i: nat)
    requires |ids| <= I64_MAX && (forall k :: 0 <= k < |ids| ==> ids[k] in logs) && Distinct(ids) && i < |ids|
    ensures var relinked := Relink(mac, logs, ids).0; ids[i] in relinked && Nulled(relinked[ids[i]], logs[ids[i]])
  {
    var scrubbed := Scrub(logs, Elements(ids));
    LinkInOrderShape(mac, scrubbed, ids);
    assert ids[i] in Elements(ids) && scrubbed[ids[i]] == logs[ids[i]].Scrubbed();
    assert Content(Relink(mac, logs, ids).0[ids[i]]) == Content(scrubbed[ids[i]]);
  }

  lemma RelinkFrame(mac: Macs, logs: Logs, ids: seq<nat>)
    requires |ids| <= I64_MAX && (forall k :: 0 <= k < |ids| ==> ids[k] in logs) && Distinct(ids)
    ensures var relinked := Relink(mac, logs, ids).0;
      relinked.Keys == logs.Keys && forall id :: id in logs && id !in ids ==> relinked[id] == logs[id]
  {
    LinkInOrderShape(mac, Scrub(logs, Elements(ids)), ids);
  }

  /** The chained rows are nulled, and the others are as they were. */
  lemma RelinkColumns(mac: Macs, logs: Logs, user: Uuid)
    requires AllChained(logs, Chain(logs, user)) && |Chain(logs, user)| <= I64_MAX
    ensures var ids := Chain(logs, user);
      var relinked := Relink(mac, logs, ids).0;
      && relinked.Keys == logs.Keys
      && (forall id :: id in ids ==> id in logs && logs[id].userId == user && Nulled(relinked[id], logs[id]))
      && (forall id :: id in logs && id !in ids ==> relinked[id] == logs[id])
  {
    var ids := Chain(logs, user);
    ChainMembers(logs, user);
    RelinkFrame(mac, logs, ids);
    var relinked := Relink(mac, logs, ids).0;
    forall id | id in ids ensures id in logs && logs[id].userId == user && Nulled(relinked[id], logs[id]) {
      var i :| 0 <= i < |ids| && ids[i] == id;
      RelinkedRow(mac, logs, ids, i);
    }
  }

  /** Of rows whose chain is nulled, the strays remain. */
  lemma StrayColumns(logs: Logs, relinked: Logs, user: Uuid, ids: seq<nat>)
    requires relinked.Keys == logs.Keys
    requires forall id :: id in ids ==> id in logs && logs[id].userId == user && Nulled(relinked[id], logs[id])
    requires forall id :: id in logs && id !in ids ==> relinked[id] == logs[id]
    requires forall id :: id in logs && logs[id].userId == user && logs[id].seqNo.Some? ==> id in ids
    ensures var after := Scrub(relinked, Stray(relinked, user));
      && after.Keys == logs.Keys
      && (forall id :: id in logs ==> SameEvent(after[id], logs[id]))
      && (forall id :: id in logs && logs[id].userId == user ==>
            after[id].target == None && after[id].ipAddress == None)
      && (forall id :: id in logs && logs[id].userId != user ==> after[id] == logs[id])
  {
    var after := Scrub(relinked, Stray(relinked, user));
    forall id | id in logs
      ensures SameEvent(after[id], logs[id])
      ensures logs[id].userId == user ==> after[id].target == None && after[id].ipAddress == None
      ensures logs[id].userId != user ==> after[id] == logs[id]
    {
      assert id in Stray(relinked, user) ==> after[id] == relinked[id].Scrubbed();
      assert id !in Stray(relinked, user) ==> after[id] == relinked[id];
    }
  }

  lemma IsStray(logs: Logs, user: Uuid, id: nat)
    ensures id in Stray(logs, user) <==>
      && id in logs && logs[id].userId == user && logs[id].seqNo.None?
      && (logs[id].target.Some? || logs[id].ipAddress.Some?)
  {
    assert id in LegacyKeys(logs, user) <==> id in logs && logs[id].userId == user && logs[id].seqNo.None?;
  }

  lemma PersonalCount(logs: Logs, relinked: Logs, user: Uuid, ids: seq<nat>, chained: set<nat>)
    requires relinked.Keys == logs.Keys && (forall id :: id in chained <==> id in ids) && |chained| == |ids|
    requires forall id :: id in ids <==> id in logs && logs[id].userId == user && logs[id].seqNo.Some?
    requires forall id :: id in logs && id !in ids ==> relinked[id] == logs[id]
    requires forall id :: id in ids ==> id in logs && relinked[id].seqNo.Some?
    ensures |ids| + |Stray(relinked, user)| == |Personal(logs, user)|
  {
    var stray := Stray(relinked, user);
    forall id: nat ensures id in Personal(logs, user) <==> id in chained + stray {
      IsStray(relinked, user, id);
    }
    assert chained !! stray by {
      forall id | id in chained ensures id !in stray {
        IsStray(relinked, user, id);
      }
    }
    assert Personal(logs, user) == chained + stray;
  }

  lemma RewriteColumns(mac: Macs, db: Db, user: Uuid)
    requires Positive(db.logs) && AllChained(db.logs, Chain(db.logs, user)) && |Chain(db.logs, user)| <= I64_MAX
    ensures var (after, count) := Rewrite(mac, db, user, Chain(db.logs, user));
      && after.logs.Keys == db.logs.Keys && count == |Personal(db.logs, user)|
      && (forall id :: id in db.logs ==> SameEvent(after.logs[id], db.logs[id]))
      && (forall id :: id in db.logs && db.logs[id].userId == user ==>
            after.logs[id].target == None && after.logs[id].ipAddress == None)
      && (forall id :: id in db.logs && db.logs[id].userId != user ==> after.logs[id] == db.logs[id])
  {
    var logs, ids := db.logs, Chain(db.logs, user);
    ChainMembers(logs, user);
    RelinkColumns(mac, logs, user);
    var relinked := Relink(mac, logs, ids).0;
    forall id | id in logs && logs[id].userId == user && logs[id].seqNo.Some? ensures id in ids {
      assert id in ChainKeys(logs, user, 0);
    }
    StrayColumns(logs, relinked, user, ids);
    PersonalCount(logs, relinked, user, ids, ChainKeys(logs, user, 0).Keys);
  }

  /**
   * Whatever the tables hold, an anonymisation that succeeds nulls both personal columns of every row of the
   * user and changes nothing else that is not of the chain; it counts the chained rows and the strays it nulled.
   */
  lemma AnonymisedColumns(mac: Macs, db: Db, user: Uuid)
    requires Positive(db.logs) && Anonymise(mac, db, user).Ok?
    ensures var (after, count) := Anonymise(mac, db, user).value;
      && after.logs.Keys == db.logs.Keys
      && count == (if user in db.heads then |Personal(db.logs, user)| else |UserIds(db.logs, user)|)
      && (forall id :: id in db.logs ==> SameEvent(after.logs[id], db.logs[id]))
      && (forall id :: id in db.logs && db.logs[id].userId == user ==>
            after.logs[id].target == None && after.logs[id].ipAddress == None)
      && (forall id :: id in db.logs && db.logs[id].userId != user ==> after.logs[id] == db.logs[id])
  {
    AnonymiseHeads(mac, db, user);
    var tip := ChainTip(mac, db, user).value;
    if user !in db.heads {
      AdoptShape(mac, db, user);
      AdoptedColumns(mac, db, user);
    }
    RewriteColumns(mac, tip.db, user);
  }

  lemma AdoptedColumns(mac: Macs, db: Db, user: Uuid)
    requires Positive(db.logs) && LegacyOnly(db, user) && AdoptLegacyRows(mac, db, user).Ok?
    ensures var logs := AdoptLegacyRows(mac, db, user).value.db.logs;
      && Positive(logs) && logs.Keys == db.logs.Keys && Personal(logs, user) == UserIds(db.logs, user)
      && (forall id :: id in db.logs ==> SameEvent(logs[id], db.logs[id]))
      && (forall id :: id in db.logs && db.logs[id].userId != user ==> logs[id] == db.logs[id])
  {
    AdoptShape(mac, db, user);
    var logs, ids := AdoptLegacyRows(mac, db, user).value.db.logs, Ordering.Sorted(LegacyKeys(db.logs, user));
    forall id | id in db.logs ensures SameEvent(logs[id], db.logs[id]) {
      assert Content(logs[id]) == Content(db.logs[id]);
    }
    forall id | id in ids ensures id in logs && logs[id].seqNo.Some? && logs[id].seqNo.value >= 1 {
      var i :| 0 <= i < |ids| && ids[i] == id;
    }
  }

  /** The row a deletion leaves about itself. */
  lemma DeletionRow(mac: Macs, accounts: Accounts, db: Db, user: Uuid, checked: seq<Uuid>, id: Uuid, now: I64)
    requires DeleteAccount(mac, accounts, db, user, checked, id, now).Ok?
    ensures var (after, trail, count) := DeleteAccount(mac, accounts, db, user, checked, id, now).value;
      && after == Accounts(accounts.users[user := true], accounts.wallets)
      && id !in db.logs && id in trail.logs
      && var row := trail.logs[id];
      && row.userId == user && row.action == Ascii("deleted their account") && row.category == Ascii("authentication")
      && row.target == None && row.ipAddress == None && row.createdAt == now
      && Anonymise(mac, db, user).Ok? && count == Anonymise(mac, db, user).value.1
  {
    AnonymiseHeads(mac, db, user);
    RecordedRow(mac, Anonymise(mac, db, user).value.0, user, DeletionEvent(id, now));
    RewriteHistory(mac, ChainTip(mac, db, user).value.db, user);
    DeletionWords();
    assert Anonymise(mac, db, user).value.0.logs.Keys == db.logs.Keys by {
      SameKeys(mac, db, user);
    }
  }

  lemma DeletionWords()
    ensures DELETED_ACTION == Ascii("deleted their account") && AUTH_CATEGORY == Ascii("authentication")
  {
  }

  lemma SameKeys(mac: Macs, db: Db, user: Uuid)
    requires Anonymise(mac, db, user).Ok?
    ensures Anonymise(mac, db, user).value.0.logs.Keys == db.logs.Keys
  {
    AnonymiseHeads(mac, db, user);
    var tip := ChainTip(mac, db, user).value;
    assert tip.db.logs.Keys == db.logs.Keys by {
      if user !in db.heads {
        AdoptShape(mac, db, user);
      }
    }
    RewriteKeys(mac, tip.db, user);
  }

  lemma RewriteKeys(mac: Macs, db: Db, user: Uuid)
    requires AllChained(db.logs, Chain(db.logs, user)) && |Chain(db.logs, user)| <= I64_MAX
    ensures Rewrite(mac, db, user, Chain(db.logs, user)).0.logs.Keys == db.logs.Keys
  {
    RelinkColumns(mac, db.logs, user);
  }
}
