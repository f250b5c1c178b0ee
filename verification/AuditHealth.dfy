/** Starting from legacy rows only, every run of audit operations leaves every chain intact. */
module AuditHealth {
  import opened Wrappers
  import opened Bytes
  import opened AuditEncoding
  import opened Ordering
  import opened AuditChain
  import opened AuditWalk

  ghost function UserIds(logs: Logs, user: Uuid): set<nat> {
    set id | id in logs && logs[id].userId == user
  }

  /** Every row of the user is chained, and the chain walks to position `n` with hash `h`. */
  ghost predicate Walked(mac: Macs, logs: Logs, user: Uuid, n: int, h: Hash) {
    ChainIsChained(logs, user, 0);
    && (forall id :: id in logs && logs[id].userId == user ==> id in ChainKeys(logs, user, 0))
    && n >= 0
    && WalkRows(mac, logs, Chain(logs, user)) == At(n, h)
  }

  /** The user has a head, and the whole of the user's history walks to exactly that head. */
  ghost predicate Pinned(mac: Macs, db: Db, user: Uuid) {
    && user in db.heads
    && var head := db.heads[user];
    && |head.rowHash| == 32
    && head.headMac == mac.head(user, head.seqNo, head.rowHash)
    && Walked(mac, db.logs, user, head.seqNo, head.rowHash)
  }

  ghost predicate LegacyOnly(db: Db, user: Uuid) {
    user !in db.heads && !HasChainedRow(db.logs, user)
  }

  ghost predicate Healthy(mac: Macs, db: Db) {
    && UniqueSeq(db.logs)
    && forall user: Uuid :: LegacyOnly(db, user) || Pinned(mac, db, user)
  }

  /** `b` differs from `a` only in rows of `user`, none of which disappear. */
  ghost predicate OnlyUser(a: Logs, b: Logs, user: Uuid) {
    && a.Keys <= b.Keys
    && (forall id :: id in a ==> b[id].userId == a[id].userId)
    && (forall id :: id in a && a[id].userId != user ==> b[id] == a[id])
    && (forall id :: id in b && id !in a ==> b[id].userId == user)
  }

  /** A pinned user verifies as intact, over all of their rows. */
  lemma PinnedVerifies(mac: Macs, db: Db, user: Uuid)
    requires Pinned(mac, db, user)
    ensures Verify(mac, db, user) == Report(|UserIds(db.logs, user)|, 0, Intact)
  {
    assert LegacyKeys(db.logs, user) == map[];
    ChainMembers(db.logs, user);
    WalkCounts(mac, db.logs, Chain(db.logs, user));
    assert UserIds(db.logs, user) == ChainKeys(db.logs, user, 0).Keys;
  }

  // --- adoption ---------------------------------------------------------------------------------

  /** Adoption numbers the user's legacy rows from 1 and changes nothing else about anyone. */
  lemma AdoptShape(mac: Macs, db: Db, user: Uuid)
    requires LegacyOnly(db, user) && AdoptLegacyRows(mac, db, user).Ok?
    ensures var tip := AdoptLegacyRows(mac, db, user).value;
      var ids := Sorted(LegacyKeys(db.logs, user));
      && tip.db.heads == db.heads
      && tip.db.logs.Keys == db.logs.Keys
      && (forall id :: id in db.logs ==> Content(tip.db.logs[id]) == Content(db.logs[id]))
      && (forall id :: id in db.logs ==> (db.logs[id].userId == user <==> id in ids))
      && (forall id :: id in db.logs && id !in ids ==> tip.db.logs[id] == db.logs[id])
      && (forall i :: 0 <= i < |ids| ==> ids[i] in tip.db.logs && tip.db.logs[ids[i]].seqNo == Some(i + 1))
  {
    var keys := LegacyKeys(db.logs, user);
    var ids := Sorted(keys);
    SortedIsListing(keys);
    SortedInLogs(db.logs, keys);
    LinkInOrderShape(mac, db.logs, ids);
    forall id | id in db.logs ensures db.logs[id].userId == user <==> id in ids {
      assert id in ids <==> id in keys;
    }
  }

  /** After adoption the user's whole history walks to the tip. */
  lemma AdoptWalked(mac: Macs, db: Db, user: Uuid)
    requires LegacyOnly(db, user) && AdoptLegacyRows(mac, db, user).Ok?
    ensures var tip := AdoptLegacyRows(mac, db, user).value;
      Walked(mac, tip.db.logs, user, tip.seqNo, tip.hash)
  {
    var ids := Sorted(LegacyKeys(db.logs, user));
    SortedIsListing(LegacyKeys(db.logs, user));
    SortedInLogs(db.logs, LegacyKeys(db.logs, user));
    AdoptShape(mac, db, user);
    LinkInOrderWalks(mac, db.logs, ids);
    var logs := AdoptLegacyRows(mac, db, user).value.db.logs;
    forall id | id in logs ensures logs[id].userId == user <==> id in ids {
      assert Content(logs[id]) == Content(db.logs[id]);
    }
    forall i | 0 <= i < |ids| ensures logs[ids[i]].userId == user {
      assert ids[i] in ids;
    }
    PositionsAreChain(logs, user, ids);
    ChainMembers(logs, user);
  }

  lemma AdoptKeepsIndex(mac: Macs, db: Db, user: Uuid)
    requires LegacyOnly(db, user) && UniqueSeq(db.logs) && AdoptLegacyRows(mac, db, user).Ok?
    ensures UniqueSeq(AdoptLegacyRows(mac, db, user).value.db.logs)
    ensures OnlyUser(db.logs, AdoptLegacyRows(mac, db, user).value.db.logs, user)
  {
    AdoptShape(mac, db, user);
    var logs := AdoptLegacyRows(mac, db, user).value.db.logs;
    var ids := Sorted(LegacyKeys(db.logs, user));
    forall id | id in logs ensures logs[id].userId == db.logs[id].userId {
      assert Content(logs[id]) == Content(db.logs[id]);
    }
    forall i | 0 <= i < |ids| ensures logs[ids[i]].userId == user {
      assert ids[i] in ids;
    }
    PositionsUnique(db.logs, logs, user, ids);
  }

  /** Placing one user's rows at positions 1, 2, ... keeps the unique index. */
  lemma PositionsUnique(a: Logs, b: Logs, user: Uuid, ids: seq<nat>)
    requires UniqueSeq(a) && a.Keys == b.Keys
    requires forall id :: id in a ==> b[id].userId == a[id].userId
    requires forall id :: id in a && id !in ids ==> b[id] == a[id] && a[id].userId != user
    requires forall i :: 0 <= i < |ids| ==> ids[i] in b && b[ids[i]].seqNo == Some(i + 1) && b[ids[i]].userId == user
    ensures UniqueSeq(b)
    ensures OnlyUser(a, b, user)
  {
    forall x, y | x in b && y in b && x != y && b[x].userId == b[y].userId && b[x].seqNo.Some?
      ensures b[x].seqNo != b[y].seqNo
    {
      if x in ids {
        var i :| 0 <= i < |ids| && ids[i] == x;
        var j :| 0 <= j < |ids| && ids[j] == y;
      }
    }
  }

  // --- append -----------------------------------------------------------------------------------

  /** A row placed above every chained row of its user is the last of the chain. */
  lemma InsertChain(logs: Logs, user: Uuid, id: Uuid, row: Row)
    requires id !in logs && row.userId == user && row.seqNo.Some? && row.seqNo.value > 0
    requires forall k :: k in ChainKeys(logs, user, 0) ==> logs[k].seqNo.value < row.seqNo.value
    ensures Chain(logs[id := row], user) == Chain(logs, user) + [id]
    ensures ChainKeys(logs[id := row], user, 0).Keys == ChainKeys(logs, user, 0).Keys + {id}
  {
    var keys := ChainKeys(logs, user, 0);
    InsertLast(keys, id, row.seqNo.value);
    assert ChainKeys(logs[id := row], user, 0) == keys[id := row.seqNo.value];
  }

  /** Positions in a walked chain stop at its length. */
  lemma WalkedPositions(mac: Macs, logs: Logs, user: Uuid, n: int, h: Hash)
    requires Walked(mac, logs, user, n, h)
    ensures |Chain(logs, user)| == n
    ensures forall k :: k in ChainKeys(logs, user, 0) ==> logs[k].seqNo.value <= n
  {
    var ids := Chain(logs, user);
    ChainMembers(logs, user);
    WalkCounts(mac, logs, ids);
    forall k | k in ChainKeys(logs, user, 0) ensures logs[k].seqNo.value <= n {
      assert k in ids;
      var i :| 0 <= i < |ids| && ids[i] == k;
    }
  }

  lemma InsertWalked(mac: Macs, logs: Logs, user: Uuid, e: Event, n: I64, h: Hash)
    requires Walked(mac, logs, user, n, h)
    requires InsertLink(mac, logs, user, e, n, h).Ok?
    ensures Walked(mac, InsertLink(mac, logs, user, e, n, h).value, user, n + 1,
                   mac.row(h, e.ToRow(user).Fields(e.id, n + 1)))
  {
    WalkedPositions(mac, logs, user, n, h);
    ChainMembers(logs, user);
    assert e.id !in Chain(logs, user);
    ExtendWalk(mac, logs, Chain(logs, user), e.id, e.ToRow(user));
    InsertChain(logs, user, e.id, e.ToRow(user).Linked(mac, e.id, n + 1, h));
  }

  lemma InsertKeepsIndex(mac: Macs, logs: Logs, user: Uuid, e: Event, n: I64, h: Hash)
    requires UniqueSeq(logs) && InsertLink(mac, logs, user, e, n, h).Ok?
    ensures UniqueSeq(InsertLink(mac, logs, user, e, n, h).value)
    ensures OnlyUser(logs, InsertLink(mac, logs, user, e, n, h).value, user)
  {
  }

  /** An append to a user in good order succeeds whenever its fresh id is fresh. */
  lemma InsertSucceeds(mac: Macs, logs: Logs, user: Uuid, e: Event, n: I64, h: Hash)
    requires Walked(mac, logs, user, n, h)
    requires e.id !in logs && n < I64_MAX
    ensures InsertLink(mac, logs, user, e, n, h).Ok?
  {
    WalkedPositions(mac, logs, user, n, h);
    forall id | id in logs && logs[id].userId == user ensures logs[id].seqNo != Some(n + 1) {
      assert id in ChainKeys(logs, user, 0);
    }
  }

  lemma OnlyUserTransitive(a: Logs, b: Logs, c: Logs, user: Uuid)
    requires OnlyUser(a, b, user) && OnlyUser(b, c, user)
    ensures OnlyUser(a, c, user)
  {
    forall id | id in a ensures c[id].userId == a[id].userId {
      assert b[id].userId == a[id].userId;
    }
    forall id | id in a && a[id].userId != user ensures c[id] == a[id] {
      assert b[id] == a[id];
    }
    forall id | id in c && id !in a ensures c[id].userId == user {
      assert id in b ==> b[id].userId == user;
    }
  }

  /** An update of one user's rows and head leaves every other user in good order. */
  lemma OthersUnaffected(mac: Macs, a: Db, b: Db, user: Uuid, other: Uuid)
    requires OnlyUser(a.logs, b.logs, user) && other != user && HeadOf(a, other) == HeadOf(b, other)
    requires LegacyOnly(a, other) || Pinned(mac, a, other)
    ensures LegacyOnly(b, other) || Pinned(mac, b, other)
  {
    forall id | id in b.logs && b.logs[id].userId == other ensures id in a.logs && a.logs[id] == b.logs[id] {
      assert id in a.logs;
    }
    if Pinned(mac, a, other) {
      assert ChainKeys(a.logs, other, 0) == ChainKeys(b.logs, other, 0);
      ChainMembers(a.logs, other);
      WalkFrame(mac, a.logs, b.logs, Chain(a.logs, other));
    }
  }

  /** From a healthy database, the tip an operation starts from is the end of the whole history. */
  lemma TipWalked(mac: Macs, db: Db, user: Uuid)
    requires Healthy(mac, db) && ChainTip(mac, db, user).Ok?
    ensures var tip := ChainTip(mac, db, user).value;
      && Walked(mac, tip.db.logs, user, tip.seqNo, tip.hash)
      && tip.db.heads == db.heads
      && OnlyUser(db.logs, tip.db.logs, user) && tip.db.logs.Keys == db.logs.Keys
      && (forall id :: id in db.logs ==> Content(tip.db.logs[id]) == Content(db.logs[id]))
      && UniqueSeq(tip.db.logs)
  {
    assert LegacyOnly(db, user) || Pinned(mac, db, user);
    if user !in db.heads {
      AdoptShape(mac, db, user);
      AdoptWalked(mac, db, user);
      AdoptKeepsIndex(mac, db, user);
    }
  }

  /** What an append after a tip writes: one new row and the user's head. */
  lemma AppendAtShape(mac: Macs, tip: Tip, user: Uuid, e: Event)
    requires AppendAt(mac, tip, user, e).Ok?
    ensures var after := AppendAt(mac, tip, user, e).value;
      && e.id !in tip.db.logs && after.logs.Keys == tip.db.logs.Keys + {e.id}
      && (forall id :: id in tip.db.logs ==> after.logs[id] == tip.db.logs[id])
      && Content(after.logs[e.id]) == e.ToRow(user)
      && (forall other :: other != user ==> HeadOf(after, other) == HeadOf(tip.db, other))
  {
  }

  /** What an append writes: one new row, and chain columns of the user's legacy rows. */
  lemma AppendShape(mac: Macs, db: Db, user: Uuid, e: Event)
    requires Healthy(mac, db) && Append(mac, db, user, e).Ok?
    ensures var after := Append(mac, db, user, e).value;
      && OnlyUser(db.logs, after.logs, user)
      && e.id !in db.logs && after.logs.Keys == db.logs.Keys + {e.id}
      && (forall id :: id in db.logs ==> Content(after.logs[id]) == Content(db.logs[id]))
      && Content(after.logs[e.id]) == e.ToRow(user)
      && (forall other :: other != user ==> HeadOf(after, other) == HeadOf(db, other))
  {
    TipWalked(mac, db, user);
    var tip := ChainTip(mac, db, user).value;
    AppendAtShape(mac, tip, user, e);
    var after := AppendAt(mac, tip, user, e).value;
    assert after.logs[e.id].userId == Content(after.logs[e.id]).userId;
    OnlyUserTransitive(db.logs, tip.db.logs, after.logs, user);
  }

  lemma AppendPins(mac: Macs, db: Db, user: Uuid, e: Event)
    requires Healthy(mac, db) && Append(mac, db, user, e).Ok?
    ensures Pinned(mac, Append(mac, db, user, e).value, user)
    ensures UniqueSeq(Append(mac, db, user, e).value.logs)
  {
    TipWalked(mac, db, user);
    var tip := ChainTip(mac, db, user).value;
    InsertWalked(mac, tip.db.logs, user, e, tip.seqNo, tip.hash);
    InsertKeepsIndex(mac, tip.db.logs, user, e, tip.seqNo, tip.hash);
  }

  lemma AppendKeepsHealthy(mac: Macs, db: Db, user: Uuid, e: Event)
    requires Healthy(mac, db) && Append(mac, db, user, e).Ok?
    ensures Healthy(mac, Append(mac, db, user, e).value)
  {
    AppendShape(mac, db, user, e);
    AppendPins(mac, db, user, e);
    var after := Append(mac, db, user, e).value;
    forall other: Uuid | other != user ensures LegacyOnly(after, other) || Pinned(mac, after, other) {
      OthersUnaffected(mac, db, after, user, other);
    }
  }

  // --- anonymise --------------------------------------------------------------------------------

  /** Relinking scrubs the user's rows, moves none of them, and leaves the others alone. */
  lemma RelinkShape(mac: Macs, logs: Logs, user: Uuid, n: I64, h: Hash)
    requires Walked(mac, logs, user, n, h)
    ensures |Chain(logs, user)| == n
    ensures forall i :: 0 <= i < |Chain(logs, user)| ==> Chain(logs, user)[i] in logs
    ensures var ids := Chain(logs, user);
      var relinked := Relink(mac, logs, ids).0;
      && relinked.Keys == logs.Keys
      && (forall i :: 0 <= i < |ids| ==> relinked[ids[i]].seqNo == Some(i + 1))
      && (forall id :: id in logs ==> relinked[id].userId == logs[id].userId)
      && (forall id :: id in logs ==> (logs[id].userId == user <==> id in ids))
      && (forall id :: id in logs && id !in ids ==> relinked[id] == logs[id])
      && (forall id :: id in logs && logs[id].userId == user ==>
            Content(relinked[id]) == Content(logs[id]).Scrubbed())
  {
    var ids := Chain(logs, user);
    WalkedPositions(mac, logs, user, n, h);
    ChainMembers(logs, user);
    LinkInOrderShape(mac, Scrub(logs, Elements(ids)), ids);
    RelinkedUsers(logs, Relink(mac, logs, ids).0, user, ids);
  }

  /** The relinked chain walks over the same positions to its own last hash. */
  lemma RelinkWalks(mac: Macs, logs: Logs, user: Uuid, n: I64, h: Hash)
    requires Walked(mac, logs, user, n, h)
    ensures |Chain(logs, user)| == n
    ensures forall i :: 0 <= i < |Chain(logs, user)| ==> Chain(logs, user)[i] in logs
    ensures Walked(mac, Relink(mac, logs, Chain(logs, user)).0, user, n, Relink(mac, logs, Chain(logs, user)).1)
  {
    var ids := Chain(logs, user);
    RelinkShape(mac, logs, user, n, h);
    ChainMembers(logs, user);
    LinkInOrderWalks(mac, Scrub(logs, Elements(ids)), ids);
    var relinked := Relink(mac, logs, ids).0;
    PositionsAreChain(relinked, user, ids);
    ChainMembers(relinked, user);
  }

  lemma RelinkKeepsIndex(mac: Macs, logs: Logs, user: Uuid, n: I64, h: Hash)
    requires Walked(mac, logs, user, n, h) && UniqueSeq(logs)
    ensures |Chain(logs, user)| == n
    ensures forall i :: 0 <= i < |Chain(logs, user)| ==> Chain(logs, user)[i] in logs
    ensures UniqueSeq(Relink(mac, logs, Chain(logs, user)).0)
    ensures OnlyUser(logs, Relink(mac, logs, Chain(logs, user)).0, user)
  {
    RelinkShape(mac, logs, user, n, h);
    PositionsUnique(logs, Relink(mac, logs, Chain(logs, user)).0, user, Chain(logs, user));
  }

  /** Relinking moves no row between users, and scrubs exactly the chained ones. */
  lemma RelinkedUsers(logs: Logs, relinked: Logs, user: Uuid, ids: seq<nat>)
    requires relinked.Keys == logs.Keys
    requires ids == Chain(logs, user)
    requires forall id :: id in logs && logs[id].userId == user ==> id in ChainKeys(logs, user, 0)
    requires var scrubbed := Scrub(logs, Elements(ids));
      && (forall id :: id in logs && id !in ids ==> relinked[id] == scrubbed[id])
      && (forall id :: id in logs ==> Content(relinked[id]) == Content(scrubbed[id]))
    requires forall i :: 0 <= i < |ids| ==> ids[i] in relinked && relinked[ids[i]].seqNo == Some(i + 1)
    ensures forall id :: id in logs ==> relinked[id].userId == logs[id].userId
    ensures forall id :: id in logs ==> (logs[id].userId == user <==> id in ids)
    ensures forall id :: id in logs && id !in ids ==> relinked[id] == logs[id]
    ensures forall id :: id in logs && logs[id].userId == user ==>
              Content(relinked[id]) == Content(logs[id]).Scrubbed()
  {
    ChainMembers(logs, user);
    ScrubbedContent(logs, ids);
    var scrubbed := Scrub(logs, Elements(ids));
    forall id | id in logs ensures relinked[id].userId == logs[id].userId {
      assert Content(relinked[id]) == Content(scrubbed[id]);
    }
    forall id | id in logs ensures logs[id].userId == user <==> id in ids {
      assert id in ids <==> id in ChainKeys(logs, user, 0);
    }
    forall id | id in logs && logs[id].userId == user
      ensures Content(relinked[id]) == Content(logs[id]).Scrubbed()
    {
      assert Content(relinked[id]) == Content(scrubbed[id]);
    }
  }

  lemma ScrubbedContent(logs: Logs, ids: seq<nat>)
    ensures forall id :: id in logs && id in ids ==>
      Content(Scrub(logs, Elements(ids))[id]) == Content(logs[id]).Scrubbed()
    ensures forall id :: id in logs ==> Scrub(logs, Elements(ids))[id].userId == logs[id].userId
    ensures forall id :: id in logs && id !in ids ==> Scrub(logs, Elements(ids))[id] == logs[id]
  {
    forall id | id in ids ensures id in Elements(ids) {
      var i :| 0 <= i < |ids| && ids[i] == id;
    }
  }

  /** A history that walks to the tip is never refused. */
  lemma AnonymiseAccepts(mac: Macs, tip: Tip, user: Uuid)
    requires Walked(mac, tip.db.logs, user, tip.seqNo, tip.hash)
    ensures var ids := Chain(tip.db.logs, user);
      && |ids| == tip.seqNo
      && (forall i :: 0 <= i < |ids| ==> ids[i] in tip.db.logs)
      && AnonymiseAt(mac, tip, user) == Ok(Rewrite(mac, tip.db, user, ids))
  {
    WalkedPositions(mac, tip.db.logs, user, tip.seqNo, tip.hash);
    ChainMembers(tip.db.logs, user);
  }

  /** With every row chained there is nothing stray, so relinking is all a rewrite does. */
  lemma RewriteRelinks(mac: Macs, db: Db, user: Uuid, ids: seq<nat>)
    requires |ids| <= I64_MAX && forall i :: 0 <= i < |ids| ==> ids[i] in db.logs
    requires Stray(Relink(mac, db.logs, ids).0, user) == {}
    ensures var (relinked, hash) := Relink(mac, db.logs, ids);
      var moved := db.(logs := relinked);
      Rewrite(mac, db, user, ids) == (if |ids| > 0 then WriteHead(mac, moved, user, |ids|, hash) else moved, |ids|)
  {
    var relinked := Relink(mac, db.logs, ids).0;
    assert Scrub(relinked, {}) == relinked;
  }

  /** What anonymising a walked history produces. */
  lemma AnonymiseAtRelinks(mac: Macs, tip: Tip, user: Uuid)
    requires Walked(mac, tip.db.logs, user, tip.seqNo, tip.hash)
    ensures var ids := Chain(tip.db.logs, user);
      && |ids| == tip.seqNo
      && (forall i :: 0 <= i < |ids| ==> ids[i] in tip.db.logs)
      && var (relinked, hash) := Relink(mac, tip.db.logs, ids);
      var moved := tip.db.(logs := relinked);
      AnonymiseAt(mac, tip, user)
        == Ok((if tip.seqNo > 0 then WriteHead(mac, moved, user, tip.seqNo, hash) else moved, tip.seqNo))
  {
    AnonymiseAccepts(mac, tip, user);
    var ids := Chain(tip.db.logs, user);
    assert Stray(Relink(mac, tip.db.logs, ids).0, user) == {} by {
      RelinkWalks(mac, tip.db.logs, user, tip.seqNo, tip.hash);
      NoStray(mac, Relink(mac, tip.db.logs, ids).0, user, tip.seqNo, Relink(mac, tip.db.logs, ids).1);
    }
    RewriteRelinks(mac, tip.db, user, ids);
  }

  /** Every one of the user's rows comes out scrubbed; the others are untouched. */
  lemma AnonymiseAtScrubs(mac: Macs, tip: Tip, user: Uuid)
    requires Walked(mac, tip.db.logs, user, tip.seqNo, tip.hash) && UniqueSeq(tip.db.logs)
    ensures AnonymiseAt(mac, tip, user).Ok?
    ensures var (after, count) := AnonymiseAt(mac, tip, user).value;
      && count == tip.seqNo
      && after.logs.Keys == tip.db.logs.Keys
      && OnlyUser(tip.db.logs, after.logs, user)
      && (forall id :: id in tip.db.logs && tip.db.logs[id].userId == user ==>
            Content(after.logs[id]) == Content(tip.db.logs[id]).Scrubbed())
      && (forall other :: other != user ==> HeadOf(after, other) == HeadOf(tip.db, other))
  {
    AnonymiseAtTables(mac, tip, user);
    RelinkShape(mac, tip.db.logs, user, tip.seqNo, tip.hash);
    RelinkKeepsIndex(mac, tip.db.logs, user, tip.seqNo, tip.hash);
  }

  /** The tables after an anonymisation: the relinked rows, and a head moved for this user alone. */
  lemma AnonymiseAtTables(mac: Macs, tip: Tip, user: Uuid)
    requires Walked(mac, tip.db.logs, user, tip.seqNo, tip.hash)
    ensures |Chain(tip.db.logs, user)| == tip.seqNo
    ensures forall i :: 0 <= i < |Chain(tip.db.logs, user)| ==> Chain(tip.db.logs, user)[i] in tip.db.logs
    ensures AnonymiseAt(mac, tip, user).Ok?
    ensures var (after, count) := AnonymiseAt(mac, tip, user).value;
      && count == tip.seqNo && after.logs == Relink(mac, tip.db.logs, Chain(tip.db.logs, user)).0
      && (forall other :: other != user ==> HeadOf(after, other) == HeadOf(tip.db, other))
  {
    AnonymiseAtRelinks(mac, tip, user);
  }

  /** The rewritten history is pinned; an empty one is left as it was. */
  lemma AnonymiseAtPins(mac: Macs, tip: Tip, user: Uuid)
    requires Walked(mac, tip.db.logs, user, tip.seqNo, tip.hash) && UniqueSeq(tip.db.logs)
    ensures AnonymiseAt(mac, tip, user).Ok?
    ensures UniqueSeq(AnonymiseAt(mac, tip, user).value.0.logs)
    ensures if tip.seqNo > 0 then Pinned(mac, AnonymiseAt(mac, tip, user).value.0, user)
            else AnonymiseAt(mac, tip, user).value.0 == tip.db
  {
    AnonymiseAtRelinks(mac, tip, user);
    RelinkWalks(mac, tip.db.logs, user, tip.seqNo, tip.hash);
    RelinkKeepsIndex(mac, tip.db.logs, user, tip.seqNo, tip.hash);
    if tip.seqNo == 0 {
      assert Elements(Chain(tip.db.logs, user)) == {};
      assert Scrub(tip.db.logs, {}) == tip.db.logs;
    }
  }

  /** A walked user has no unchained row left to scrub. */
  lemma NoStray(mac: Macs, logs: Logs, user: Uuid, n: int, h: Hash)
    requires Walked(mac, logs, user, n, h)
    ensures Stray(logs, user) == {}
  {
    assert LegacyKeys(logs, user) == map[];
    assert Stray(logs, user) == {};
  }

  /** The tip counts the user's rows, and a tip at zero has changed nothing. */
  lemma TipCounts(mac: Macs, db: Db, user: Uuid)
    requires Healthy(mac, db) && ChainTip(mac, db, user).Ok?
    ensures ChainTip(mac, db, user).value.seqNo == |UserIds(db.logs, user)|
    ensures ChainTip(mac, db, user).value.seqNo == 0 ==> ChainTip(mac, db, user).value.db == db
  {
    TipWalked(mac, db, user);
    var tip := ChainTip(mac, db, user).value;
    WalkedCounts(mac, tip.db.logs, user, tip.seqNo, tip.hash);
    assert UserIds(tip.db.logs, user) == UserIds(db.logs, user);
    if user !in db.heads && tip.seqNo == 0 {
      assert Sorted(LegacyKeys(db.logs, user)) == [];
    }
  }

  /** A user's whole history walks to as many positions as it has rows. */
  lemma WalkedCounts(mac: Macs, logs: Logs, user: Uuid, n: int, h: Hash)
    requires Walked(mac, logs, user, n, h)
    ensures n == |UserIds(logs, user)|
  {
    WalkedPositions(mac, logs, user, n, h);
    ChainMembers(logs, user);
    assert ChainKeys(logs, user, 0).Keys == UserIds(logs, user);
  }

  /** A healthy history is never refused, and every row of the user comes out scrubbed. */
  lemma AnonymiseShape(mac: Macs, db: Db, user: Uuid)
    requires Healthy(mac, db) && ChainTip(mac, db, user).Ok?
    ensures Anonymise(mac, db, user).Ok?
    ensures var (after, count) := Anonymise(mac, db, user).value;
      && count == |UserIds(db.logs, user)|
      && after.logs.Keys == db.logs.Keys
      && OnlyUser(db.logs, after.logs, user)
      && (forall id :: id in db.logs && db.logs[id].userId == user ==>
            Content(after.logs[id]) == Content(db.logs[id]).Scrubbed())
      && (forall other :: other != user ==> HeadOf(after, other) == HeadOf(db, other))
  {
    TipWalked(mac, db, user);
    TipCounts(mac, db, user);
    var tip := ChainTip(mac, db, user).value;
    AnonymiseAtScrubs(mac, tip, user);
    OnlyUserTransitive(db.logs, tip.db.logs, AnonymiseAt(mac, tip, user).value.0.logs, user);
  }

  /** Anonymising leaves every user in good order. */
  lemma AnonymiseKeepsHealthy(mac: Macs, db: Db, user: Uuid)
    requires Healthy(mac, db) && ChainTip(mac, db, user).Ok?
    ensures Anonymise(mac, db, user).Ok? && Healthy(mac, Anonymise(mac, db, user).value.0)
  {
    AnonymiseShape(mac, db, user);
    TipWalked(mac, db, user);
    TipCounts(mac, db, user);
    AnonymiseAtPins(mac, ChainTip(mac, db, user).value, user);
    var after := Anonymise(mac, db, user).value.0;
    forall other: Uuid | other != user ensures LegacyOnly(after, other) || Pinned(mac, after, other) {
      OthersUnaffected(mac, db, after, user, other);
    }
  }
}
