/** Whole runs of audit operations: what they keep, and what they can never hide. */
module AuditRuns {
  import opened Wrappers
  import opened Bytes
  import opened AuditEncoding
  import opened Ordering
  import opened AuditChain
  import opened AuditWalk
  import opened AuditHealth

  datatype World = World(accounts: Accounts, db: Db)

  datatype Op =
    | RecordAudit(user: Uuid, event: Event)
    | Delete(user: Uuid, checked: seq<Uuid>, id: Uuid, now: I64)

  /** One committed or rolled-back transaction. */
  function Apply(mac: Macs, w: World, op: Op): World {
    match op
    case RecordAudit(user, event) =>
      (match Append(mac, w.db, user, event)
       case Ok(db) => w.(db := db)
       case Err(_) => w)
    case Delete(user, checked, id, now) =>
      (match DeleteAccount(mac, w.accounts, w.db, user, checked, id, now)
       case Ok(done) => World(done.0, done.1)
       case Err(_) => w)
  }

  function Run(mac: Macs, w: World, ops: seq<Op>): World {
    if ops == [] then w else Apply(mac, Run(mac, w, ops[..|ops| - 1]), ops[|ops| - 1])
  }

  /** A run takes its operations one by one; one that fails leaves everything as it was. */
  lemma RunNext(mac: Macs, w: World, ops: seq<Op>, op: Op)
    ensures Run(mac, w, []) == w && Run(mac, w, ops + [op]) == Apply(mac, Run(mac, w, ops), op)
    ensures op.RecordAudit? ==>
      var r := Append(mac, w.db, op.user, op.event);
      Apply(mac, w, op) == if r.Ok? then World(w.accounts, r.value) else w
    ensures op.Delete? ==>
      var r := DeleteAccount(mac, w.accounts, w.db, op.user, op.checked, op.id, op.now);
      Apply(mac, w, op) == if r.Ok? then World(r.value.0, r.value.1) else w
  {
    assert (ops + [op])[..|ops|] == ops;
  }

  /** Only rows written before chaining existed. */
  ghost predicate Fresh(db: Db) {
    db.heads == map[] && forall id :: id in db.logs ==> db.logs[id].seqNo.None?
  }

  lemma FreshIsHealthy(mac: Macs, db: Db)
    requires Fresh(db)
    ensures Healthy(mac, db)
  {
    forall user: Uuid ensures LegacyOnly(db, user) {
    }
  }

  /** The audit trail never refuses with the errors that mean something else. */
  lemma AuditErrors(mac: Macs, db: Db, user: Uuid, e: Event)
    ensures Append(mac, db, user, e).Err? ==> Append(mac, db, user, e).error in {AuditChainCorrupt, Database}
    ensures Anonymise(mac, db, user).Err? ==> Anonymise(mac, db, user).error in {AuditChainCorrupt, Database}
  {
  }

  /** Exactly when a deletion is refused for its user or for its wallets. */
  lemma DeletionRefusedIff(mac: Macs, accounts: Accounts, db: Db, user: Uuid, checked: seq<Uuid>, id: Uuid, now: I64)
    ensures var r := DeleteAccount(mac, accounts, db, user, checked, id, now);
      && (r == Err(NotFound) <==> user !in accounts.users || accounts.users[user])
      && (r == Err(Conflict) <==>
            && user in accounts.users && !accounts.users[user]
            && multiset(checked) != multiset(set w | w in accounts.wallets && accounts.wallets[w] == user))
  {
    AuditErrors(mac, db, user, DeletionEvent(id, now));
    if Anonymise(mac, db, user).Ok? {
      AuditErrors(mac, Anonymise(mac, db, user).value.0, user, DeletionEvent(id, now));
    }
  }

  lemma DeleteKeepsHealthy(mac: Macs, w: World, user: Uuid, checked: seq<Uuid>, id: Uuid, now: I64)
    requires Healthy(mac, w.db)
    requires DeleteAccount(mac, w.accounts, w.db, user, checked, id, now).Ok?
    ensures Healthy(mac, DeleteAccount(mac, w.accounts, w.db, user, checked, id, now).value.1)
  {
    AnonymiseKeepsHealthy(mac, w.db, user);
    AppendKeepsHealthy(mac, Anonymise(mac, w.db, user).value.0, user, DeletionEvent(id, now));
  }

  lemma ApplyKeepsHealthy(mac: Macs, w: World, op: Op)
    requires Healthy(mac, w.db)
    ensures Healthy(mac, Apply(mac, w, op).db)
  {
    match op
    case RecordAudit(user, event) =>
      if Append(mac, w.db, user, event).Ok? {
        AppendKeepsHealthy(mac, w.db, user, event);
      }
    case Delete(user, checked, id, now) =>
      if DeleteAccount(mac, w.accounts, w.db, user, checked, id, now).Ok? {
        DeleteKeepsHealthy(mac, w, user, checked, id, now);
      }
  }

  lemma {:induction false} RunKeepsHealthy(mac: Macs, w: World, ops: seq<Op>)
    requires Healthy(mac, w.db)
    ensures Healthy(mac, Run(mac, w, ops).db)
  {
    if ops != [] {
      RunKeepsHealthy(mac, w, ops[..|ops| - 1]);
      ApplyKeepsHealthy(mac, Run(mac, w, ops[..|ops| - 1]), ops[|ops| - 1]);
    }
  }

  /**
   * From legacy rows only, after any run of appends and deletions, a user either has no chain yet
   * or verifies as intact over every row they own.
   */
  lemma EveryRunVerifies(mac: Macs, w: World, ops: seq<Op>, user: Uuid)
    requires Fresh(w.db)
    ensures var db := Run(mac, w, ops).db;
      if user in db.heads
        then Verify(mac, db, user) == Report(|UserIds(db.logs, user)|, 0, Intact)
        else !HasChainedRow(db.logs, user)
  {
    FreshIsHealthy(mac, w.db);
    RunKeepsHealthy(mac, w, ops);
    var db := Run(mac, w, ops).db;
    assert LegacyOnly(db, user) || Pinned(mac, db, user);
    if user in db.heads {
      PinnedVerifies(mac, db, user);
    }
  }

  /** The two halves of a deletion, each applied to a database in good order. */
  lemma DeletionSteps(mac: Macs, w: World, user: Uuid, checked: seq<Uuid>, id: Uuid, now: I64)
    requires Healthy(mac, w.db)
    requires DeleteAccount(mac, w.accounts, w.db, user, checked, id, now).Ok?
    ensures ChainTip(mac, w.db, user).Ok? && Anonymise(mac, w.db, user).Ok?
    ensures var (scrubbed, count) := Anonymise(mac, w.db, user).value;
      && Healthy(mac, scrubbed)
      && Append(mac, scrubbed, user, DeletionEvent(id, now)).Ok?
      && DeleteAccount(mac, w.accounts, w.db, user, checked, id, now).value
         == (w.accounts.(users := w.accounts.users[user := true]),
             Append(mac, scrubbed, user, DeletionEvent(id, now)).value, count)
  {
    AnonymiseKeepsHealthy(mac, w.db, user);
  }

  /**
   * After a deletion the user's chain holds every earlier row and the deletion itself, and no row
   * of the user carries a target or an address.
   */
  lemma DeletionAnonymises(mac: Macs, w: World, user: Uuid, checked: seq<Uuid>, id: Uuid, now: I64)
    requires Healthy(mac, w.db)
    requires DeleteAccount(mac, w.accounts, w.db, user, checked, id, now).Ok?
    ensures var (accounts, db, count) := DeleteAccount(mac, w.accounts, w.db, user, checked, id, now).value;
      && user in accounts.users && accounts.users[user]
      && count == |UserIds(w.db.logs, user)|
      && UserIds(db.logs, user) == UserIds(w.db.logs, user) + {id}
      && forall k :: k in UserIds(db.logs, user) ==> db.logs[k].target.None? && db.logs[k].ipAddress.None?
  {
    DeletionSteps(mac, w, user, checked, id, now);
    AnonymiseShape(mac, w.db, user);
    var scrubbed := Anonymise(mac, w.db, user).value.0;
    AppendShape(mac, scrubbed, user, DeletionEvent(id, now));
    var db := Append(mac, scrubbed, user, DeletionEvent(id, now)).value;
    ScrubbedThenAppended(w.db.logs, scrubbed.logs, db.logs, user, id, now);
  }

  lemma ScrubbedThenAppended(before: Logs, scrubbed: Logs, after: Logs, user: Uuid, id: Uuid, now: I64)
    requires scrubbed.Keys == before.Keys && OnlyUser(before, scrubbed, user)
    requires forall k :: k in before && before[k].userId == user ==>
      Content(scrubbed[k]) == Content(before[k]).Scrubbed()
    requires id !in scrubbed && after.Keys == scrubbed.Keys + {id} && OnlyUser(scrubbed, after, user)
    requires forall k :: k in scrubbed ==> Content(after[k]) == Content(scrubbed[k])
    requires Content(after[id]) == DeletionEvent(id, now).ToRow(user)
    ensures UserIds(after, user) == UserIds(before, user) + {id}
    ensures forall k :: k in UserIds(after, user) ==> after[k].target.None? && after[k].ipAddress.None?
  {
    forall k | k in UserIds(after, user) ensures after[k].target.None? && after[k].ipAddress.None? {
      if k != id {
        assert k in scrubbed && scrubbed[k].userId == after[k].userId;
        ScrubbedContentIsNull(before[k], scrubbed[k], after[k]);
      }
    }
  }

  lemma ScrubbedContentIsNull(before: Row, scrubbed: Row, after: Row)
    requires Content(scrubbed) == Content(before).Scrubbed() && Content(after) == Content(scrubbed)
    ensures after.target.None? && after.ipAddress.None?
  {
  }

  /** Right after a deletion the user verifies as intact over all of their rows. */
  lemma DeletionVerifies(mac: Macs, w: World, user: Uuid, checked: seq<Uuid>, id: Uuid, now: I64)
    requires Healthy(mac, w.db)
    requires DeleteAccount(mac, w.accounts, w.db, user, checked, id, now).Ok?
    ensures var db := DeleteAccount(mac, w.accounts, w.db, user, checked, id, now).value.1;
      Verify(mac, db, user) == Report(|UserIds(db.logs, user)|, 0, Intact)
  {
    DeletionSteps(mac, w, user, checked, id, now);
    var scrubbed := Anonymise(mac, w.db, user).value.0;
    AppendPins(mac, scrubbed, user, DeletionEvent(id, now));
    PinnedVerifies(mac, Append(mac, scrubbed, user, DeletionEvent(id, now)).value, user);
  }

  /** A tip is refused on a database in good order only when there are too many rows to number. */
  lemma TipSucceedsIff(mac: Macs, db: Db, user: Uuid)
    requires Healthy(mac, db)
    ensures ChainTip(mac, db, user).Ok? <==> |UserIds(db.logs, user)| <= I64_MAX
  {
    if user in db.heads {
      assert Pinned(mac, db, user);
      var n := db.heads[user].seqNo;
      WalkedPositions(mac, db.logs, user, n, db.heads[user].rowHash);
      ChainMembers(db.logs, user);
      assert ChainKeys(db.logs, user, 0).Keys == UserIds(db.logs, user);
    } else {
      assert LegacyOnly(db, user);
      SortedIsListing(LegacyKeys(db.logs, user));
      assert LegacyKeys(db.logs, user).Keys == UserIds(db.logs, user);
    }
  }

  /** Exactly when recording succeeds on a database in good order: the id is new and seq still fits. */
  lemma AppendSucceedsIff(mac: Macs, db: Db, user: Uuid, e: Event)
    requires Healthy(mac, db)
    ensures Append(mac, db, user, e).Ok? <==> e.id !in db.logs && |UserIds(db.logs, user)| < I64_MAX
  {
    TipSucceedsIff(mac, db, user);
    if ChainTip(mac, db, user).Ok? {
      TipWalked(mac, db, user);
      TipCounts(mac, db, user);
      AppendAtIff(mac, ChainTip(mac, db, user).value, user, e);
    }
  }

  lemma AppendAtIff(mac: Macs, tip: Tip, user: Uuid, e: Event)
    requires Walked(mac, tip.db.logs, user, tip.seqNo, tip.hash)
    ensures AppendAt(mac, tip, user, e).Ok? <==> e.id !in tip.db.logs && tip.seqNo < I64_MAX
  {
    if e.id !in tip.db.logs && tip.seqNo < I64_MAX {
      InsertSucceeds(mac, tip.db.logs, user, e, tip.seqNo, tip.hash);
    }
  }
}
