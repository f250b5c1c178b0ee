/** The audit code as it runs: batched loops over tables that are updated in place. */
module AuditStore {
  import opened Wrappers
  import opened Bytes
  import opened AuditEncoding
  import opened Ordering
  import opened AuditChain
  import opened AuditWalk
  import opened AuditRewrite
  import opened AuditHealth
  import opened AuditRuns

  // --- why paging sees the whole chain ----------------------------------------------------------

  lemma ChainKeysAbove(logs: Logs, user: Uuid, n: nat)
    ensures ChainKeys(logs, user, n) == Above(ChainKeys(logs, user, 0), n)
  {
  }

  lemma UniqueSeqDistinct(logs: Logs, user: Uuid)
    requires UniqueSeq(logs)
    ensures DistinctValues(ChainKeys(logs, user, 0))
  {
  }

  /** Once the first `n` chained rows walk, the rows above position `n` are exactly the rest. */
  lemma RestOfChain(mac: Macs, logs: Logs, user: Uuid, n: nat)
    requires UniqueSeq(logs) && AllChained(logs, Chain(logs, user)) && n <= |Chain(logs, user)|
    requires WalkRows(mac, logs, Chain(logs, user)[..n]).At?
    ensures Sorted(ChainKeys(logs, user, n)) == Chain(logs, user)[n..]
  {
    var keys, ids := ChainKeys(logs, user, 0), Chain(logs, user);
    ChainKeysAbove(logs, user, n);
    if n > 0 {
      WalkCounts(mac, logs, ids[..n]);
      assert ids[n - 1] == ids[..n][n - 1];
      UniqueSeqDistinct(logs, user);
      assert |ids| == |keys| by { SortedIsListing(keys); }
      PageAfter(keys, n);
    }
  }

  /** A walk that has stopped stays stopped. */
  lemma {:induction false} StoppedStays(mac: Macs, logs: Logs, ids: seq<nat>, n: nat)
    requires AllChained(logs, ids) && n <= |ids| && WalkRows(mac, logs, ids[..n]).Stopped?
    ensures WalkRows(mac, logs, ids) == WalkRows(mac, logs, ids[..n])
  {
    if n < |ids| {
      assert ids[..|ids| - 1][..n] == ids[..n];
      StoppedStays(mac, logs, ids[..|ids| - 1], n);
    } else {
      assert ids[..n] == ids;
    }
  }

  /** One more row of a walk. */
  lemma WalkNext(mac: Macs, logs: Logs, ids: seq<nat>, n: nat)
    requires AllChained(logs, ids) && n < |ids| && WalkRows(mac, logs, ids[..n]).At?
    ensures var walk := WalkRows(mac, logs, ids[..n]);
      WalkRows(mac, logs, ids[..n + 1]) == CheckRow(mac, logs, ids[n], walk.last, walk.prev)
  {
    assert ids[..n + 1][..n] == ids[..n];
  }

  /** What the check of one more row says about the whole walk. */
  lemma RowVerdict(mac: Macs, logs: Logs, ids: seq<nat>, n: nat)
    requires AllChained(logs, ids) && n < |ids| && WalkRows(mac, logs, ids[..n]).At?
    ensures var walk := WalkRows(mac, logs, ids[..n]);
      var verdict := CheckRow(mac, logs, ids[n], walk.last, walk.prev);
      && WalkRows(mac, logs, ids[..n + 1]) == verdict
      && (verdict.Stopped? ==> WalkRows(mac, logs, ids) == verdict)
  {
    WalkNext(mac, logs, ids, n);
    if WalkRows(mac, logs, ids[..n + 1]).Stopped? {
      StoppedStays(mac, logs, ids, n + 1);
    }
  }

  /** Half way through a rewrite, the next page still is the rest of the chain, row for row. */
  lemma RestOfRewrite(mac: Macs, before: Logs, user: Uuid, n: nat)
    requires UniqueSeq(before) && AllChained(before, Chain(before, user)) && n <= |Chain(before, user)| && n <= I64_MAX
    requires WalkRows(mac, before, Chain(before, user)[..n]).At?
    ensures var all, logs := Chain(before, user), RewriteRows(mac, before, Chain(before, user)[..n]).0;
      && Sorted(ChainKeys(logs, user, n)) == all[n..]
      && forall i :: n <= i < |all| ==> all[i] in logs && logs[all[i]] == before[all[i]]
  {
    var all := Chain(before, user);
    WalkCounts(mac, before, all[..n]);
    ChainMembers(before, user);
    PageUnmoved(mac, before, user, all[..n], n);
    RestOfChain(mac, before, user, n);
    RewriteKeepsPlaces(mac, before, all[..n]);
  }

  /** The unique index survives `chain_tip`, whatever the rows say. */
  lemma TipKeepsIndex(mac: Macs, db: Db, user: Uuid)
    requires UniqueSeq(db.logs) && ChainTip(mac, db, user).Ok?
    ensures UniqueSeq(ChainTip(mac, db, user).value.db.logs)
  {
    if user !in db.heads {
      AdoptKeepsIndex(mac, db, user);
    }
  }

  /** A page of what is left of a list is the next slice of the list. */
  lemma PageSlice(all: seq<nat>, from: nat, rest: seq<nat>, limit: nat, page: seq<nat>)
    requires from <= |all| && rest == all[from..] && limit >= 1
    requires page == if |rest| <= limit then rest else rest[..limit]
    ensures from + |page| <= |all| && page == all[from..from + |page|] && (page == [] ==> from == |all|)
  {
  }

  class Tables {
    var logs: Logs
    var heads: map<Uuid, Head>

    constructor (db: Db)
      ensures Value() == db
    {
      logs, heads := db.logs, db.heads;
    }

    function Value(): Db
      reads this
    {
      Db(logs, heads)
    }

    /** The rows of one fetched batch, from position `lastSeq + 1` on. */
    method VerifyBatch(mac: Macs, rows: seq<nat>, lastSeq: nat, prev: Hash, ghost all: seq<nat>) returns (walk: Walk)
      requires AllChained(logs, all) && lastSeq + |rows| <= |all| && rows == all[lastSeq..lastSeq + |rows|]
      requires WalkRows(mac, logs, all[..lastSeq]) == At(lastSeq, prev)
      ensures walk.At? ==> walk == WalkRows(mac, logs, all[..lastSeq + |rows|]) && walk.last == lastSeq + |rows|
      ensures walk.Stopped? ==> walk == WalkRows(mac, logs, all)
    {
      var last, hash := lastSeq, prev;
      var i := 0;
      while i < |rows|
        invariant 0 <= i <= |rows| && last == lastSeq + i
        invariant WalkRows(mac, logs, all[..last]) == At(last, hash)
      {
        assert rows[i] == all[last];
        var row := logs[rows[i]];
        RowVerdict(mac, logs, all, last);
        var expected := last + 1;
        if row.seqNo.value != expected {
          return Stopped(last, expected, SequenceGap);
        }
        if ToHash(row.prevHash) != Some(hash) {
          return Stopped(last, row.seqNo.value, PrevHashUnlinked);
        }
        var recomputed := mac.row(hash, row.Fields(rows[i], row.seqNo.value));
        if ToHash(row.rowHash) != Some(recomputed) {
          return Stopped(last, row.seqNo.value, RowHashMismatch);
        }
        hash := recomputed;
        last := row.seqNo.value;
        i := i + 1;
      }
      walk := At(last, hash);
    }

    /** The verdict on the head once every row has linked. */
    method VerifyHead(mac: Macs, user: Uuid, lastSeq: nat, prev: Hash, unchained: nat) returns (status: Status)
      ensures status == Conclude(mac, user, At(lastSeq, prev), unchained, HeadOf(Value(), user))
    {
      if user !in heads {
        if lastSeq == 0 && unchained > 0 {
          return Unchained;
        } else if lastSeq == 0 {
          return Intact;
        }
        return Broken(None, HeadMissing);
      }
      var pinned := HeadVerified(mac, user, heads[user]);
      if pinned.None? {
        status := Broken(None, HeadMacInvalid);
      } else if pinned.value.0 > lastSeq {
        status := Broken(Some(lastSeq + 1), RowsCutFromEnd);
      } else if pinned.value.0 < lastSeq || pinned.value.1 != prev {
        status := Broken(Some(pinned.value.0), HeadMismatch);
      } else if unchained > 0 {
        status := Broken(None, UnchainedAfterStart);
      } else {
        status := Intact;
      }
    }

    /** One keyset page: `seq > after ORDER BY seq LIMIT limit`. */
    method SelectPage(user: Uuid, after: int, limit: nat) returns (rows: seq<nat>)
      ensures var ids := Sorted(ChainKeys(logs, user, after));
        rows == if |ids| <= limit then ids else ids[..limit]
    {
      var ids := Sorted(ChainKeys(logs, user, after));
      rows := if |ids| <= limit then ids else ids[..limit];
    }

    /** Fetch and check the next page; `done` when there is none. */
    method VerifyPage(mac: Macs, user: Uuid, batch: nat, lastSeq: nat, prev: Hash, ghost all: seq<nat>)
      returns (done: bool, walk: Walk)
      requires batch >= 1 && lastSeq <= |all| && Sorted(ChainKeys(logs, user, lastSeq)) == all[lastSeq..]
      requires AllChained(logs, all) && WalkRows(mac, logs, all[..lastSeq]) == At(lastSeq, prev)
      ensures done ==> lastSeq == |all| && walk == At(lastSeq, prev)
      ensures !done && walk.At? ==> lastSeq < walk.last <= |all| && walk == WalkRows(mac, logs, all[..walk.last])
      ensures walk.Stopped? ==> walk == WalkRows(mac, logs, all)
    {
      var rows := SelectPage(user, lastSeq, batch);
      PageSlice(all, lastSeq, Sorted(ChainKeys(logs, user, lastSeq)), batch, rows);
      if rows == [] {
        return true, At(lastSeq, prev);
      }
      walk := VerifyBatch(mac, rows, lastSeq, prev, all);
      done := false;
    }

    /** Walk the chain page by page, for any page size: the pages add up to the one-pass walk. */
    method VerifyRows(mac: Macs, user: Uuid, batch: nat, ghost all: seq<nat>) returns (walk: Walk)
      requires batch >= 1 && UniqueSeq(logs) && all == Chain(logs, user)
      requires AllChained(logs, all)
      ensures walk == WalkRows(mac, logs, all)
    {
      walk := At(0, GENESIS_PREV_HASH);
      var done := false;
      while !done
        invariant walk.At? && walk.last <= |all|
        invariant walk == WalkRows(mac, logs, all[..walk.last])
        invariant done ==> walk.last == |all|
        decreases |all| - walk.last, !done
      {
        RestOfChain(mac, logs, user, walk.last);
        done, walk := VerifyPage(mac, user, batch, walk.last, walk.prev, all);
        if walk.Stopped? {
          return;
        }
      }
      assert all[..walk.last] == all;
    }

    /** `verify_audit_chain`: batch by batch it reaches the verdict of one pass over one snapshot. */
    method VerifyAuditChain(mac: Macs, user: Uuid, batch: nat) returns (report: Report)
      requires batch >= 1 && UniqueSeq(logs)
      ensures report == Verify(mac, Value(), user)
    {
      ChainIsChained(logs, user, 0);
      var unchained := |LegacyKeys(logs, user)|;
      var walk := VerifyRows(mac, user, batch, Chain(logs, user));
      if walk.Stopped? {
        return Report(walk.last, unchained, Broken(Some(walk.seqNo), walk.reason));
      }
      var status := VerifyHead(mac, user, walk.last, walk.prev, unchained);
      report := Report(walk.last, unchained, status);
    }

    // --- appending --------------------------------------------------------------------------------

    /** `adopt_legacy_rows`: number and link the legacy rows one `UPDATE` at a time. */
    method AdoptRows(mac: Macs, user: Uuid) returns (r: Result<(I64, Hash), StoreError>)
      modifies this
      ensures heads == old(heads)
      ensures match AdoptLegacyRows(mac, old(Value()), user)
        case Ok(tip) => r == Ok((tip.seqNo, tip.hash)) && Value() == tip.db
        case Err(error) => r == Err(error)
    {
      ghost var before := logs;
      SortedInLogs(logs, LegacyKeys(logs, user));
      var legacy := Sorted(LegacyKeys(logs, user));
      var fetched := logs;
      var seqNo, prev := 0, GENESIS_PREV_HASH;
      while seqNo < |legacy|
        invariant 0 <= seqNo <= |legacy| && seqNo <= I64_MAX && heads == old(heads)
        invariant (logs, prev) == LinkInOrder(mac, before, legacy[..seqNo])
      {
        if seqNo == I64_MAX {
          return Err(Database);
        }
        assert legacy[..seqNo + 1][..seqNo] == legacy[..seqNo];
        var row := fetched[legacy[seqNo]].Linked(mac, legacy[seqNo], seqNo + 1, prev);
        logs := logs[legacy[seqNo] := row];
        seqNo, prev := seqNo + 1, row.rowHash.value;
      }
      assert legacy[..seqNo] == legacy;
      r := Ok((seqNo, prev));
    }

    /** `chain_tip`. */
    method FindTip(mac: Macs, user: Uuid) returns (r: Result<(I64, Hash), StoreError>)
      modifies this
      ensures match ChainTip(mac, old(Value()), user)
        case Ok(tip) => r == Ok((tip.seqNo, tip.hash)) && Value() == tip.db
        case Err(error) => r == Err(error)
    {
      if user in heads {
        var pinned := HeadVerified(mac, user, heads[user]);
        return if pinned.Some? then Ok(pinned.value) else Err(AuditChainCorrupt);
      }
      if HasChainedRow(logs, user) {
        return Err(AuditChainCorrupt);
      }
      r := AdoptRows(mac, user);
    }

    /** `append_link`, inside the caller's transaction. */
    method AppendLink(mac: Macs, user: Uuid, e: Event) returns (r: Result<(), StoreError>)
      modifies this
      ensures match Append(mac, old(Value()), user, e)
        case Ok(db) => r == Ok(()) && Value() == db
        case Err(error) => r == Err(error)
    {
      var tip := FindTip(mac, user);
      if tip.Err? {
        return Err(tip.error);
      }
      var (tipSeq, prev) := tip.value;
      var inserted := InsertLink(mac, logs, user, e, tipSeq, prev);
      if inserted.Err? {
        return Err(inserted.error);
      }
      logs := inserted.value;
      var seqNo, hash := tipSeq + 1, mac.row(prev, e.ToRow(user).Fields(e.id, tipSeq + 1));
      heads := heads[user := Head(seqNo, hash, mac.head(user, seqNo, hash))];
      r := Ok(());
    }

    // --- anonymising ------------------------------------------------------------------------------

    /** Where a rewrite has got to: the first `n` rows checked as they were and rewritten. */
    ghost predicate Rewriting(mac: Macs, before: Logs, all: seq<nat>, n: nat, oldPrev: Hash, newPrev: Hash)
      reads this
    {
      && n <= |all| && n <= I64_MAX && AllChained(before, all)
      && WalkRows(mac, before, all[..n]) == At(n, oldPrev)
      && (logs, newPrev) == RewriteRows(mac, before, all[..n])
    }

    /** Check, scrub and relink one fetched row. */
    method RewriteRow(mac: Macs, id: Uuid, row: Row, lastSeq: nat, oldPrev: Hash, newPrev: Hash, ghost before: Logs,
                      ghost all: seq<nat>)
      returns (r: Option<(Hash, Hash)>)
      requires Rewriting(mac, before, all, lastSeq, oldPrev, newPrev) && Distinct(all)
      requires lastSeq < |all| && id == all[lastSeq] && row == before[id]
      modifies this`logs
      ensures r.Some? ==> Rewriting(mac, before, all, lastSeq + 1, r.value.0, r.value.1)
      ensures r.None? ==> logs == old(logs) && WalkRows(mac, before, all).Stopped?
    {
      RowVerdict(mac, before, all, lastSeq);
      if row.seqNo.value != lastSeq + 1 || ToHash(row.prevHash) != Some(oldPrev) {
        return None;
      }
      var oldHash := mac.row(oldPrev, row.Fields(id, row.seqNo.value));
      if ToHash(row.rowHash) != Some(oldHash) {
        return None;
      }
      var scrubbed := row.Scrubbed();
      var newHash := mac.row(newPrev, scrubbed.Fields(id, row.seqNo.value));
      logs := logs[id := scrubbed.(prevHash := Some(newPrev), rowHash := Some(newHash))];
      assert all[..lastSeq + 1][..lastSeq] == all[..lastSeq];
      r := Some((oldHash, newHash));
    }

    /** One fetched page of a rewrite; the rows are the ones read before any of them changed. */
    method RewriteBatch(mac: Macs, rows: seq<nat>, fetched: Logs, lastSeq: nat, oldPrev: Hash, newPrev: Hash,
                        ghost before: Logs, ghost all: seq<nat>)
      returns (r: Option<(nat, Hash, Hash)>)
      requires Rewriting(mac, before, all, lastSeq, oldPrev, newPrev) && Distinct(all)
      requires lastSeq + |rows| <= |all| && rows == all[lastSeq..lastSeq + |rows|]
      requires forall i :: 0 <= i < |rows| ==> rows[i] in fetched && fetched[rows[i]] == before[rows[i]]
      modifies this`logs
      ensures r.Some? ==> r.value.0 == lastSeq + |rows| && Rewriting(mac, before, all, r.value.0, r.value.1, r.value.2)
      ensures r.None? ==> WalkRows(mac, before, all).Stopped?
    {
      var last, checked, rewritten := lastSeq, oldPrev, newPrev;
      var i := 0;
      while i < |rows|
        invariant 0 <= i <= |rows| && last == lastSeq + i
        invariant Rewriting(mac, before, all, last, checked, rewritten)
      {
        assert rows[i] == all[last];
        var step := RewriteRow(mac, rows[i], fetched[rows[i]], last, checked, rewritten, before, all);
        if step.None? {
          return None;
        }
        last, checked, rewritten := last + 1, step.value.0, step.value.1;
        i := i + 1;
      }
      r := Some((last, checked, rewritten));
    }

    /** Fetch and rewrite the next page; `done` when there is none. */
    method RewritePage(mac: Macs, user: Uuid, batch: nat, lastSeq: nat, oldPrev: Hash, newPrev: Hash,
                       ghost before: Logs, ghost all: seq<nat>)
      returns (done: bool, r: Option<(nat, Hash, Hash)>)
      requires batch >= 1 && Rewriting(mac, before, all, lastSeq, oldPrev, newPrev) && Distinct(all)
      requires Sorted(ChainKeys(logs, user, lastSeq)) == all[lastSeq..]
      requires forall i :: lastSeq <= i < |all| ==> all[i] in logs && logs[all[i]] == before[all[i]]
      modifies this`logs
      ensures done ==> lastSeq == |all| && r == Some((lastSeq, oldPrev, newPrev))
      ensures r.Some? ==> (done || lastSeq < r.value.0) && Rewriting(mac, before, all, r.value.0, r.value.1, r.value.2)
      ensures r.None? ==> WalkRows(mac, before, all).Stopped?
    {
      var rows := SelectPage(user, lastSeq, batch);
      PageSlice(all, lastSeq, Sorted(ChainKeys(logs, user, lastSeq)), batch, rows);
      if rows == [] {
        return true, Some((lastSeq, oldPrev, newPrev));
      }
      assert forall i :: 0 <= i < |rows| ==> rows[i] == all[lastSeq + i];
      r := RewriteBatch(mac, rows, logs, lastSeq, oldPrev, newPrev, before, all);
      done := false;
    }

    /** Rewrite the chain page by page, for any page size. */
    method RewriteChain(mac: Macs, user: Uuid, batch: nat, ghost all: seq<nat>) returns (r: Option<(nat, Hash, Hash)>)
      requires batch >= 1 && UniqueSeq(logs) && all == Chain(logs, user) && AllChained(logs, all)
      modifies this`logs
      ensures r.Some? ==> r.value.0 == |all| <= I64_MAX && WalkRows(mac, old(logs), all) == At(|all|, r.value.1)
      ensures r.Some? ==> (logs, r.value.2) == RewriteRows(mac, old(logs), all)
      ensures r.None? ==> WalkRows(mac, old(logs), all).Stopped?
    {
      ghost var before := logs;
      ChainMembers(before, user);
      var last, checked, rewritten := 0, GENESIS_PREV_HASH, GENESIS_PREV_HASH;
      var done := false;
      while !done
        invariant Rewriting(mac, before, all, last, checked, rewritten)
        invariant done ==> last == |all|
        decreases |all| - last, !done
      {
        RestOfRewrite(mac, before, user, last);
        done, r := RewritePage(mac, user, batch, last, checked, rewritten, before, all);
        if r.None? {
          return;
        }
        last, checked, rewritten := r.value.0, r.value.1, r.value.2;
      }
      assert all[..last] == all;
      r := Some((last, checked, rewritten));
    }

    /** `anonymise_chain`: rewriting rows under the paging cursor gives the one-pass result. */
    method AnonymiseChain(mac: Macs, user: Uuid, batch: nat) returns (r: Result<nat, StoreError>)
      requires batch >= 1 && UniqueSeq(logs)
      modifies this
      ensures match Anonymise(mac, old(Value()), user)
        case Ok(done) => r == Ok(done.1) && Value() == done.0
        case Err(error) => r == Err(error)
    {
      ghost var db := Value();
      var tip := FindTip(mac, user);
      if tip.Err? {
        return Err(tip.error);
      }
      TipKeepsIndex(mac, db, user);
      ChainIsChained(logs, user, 0);
      r := RewriteFrom(mac, user, batch, tip.value.0, tip.value.1);
    }

    /** The rewrite proper, from a verified tip. */
    method RewriteFrom(mac: Macs, user: Uuid, batch: nat, tipSeq: I64, tipHash: Hash)
      returns (r: Result<nat, StoreError>)
      requires batch >= 1 && UniqueSeq(logs)
      modifies this
      ensures match AnonymiseAt(mac, Tip(old(Value()), tipSeq, tipHash), user)
        case Ok(done) => r == Ok(done.1) && Value() == done.0
        case Err(error) => r == Err(error)
    {
      ghost var before, all := logs, Chain(logs, user);
      ChainIsChained(logs, user, 0);
      WalkCounts(mac, logs, all);
      var walked := RewriteChain(mac, user, batch, all);
      if walked.None? {
        return Err(AuditChainCorrupt);
      }
      var (lastSeq, oldPrev, newPrev) := walked.value;
      if lastSeq != tipSeq || oldPrev != tipHash {
        return Err(AuditChainCorrupt);
      }
      RewriteRowsIsRelink(mac, before, all);
      var count := FinishRewrite(mac, user, lastSeq, newPrev, before, all);
      r := Ok(count);
    }

    /** Move the head to the rewritten end, then scrub stray unchained rows. */
    method FinishRewrite(mac: Macs, user: Uuid, lastSeq: nat, newPrev: Hash, ghost before: Logs, ghost all: seq<nat>)
      returns (count: nat)
      requires lastSeq == |all| <= I64_MAX && forall i :: 0 <= i < |all| ==> all[i] in before
      requires (logs, newPrev) == Relink(mac, before, all)
      modifies this
      ensures (Value(), count) == Rewrite(mac, Db(before, old(heads)), user, all)
    {
      if lastSeq > 0 {
        heads := heads[user := Head(lastSeq, newPrev, mac.head(user, lastSeq, newPrev))];
      }
      var stray := Stray(logs, user);
      logs := Scrub(logs, stray);
      count := lastSeq + |stray|;
    }
  }

  /** The committed tables; each operation works on its own copy and commits it only on success. */
  class Store {
    var accounts: Accounts
    var tables: Tables

    constructor (w: AuditRuns.World)
      ensures World() == w && fresh(tables)
    {
      accounts := w.accounts;
      tables := new Tables(w.db);
    }

    function World(): AuditRuns.World
      reads this, tables
    {
      AuditRuns.World(accounts, tables.Value())
    }

    /** `record_audit`. */
    method RecordAudit(mac: Macs, user: Uuid, event: Event) returns (r: Result<(), StoreError>)
      modifies this
      ensures World() == Apply(mac, old(World()), Op.RecordAudit(user, event))
      ensures r.Ok? <==> Append(mac, old(World()).db, user, event).Ok?
    {
      var tx := new Tables(tables.Value());
      r := tx.AppendLink(mac, user, event);
      if r.Ok? {
        tables := tx;
      }
    }

    /** `delete_account`: the wallet check, then anonymise, then append, in one transaction. */
    method DeleteAccount(mac: Macs, user: Uuid, checked: seq<Uuid>, id: Uuid, now: I64, batch: nat)
      returns (r: Result<nat, StoreError>)
      requires batch >= 1 && UniqueSeq(tables.logs)
      modifies this
      ensures World() == Apply(mac, old(World()), Delete(user, checked, id, now))
      ensures match AuditChain.DeleteAccount(mac, old(accounts), old(tables.Value()), user, checked, id, now)
        case Ok(done) => r == Ok(done.2)
        case Err(error) => r == Err(error)
    {
      if user !in accounts.users || accounts.users[user] {
        return Err(NotFound);
      }
      if multiset(checked) != multiset(accounts.WalletsOf(user)) {
        return Err(Conflict);
      }
      var tx := new Tables(tables.Value());
      r := tx.AnonymiseChain(mac, user, batch);
      if r.Err? {
        return;
      }
      var appended := tx.AppendLink(mac, user, DeletionEvent(id, now));
      if appended.Err? {
        return Err(appended.error);
      }
      accounts := accounts.(users := accounts.users[user := true]);
      tables := tx;
    }
  }
}
