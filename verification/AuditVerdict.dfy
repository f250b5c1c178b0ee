/** What the verifier reports, from the rows and the head alone. */
module AuditVerdict {
  import opened Wrappers
  import opened Bytes
  import opened AuditEncoding
  import opened AuditChain
  import opened AuditLedger

  /** The hash a row must store at position `n` after a row hashing to `prev`. */
  ghost function HashAt(mac: Macs, link: Link, n: I64, prev: Hash): Hash {
    mac.row(prev, LinkFields(link.id, link.row.userId, n, link.row.action, link.row.category, link.row.target,
                             link.row.ipAddress, link.row.createdAt))
  }

  /** The rows written before chaining, by the columns that say so. */
  ghost function LegacyIds(logs: Logs, user: Uuid): set<nat> {
    set id | id in logs.Keys && logs[id].userId == user && logs[id].seqNo == None
  }

  lemma LegacyCount(logs: Logs, user: Uuid)
    ensures |LegacyKeys(logs, user)| == |LegacyIds(logs, user)|
  {
    assert LegacyKeys(logs, user).Keys == LegacyIds(logs, user);
    assert |LegacyKeys(logs, user).Keys| == |LegacyKeys(logs, user)|;
  }

  /** A walk over a prefix decides the walk over what follows only through its last row. */
  lemma WalkAfter(mac: Macs, logs: Logs, ids: seq<nat>, k: nat)
    requires AllChained(logs, ids) && k < |ids|
    ensures var before := WalkRows(mac, logs, ids[..k]);
      WalkRows(mac, logs, ids[..k + 1])
      == if before.At? then CheckRow(mac, logs, ids[k], before.last, before.prev) else before
  {
    assert ids[..k + 1][..k] == ids[..k];
  }

  lemma {:induction false} StoppedStays(mac: Macs, logs: Logs, ids: seq<nat>, k: nat)
    requires AllChained(logs, ids) && k <= |ids| && WalkRows(mac, logs, ids[..k]).Stopped?
    ensures WalkRows(mac, logs, ids) == WalkRows(mac, logs, ids[..k])
    decreases |ids|
  {
    if k == |ids| {
      assert ids[..k] == ids;
    } else {
      var n := |ids| - 1;
      assert ids[..n][..k] == ids[..k];
      StoppedStays(mac, logs, ids[..n], k);
    }
  }

  /**
   * The first row that does not belong, after `k` that do, is what the verifier reports: a gap before it,
   * a link that is not to the row before, or a hash that is not its own.
   */
  lemma FirstBadRow(mac: Macs, db: Db, user: Uuid, k: nat, prev: Hash)
    requires BadAt(mac, History(db, user), k, prev)
    ensures var link := History(db, user)[k];
      Verify(mac, db, user) == Report(k, |LegacyIds(db.logs, user)|, Broken(Some(k + 1),
        if link.row.seqNo != Some(k + 1) then SequenceGap
        else if link.row.prevHash != Some(prev) then PrevHashUnlinked else RowHashMismatch))
  {
    var logs, ids := db.logs, Chain(db.logs, user);
    ChainIsChained(logs, user, 0);
    LegacyCount(logs, user);
    assert Links(logs, ids)[..k] == Links(logs, ids[..k]);
    WalkIsHashChain(mac, logs, ids[..k], prev);
    WalkAfter(mac, logs, ids, k);
    StoppedStays(mac, logs, ids, k + 1);
  }

  /** When every row belongs, the head decides. */
  lemma GoodChain(mac: Macs, db: Db, user: Uuid, prev: Hash)
    requires HashChain(mac, History(db, user), prev)
    ensures var (n, legacy) := (|History(db, user)|, |LegacyIds(db.logs, user)|);
      && Verify(mac, db, user).rowsVerified == n && Verify(mac, db, user).unchainedRows == legacy
      && Verify(mac, db, user).status ==
           if user !in db.heads then
             if n > 0 then Broken(None, HeadMissing) else if legacy > 0 then Unchained else Intact
           else
             var head := db.heads[user];
             if |head.rowHash| != 32 || head.headMac != mac.head(user, head.seqNo, head.rowHash)
               then Broken(None, HeadMacInvalid)
             else if n < head.seqNo then Broken(Some(n + 1), RowsCutFromEnd)
             else if n > head.seqNo || head.rowHash != prev then Broken(Some(head.seqNo), HeadMismatch)
             else if legacy > 0 then Broken(None, UnchainedAfterStart)
             else Intact
  {
    var logs, ids := db.logs, Chain(db.logs, user);
    ChainIsChained(logs, user, 0);
    LegacyCount(logs, user);
    WalkIsHashChain(mac, logs, ids, prev);
  }

  /** One of the two is always the case. */
  lemma {:induction false} GoodOrFirstBad(mac: Macs, links: seq<Link>)
    requires |links| <= I64_MAX
    ensures || (exists prev: Hash :: AllGood(mac, links, prev))
            || (exists k: nat, prev: Hash :: BadAt(mac, links, k, prev))
  {
    if links == [] {
      assert AllGood(mac, links, GENESIS_PREV_HASH);
    } else {
      var n := |links| - 1;
      GoodOrFirstBad(mac, links[..n]);
      if prev: Hash :| AllGood(mac, links[..n], prev) {
        if !BadAt(mac, links, n, prev) {
          assert AllGood(mac, links, HashAt(mac, links[n], n + 1, prev));
        }
      } else {
        var k: nat, prev: Hash :| BadAt(mac, links[..n], k, prev);
        assert links[..n][..k] == links[..k];
        assert BadAt(mac, links, k, prev);
      }
    }
  }

  /** All rows belong, and the last hashes to `prev`. */
  ghost predicate AllGood(mac: Macs, links: seq<Link>, prev: Hash) {
    HashChain(mac, links, prev)
  }

  /** The first `k` rows belong, and the next does not. */
  ghost predicate BadAt(mac: Macs, links: seq<Link>, k: nat, prev: Hash) {
    && k < |links| && k < I64_MAX && HashChain(mac, links[..k], prev)
    && !(&& links[k].row.seqNo == Some(k + 1) && links[k].row.prevHash == Some(prev)
         && links[k].row.rowHash == Some(HashAt(mac, links[k], k + 1, prev)))
  }
}
