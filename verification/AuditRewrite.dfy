/** The anonymising rewrite one row at a time, and why paging through it misses nothing. */
module AuditRewrite {
  import opened Wrappers
  import opened Bytes
  import opened AuditEncoding
  import opened AuditChain

  /** Scrub and relink `ids[0]`, `ids[1]`, ... one after the other, leaving later rows as they are. */
  function RewriteRows(mac: Macs, logs: Logs, ids: seq<nat>): (Logs, Hash)
    requires |ids| <= I64_MAX
    requires forall i :: 0 <= i < |ids| ==> ids[i] in logs
  {
    if ids == [] then (logs, GENESIS_PREV_HASH)
    else
      var n := |ids| - 1;
      var (done, prev) := RewriteRows(mac, logs, ids[..n]);
      var row := logs[ids[n]].Scrubbed().Linked(mac, ids[n], n + 1, prev);
      (done[ids[n] := row], row.rowHash.value)
  }

  lemma ScrubUpdate(logs: Logs, ids: set<nat>, id: Uuid, row: Row)
    ensures Scrub(logs, ids)[id := row] == Scrub(logs[id := row], ids - {id})
  {
  }

  /** Scrubbing some rows up front changes only those of them the rewrite has not reached. */
  lemma {:induction false} ScrubbedAhead(mac: Macs, logs: Logs, ahead: set<nat>, ids: seq<nat>)
    requires |ids| <= I64_MAX && Elements(ids) <= ahead
    requires forall i :: 0 <= i < |ids| ==> ids[i] in logs
    ensures var rewritten := RewriteRows(mac, logs, ids);
      LinkInOrder(mac, Scrub(logs, ahead), ids) == (Scrub(rewritten.0, ahead - Elements(ids)), rewritten.1)
  {
    if ids == [] {
      assert ahead - Elements(ids) == ahead;
    } else {
      var n := |ids| - 1;
      var init := ids[..n];
      assert Elements(ids) == Elements(init) + {ids[n]} by {
        assert ids == init + [ids[n]];
        assert ids[n] in Elements(ids);
        forall id | id in Elements(init) ensures id in Elements(ids) {
          var i :| 0 <= i < |init| && init[i] == id;
          assert ids[i] == id;
        }
      }
      ScrubbedAhead(mac, logs, ahead, init);
      ScrubUpdate(RewriteRows(mac, logs, init).0, ahead - Elements(init), ids[n],
                  RewriteRows(mac, logs, ids).0[ids[n]]);
      assert ahead - Elements(ids) == ahead - Elements(init) - {ids[n]};
    }
  }

  /** Rewriting row by row is scrubbing them all and then linking them all. */
  lemma RewriteRowsIsRelink(mac: Macs, logs: Logs, ids: seq<nat>)
    requires |ids| <= I64_MAX
    requires forall i :: 0 <= i < |ids| ==> ids[i] in logs
    ensures RewriteRows(mac, logs, ids) == Relink(mac, logs, ids)
  {
    ScrubbedAhead(mac, logs, Elements(ids), ids);
    assert Elements(ids) - Elements(ids) == {};
    assert Scrub(RewriteRows(mac, logs, ids).0, {}) == RewriteRows(mac, logs, ids).0;
  }

  /** Rewriting rows already at positions 1, 2, ... moves none of them and touches no other. */
  lemma {:induction false} RewriteKeepsPlaces(mac: Macs, logs: Logs, ids: seq<nat>)
    requires |ids| <= I64_MAX
    requires forall i :: 0 <= i < |ids| ==> ids[i] in logs && logs[ids[i]].seqNo == Some(i + 1)
    ensures var rewritten := RewriteRows(mac, logs, ids).0;
      && rewritten.Keys == logs.Keys
      && (forall id :: id in logs ==> rewritten[id].userId == logs[id].userId && rewritten[id].seqNo == logs[id].seqNo)
      && (forall id :: id in logs && id !in ids ==> rewritten[id] == logs[id])
  {
    if ids != [] {
      RewriteKeepsPlaces(mac, logs, ids[..|ids| - 1]);
    }
  }

  /** A page taken half way through a rewrite lists what it would have listed before it. */
  lemma PageUnmoved(mac: Macs, logs: Logs, user: Uuid, ids: seq<nat>, after: int)
    requires |ids| <= I64_MAX
    requires forall i :: 0 <= i < |ids| ==> ids[i] in logs && logs[ids[i]].seqNo == Some(i + 1)
    ensures ChainKeys(RewriteRows(mac, logs, ids).0, user, after) == ChainKeys(logs, user, after)
  {
    RewriteKeepsPlaces(mac, logs, ids);
  }
}
