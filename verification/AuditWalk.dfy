/** How walks over chained rows react to each kind of table update. */
module AuditWalk {
  import opened Wrappers
  import opened Bytes
  import opened AuditEncoding
  import opened Ordering
  import opened AuditChain

  /** The columns that are not chain columns. */
  function Content(row: Row): Row {
    row.(seqNo := None, prevHash := None, rowHash := None)
  }

  ghost predicate Distinct(ids: seq<nat>) {
    forall i, j :: 0 <= i < j < |ids| ==> ids[i] != ids[j]
  }

  /** A walk reads only the rows it visits. */
  lemma {:induction false} WalkFrame(mac: Macs, a: Logs, b: Logs, ids: seq<nat>)
    requires AllChained(a, ids)
    requires forall i :: 0 <= i < |ids| ==> ids[i] in b && b[ids[i]] == a[ids[i]]
    ensures AllChained(b, ids) && WalkRows(mac, a, ids) == WalkRows(mac, b, ids)
  {
    if ids != [] {
      WalkFrame(mac, a, b, ids[..|ids| - 1]);
    }
  }

  /** Linking rows in order touches no other row. */
  lemma {:induction false} LinkInOrderFrame(mac: Macs, logs: Logs, ids: seq<nat>)
    requires |ids| <= I64_MAX
    requires forall i :: 0 <= i < |ids| ==> ids[i] in logs
    ensures LinkInOrder(mac, logs, ids).0.Keys == logs.Keys
    ensures forall id :: id in logs && id !in ids ==> LinkInOrder(mac, logs, ids).0[id] == logs[id]
  {
    if ids != [] {
      LinkInOrderFrame(mac, logs, ids[..|ids| - 1]);
    }
  }

  /** The `i`-th row is linked at position `i + 1`, after the rows before it. */
  lemma {:induction false} LinkInOrderRow(mac: Macs, logs: Logs, ids: seq<nat>, i: nat)
    requires |ids| <= I64_MAX && Distinct(ids) && i < |ids|
    requires forall k :: 0 <= k < |ids| ==> ids[k] in logs
    ensures ids[i] in LinkInOrder(mac, logs, ids).0
    ensures LinkInOrder(mac, logs, ids).0[ids[i]]
         == logs[ids[i]].Linked(mac, ids[i], i + 1, LinkInOrder(mac, logs, ids[..i]).1)
  {
    var n := |ids| - 1;
    if i < n {
      LinkInOrderRow(mac, logs, ids[..n], i);
      assert ids[..n][..i] == ids[..i] && ids[..n][i] == ids[i];
    }
  }

  /** Linking rows in order changes their chain columns and nothing else. */
  lemma LinkInOrderShape(mac: Macs, logs: Logs, ids: seq<nat>)
    requires |ids| <= I64_MAX && Distinct(ids)
    requires forall i :: 0 <= i < |ids| ==> ids[i] in logs
    ensures var linked := LinkInOrder(mac, logs, ids).0;
      && linked.Keys == logs.Keys
      && (forall id :: id in logs && id !in ids ==> linked[id] == logs[id])
      && (forall id :: id in logs ==> Content(linked[id]) == Content(logs[id]))
      && (forall i :: 0 <= i < |ids| ==> linked[ids[i]].seqNo == Some(i + 1))
  {
    LinkInOrderFrame(mac, logs, ids);
    var linked := LinkInOrder(mac, logs, ids).0;
    forall i | 0 <= i < |ids|
      ensures linked[ids[i]].seqNo == Some(i + 1) && Content(linked[ids[i]]) == Content(logs[ids[i]])
    {
      LinkInOrderRow(mac, logs, ids, i);
    }
  }

  /** A row passes its check right where it was linked. */
  lemma LinkedChecks(mac: Macs, logs: Logs, id: Uuid, row: Row, n: nat, prev: Hash)
    requires n < I64_MAX
    ensures var linked := row.Linked(mac, id, n + 1, prev);
      CheckRow(mac, logs[id := linked], id, n, prev) == At(n + 1, linked.rowHash.value)
  {
  }

  lemma WalkLast(mac: Macs, logs: Logs, ids: seq<nat>, id: nat)
    requires id in logs && logs[id].seqNo.Some? && AllChained(logs, ids + [id]) && AllChained(logs, ids)
    requires WalkRows(mac, logs, ids).At?
    ensures var walk := WalkRows(mac, logs, ids);
      WalkRows(mac, logs, ids + [id]) == CheckRow(mac, logs, id, walk.last, walk.prev)
  {
    assert (ids + [id])[..|ids|] == ids;
    assert (ids + [id])[|ids|] == id;
  }

  /** A row linked after the end of a walk extends the walk by one. */
  lemma ExtendWalk(mac: Macs, logs: Logs, ids: seq<nat>, id: Uuid, row: Row)
    requires AllChained(logs, ids) && id !in ids
    requires WalkRows(mac, logs, ids).At? && |ids| < I64_MAX
    ensures WalkRows(mac, logs, ids).last == |ids|
    ensures var linked := row.Linked(mac, id, |ids| + 1, WalkRows(mac, logs, ids).prev);
      && AllChained(logs[id := linked], ids + [id])
      && WalkRows(mac, logs[id := linked], ids + [id]) == At(|ids| + 1, linked.rowHash.value)
  {
    WalkCounts(mac, logs, ids);
    var linked := row.Linked(mac, id, |ids| + 1, WalkRows(mac, logs, ids).prev);
    WalkFrame(mac, logs, logs[id := linked], ids);
    LinkedChecks(mac, logs, id, row, |ids|, WalkRows(mac, logs, ids).prev);
    WalkLast(mac, logs[id := linked], ids, id);
  }

  /** Rows linked in order walk from end to end. */
  lemma {:induction false} LinkInOrderWalks(mac: Macs, logs: Logs, ids: seq<nat>)
    requires |ids| <= I64_MAX && Distinct(ids)
    requires forall i :: 0 <= i < |ids| ==> ids[i] in logs
    ensures AllChained(LinkInOrder(mac, logs, ids).0, ids)
    ensures WalkRows(mac, LinkInOrder(mac, logs, ids).0, ids) == At(|ids|, LinkInOrder(mac, logs, ids).1)
  {
    if ids != [] {
      var n := |ids| - 1;
      LinkInOrderWalks(mac, logs, ids[..n]);
      ExtendWalk(mac, LinkInOrder(mac, logs, ids[..n]).0, ids[..n], ids[n], logs[ids[n]]);
      assert ids[..n] + [ids[n]] == ids;
    }
  }

  /** Ids at positions 1, 2, ... are the user's chain when they are all of its chained rows. */
  lemma PositionsAreChain(logs: Logs, user: Uuid, ids: seq<nat>)
    requires forall i :: 0 <= i < |ids| ==>
               ids[i] in logs && logs[ids[i]].userId == user && logs[ids[i]].seqNo == Some(i + 1)
    requires forall id :: id in ChainKeys(logs, user, 0) ==> id in ids
    ensures Chain(logs, user) == ids
  {
    var keys := ChainKeys(logs, user, 0);
    forall id ensures id in ids <==> id in keys {
      if id in ids {
        var i :| 0 <= i < |ids| && ids[i] == id;
      }
    }
    ListingIsSorted(keys, ids);
  }

  /** Facts about `Chain` used everywhere. */
  lemma ChainMembers(logs: Logs, user: Uuid)
    ensures AllChained(logs, Chain(logs, user)) && Distinct(Chain(logs, user))
    ensures forall id :: id in Chain(logs, user) <==> id in ChainKeys(logs, user, 0)
    ensures |Chain(logs, user)| == |ChainKeys(logs, user, 0)|
    ensures forall i :: 0 <= i < |Chain(logs, user)| ==> Chain(logs, user)[i] in ChainKeys(logs, user, 0)
  {
    var keys := ChainKeys(logs, user, 0);
    SortedIsListing(keys);
    ChainIsChained(logs, user, 0);
    forall i | 0 <= i < |Sorted(keys)| ensures Sorted(keys)[i] in keys {
      assert Sorted(keys)[i] in Sorted(keys);
    }
  }

  /** Verification of one user reads only that user's rows and head. */
  lemma VerifyFrame(mac: Macs, a: Db, b: Db, user: Uuid)
    requires forall id :: id in a.logs && a.logs[id].userId == user ==> id in b.logs && b.logs[id] == a.logs[id]
    requires forall id :: id in b.logs && b.logs[id].userId == user ==> id in a.logs && a.logs[id] == b.logs[id]
    requires HeadOf(a, user) == HeadOf(b, user)
    ensures Verify(mac, a, user) == Verify(mac, b, user)
  {
    assert ChainKeys(a.logs, user, 0) == ChainKeys(b.logs, user, 0);
    assert LegacyKeys(a.logs, user) == LegacyKeys(b.logs, user);
    ChainMembers(a.logs, user);
    WalkFrame(mac, a.logs, b.logs, Chain(a.logs, user));
  }
}
