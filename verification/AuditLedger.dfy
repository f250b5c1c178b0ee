/** Who wrote an intact chain: the rows a verified head commits to. */
module AuditLedger {
  import opened Wrappers
  import opened Bytes
  import opened AuditEncoding
  import opened AuditChain
  import opened AuditWalk
  import opened AuditHealth
  import opened AuditRuns

  datatype Link = Link(id: Uuid, row: Row)

  /** The chained rows `ids` of a table, in order. */
  ghost function Links(logs: Logs, ids: seq<nat>): seq<Link>
    requires forall i :: 0 <= i < |ids| ==> ids[i] in logs
  {
    seq(|ids|, i requires 0 <= i < |ids| => Link(ids[i], logs[ids[i]]))
  }

  /** A user's chain as it stands. */
  ghost function History(db: Db, user: Uuid): seq<Link> {
    ChainIsChained(db.logs, user, 0);
    Links(db.logs, Chain(db.logs, user))
  }

  /**
   * The rows are numbered from 1, each stores the hash of the one before, and each stores its own
   * hash; the last of these is `h`.
   */
  ghost predicate HashChain(mac: Macs, links: seq<Link>, h: Hash) {
    if links == [] then h == GENESIS_PREV_HASH
    else
      var n := |links|;
      var Link(id, row) := links[n - 1];
      && row.seqNo == Some(n)
      && row.prevHash.Some? && |row.prevHash.value| == 32
      && row.rowHash == Some(h)
      && h == mac.row(row.prevHash.value, row.Fields(id, row.seqNo.value))
      && HashChain(mac, links[..n - 1], row.prevHash.value)
  }

  /** The walk accepts exactly the hash chains. */
  lemma {:induction false} WalkIsHashChain(mac: Macs, logs: Logs, ids: seq<nat>, h: Hash)
    requires AllChained(logs, ids)
    ensures WalkRows(mac, logs, ids) == At(|ids|, h) <==> HashChain(mac, Links(logs, ids), h)
  {
    if ids != [] {
      var n := |ids| - 1;
      var row := logs[ids[n]];
      assert Links(logs, ids)[..n] == Links(logs, ids[..n]);
      WalkCounts(mac, logs, ids[..n]);
      if row.prevHash.Some? && |row.prevHash.value| == 32 {
        WalkIsHashChain(mac, logs, ids[..n], row.prevHash.value);
      }
    }
  }

  // --- one hash, one history --------------------------------------------------------------------

  ghost predicate Hashable(link: Link) {
    link.row.seqNo.Some? && link.row.prevHash.Some? && |link.row.prevHash.value| == 32
  }

  ghost function FieldsOf(link: Link): LinkFields
    requires Hashable(link)
  {
    link.row.Fields(link.id, link.row.seqNo.value)
  }

  /** The row hash tells two rows apart. */
  ghost predicate TellsApart(mac: Macs, x: Link, y: Link) {
    Hashable(x) && Hashable(y)
    && mac.row(x.row.prevHash.value, FieldsOf(x)) == mac.row(y.row.prevHash.value, FieldsOf(y))
    ==> x.row.prevHash == y.row.prevHash && FieldsOf(x) == FieldsOf(y)
  }

  ghost predicate TellsAllApart(mac: Macs, a: seq<Link>, b: seq<Link>) {
    forall i, j :: 0 <= i < |a| && 0 <= j < |b| ==> TellsApart(mac, a[i], b[j])
  }

  ghost function Message(link: Link): Bytes
    requires Hashable(link)
  {
    RowMessage(link.row.prevHash.value, FieldsOf(link))
  }

  /** The MAC has no collision between a message of `a` and a message of `b`. */
  ghost predicate NoCollision(mac: Mac, a: seq<Link>, b: seq<Link>) {
    forall i, j ::
      0 <= i < |a| && 0 <= j < |b| && Hashable(a[i]) && Hashable(b[j]) && Message(a[i]) != Message(b[j])
      ==> mac(Message(a[i])) != mac(Message(b[j]))
  }

  /** Because the encoding is injective, a MAC without collisions tells rows apart. */
  lemma EncodingTellsApart(mac: Mac, a: seq<Link>, b: seq<Link>)
    requires NoCollision(mac, a, b)
    ensures TellsAllApart(Keyed(mac), a, b)
  {
    forall i, j | 0 <= i < |a| && 0 <= j < |b| ensures TellsApart(Keyed(mac), a[i], b[j]) {
      if Hashable(a[i]) && Hashable(b[j]) && Message(a[i]) == Message(b[j]) {
        RowMessageInjective(a[i].row.prevHash.value, FieldsOf(a[i]), b[j].row.prevHash.value, FieldsOf(b[j]));
      }
    }
  }

  /** Two hash chains with one final hash are the same rows. */
  lemma {:induction false} SameHashSameRows(mac: Macs, a: seq<Link>, b: seq<Link>, h: Hash)
    requires HashChain(mac, a, h) && HashChain(mac, b, h)
    requires (a == [] <==> b == []) && TellsAllApart(mac, a, b)
    ensures a == b
    decreases |a|
  {
    if a != [] {
      var m, n := |a|, |b|;
      var x, y := a[m - 1], b[n - 1];
      assert TellsApart(mac, x, y);
      SameHashSameRows(mac, a[..m - 1], b[..n - 1], x.row.prevHash.value);
      assert a == a[..m - 1] + [x] && b == b[..n - 1] + [y];
    }
  }

  /** An intact user with a head: the history is a hash chain ending in the head's hash. */
  lemma IntactHistory(mac: Macs, db: Db, user: Uuid)
    requires Verify(mac, db, user).status == Intact && user in db.heads
    ensures |db.heads[user].rowHash| == 32
    ensures HeadVerified(mac, user, db.heads[user]) == Some((db.heads[user].seqNo, db.heads[user].rowHash))
    ensures |History(db, user)| == db.heads[user].seqNo
    ensures HashChain(mac, History(db, user), db.heads[user].rowHash)
    ensures LegacyKeys(db.logs, user).Keys == {}
  {
    ChainIsChained(db.logs, user, 0);
    var ids := Chain(db.logs, user);
    WalkCounts(mac, db.logs, ids);
    WalkIsHashChain(mac, db.logs, ids, db.heads[user].rowHash);
  }

  /** Two databases that verify intact under one head hash hold the same chained rows. */
  lemma SameHeadSameHistory(mac: Mac, a: Db, b: Db, user: Uuid)
    requires user in a.heads && user in b.heads
    requires a.heads[user].seqNo >= 1 && b.heads[user].seqNo >= 1
    requires a.heads[user].rowHash == b.heads[user].rowHash
    requires Verify(Keyed(mac), a, user).status == Intact && Verify(Keyed(mac), b, user).status == Intact
    requires NoCollision(mac, History(a, user), History(b, user))
    ensures History(a, user) == History(b, user)
  {
    IntactHistory(Keyed(mac), a, user);
    IntactHistory(Keyed(mac), b, user);
    EncodingTellsApart(mac, History(a, user), History(b, user));
    SameHashSameRows(Keyed(mac), History(a, user), History(b, user), a.heads[user].rowHash);
  }

  // --- what a head commits to -------------------------------------------------------------------

  /** A position and hash the code has signed for a user. */
  datatype Signed = Signed(user: Uuid, seqNo: I64, hash: Hash)

  /**
   * The tables, with the history each signed head stands for, and every history that an operation
   * of the code has left in the tables.
   */
  datatype Trail = Trail(w: World, ledger: map<Signed, seq<Link>>, left: set<(Uuid, seq<Link>)>)

  /** Either the code runs an operation, or someone with database access replaces the tables. */
  datatype Step = Code(op: Op) | Tamper(db: Db)

  /** The history an append continues: what the verified head stands for, or the adopted rows. */
  ghost function Base(mac: Macs, ledger: map<Signed, seq<Link>>, db: Db, user: Uuid): seq<Link>
    requires ChainTip(mac, db, user).Ok?
  {
    var tip := ChainTip(mac, db, user).value;
    if user !in db.heads then History(tip.db, user)
    else if Signed(user, tip.seqNo, tip.hash) in ledger then ledger[Signed(user, tip.seqNo, tip.hash)]
    else []
  }

  /** The head an append signs, with the history it stands for. */
  ghost function AppendEntry(mac: Macs, ledger: map<Signed, seq<Link>>, db: Db, user: Uuid, e: Event)
    : (Signed, seq<Link>)
    requires Append(mac, db, user, e).Ok?
  {
    var tip := ChainTip(mac, db, user).value;
    var row := e.ToRow(user).Linked(mac, e.id, tip.seqNo + 1, tip.hash);
    (Signed(user, tip.seqNo + 1, row.rowHash.value), Base(mac, ledger, db, user) + [Link(e.id, row)])
  }

  /** The ledger inside a deletion, after the anonymised chain is signed and before the append. */
  ghost function SignAnonymise(mac: Macs, ledger: map<Signed, seq<Link>>, db: Db, user: Uuid): map<Signed, seq<Link>>
    requires Anonymise(mac, db, user).Ok?
  {
    var tip := ChainTip(mac, db, user).value;
    ChainIsChained(tip.db.logs, user, 0);
    var ids := Chain(tip.db.logs, user);
    if ids == [] then ledger
    else ledger[Signed(user, |ids|, Relink(mac, tip.db.logs, ids).1) := History(Anonymise(mac, db, user).value.0, user)]
  }

  /** One step of the code or of someone else. */
  ghost function Advance(mac: Macs, t: Trail, step: Step): Trail {
    match step
    case Tamper(db) => t.(w := t.w.(db := db))
    case Code(RecordAudit(user, e)) =>
      if Append(mac, t.w.db, user, e).Ok? then
        var (head, history) := AppendEntry(mac, t.ledger, t.w.db, user, e);
        var after := Apply(mac, t.w, step.op);
        Trail(after, t.ledger[head := history], t.left + {(user, History(after.db, user))})
      else t
    case Code(Delete(user, checked, id, now)) =>
      if DeleteAccount(mac, t.w.accounts, t.w.db, user, checked, id, now).Ok? then
        var inside := SignAnonymise(mac, t.ledger, t.w.db, user);
        var (head, history) := AppendEntry(mac, inside, Anonymise(mac, t.w.db, user).value.0, user,
                                           DeletionEvent(id, now));
        var after := Apply(mac, t.w, step.op);
        Trail(after, t.ledger[head := history], t.left + {(user, History(after.db, user))})
      else t
  }

  /** Each signed head stands for a hash chain of its length ending in its hash. */
  ghost predicate LedgerSound(mac: Macs, ledger: map<Signed, seq<Link>>) {
    forall k :: k in ledger ==> 1 <= |ledger[k]| == k.seqNo && HashChain(mac, ledger[k], k.hash)
  }

  /** The key is secret: a head in the tables verifies only if the code signed it. */
  ghost predicate HeadsSigned(mac: Macs, ledger: map<Signed, seq<Link>>, db: Db) {
    forall user :: user in db.heads ==>
      match HeadVerified(mac, user, db.heads[user])
      case None => true
      case Some(pinned) => Signed(user, pinned.0, pinned.1) in ledger
  }

  lemma ExtendHashChain(mac: Macs, links: seq<Link>, h: Hash, id: Uuid, row: Row)
    requires HashChain(mac, links, h) && |links| < I64_MAX
    ensures var linked := row.Linked(mac, id, |links| + 1, h);
      HashChain(mac, links + [Link(id, linked)], linked.rowHash.value)
  {
    var linked := row.Linked(mac, id, |links| + 1, h);
    var all := links + [Link(id, linked)];
    assert all[..|links|] == links;
    assert linked.Fields(id, |links| + 1) == row.Fields(id, |links| + 1);
  }

  lemma WalkedHistory(mac: Macs, db: Db, user: Uuid, n: I64, h: Hash)
    requires Walked(mac, db.logs, user, n, h)
    ensures |History(db, user)| == n && HashChain(mac, History(db, user), h)
  {
    WalkedPositions(mac, db.logs, user, n, h);
    ChainIsChained(db.logs, user, 0);
    WalkIsHashChain(mac, db.logs, Chain(db.logs, user), h);
  }

  /** What an append continues is a hash chain ending at the tip. */
  lemma BaseSound(mac: Macs, ledger: map<Signed, seq<Link>>, db: Db, user: Uuid)
    requires LedgerSound(mac, ledger) && HeadsSigned(mac, ledger, db) && ChainTip(mac, db, user).Ok?
    ensures var tip := ChainTip(mac, db, user).value;
      |Base(mac, ledger, db, user)| == tip.seqNo && HashChain(mac, Base(mac, ledger, db, user), tip.hash)
  {
    var tip := ChainTip(mac, db, user).value;
    if user !in db.heads {
      AdoptWalked(mac, db, user);
      WalkedHistory(mac, tip.db, user, tip.seqNo, tip.hash);
    }
  }

  /** Signing an append keeps the ledger sound, and the new head is in it. */
  lemma AppendSigns(mac: Macs, ledger: map<Signed, seq<Link>>, db: Db, user: Uuid, e: Event)
    requires LedgerSound(mac, ledger) && HeadsSigned(mac, ledger, db) && Append(mac, db, user, e).Ok?
    ensures var (head, history) := AppendEntry(mac, ledger, db, user, e);
      && head.user == user && 1 <= |history| == head.seqNo && HashChain(mac, history, head.hash)
      && HeadOf(Append(mac, db, user, e).value, user)
         == Some(Head(head.seqNo, head.hash, mac.head(user, head.seqNo, head.hash)))
  {
    BaseSound(mac, ledger, db, user);
    var tip := ChainTip(mac, db, user).value;
    ExtendHashChain(mac, Base(mac, ledger, db, user), tip.hash, e.id, e.ToRow(user));
  }

  /** The relinked rows are the user's chain, and none of them is stray. */
  lemma RelinkedChain(mac: Macs, logs: Logs, user: Uuid)
    requires AllChained(logs, Chain(logs, user)) && |Chain(logs, user)| <= I64_MAX
    ensures var ids := Chain(logs, user);
      var (relinked, hash) := Relink(mac, logs, ids);
      && AllChained(relinked, ids) && WalkRows(mac, relinked, ids) == At(|ids|, hash)
      && (forall i :: 0 <= i < |ids| ==> relinked[ids[i]].seqNo == Some(i + 1) && relinked[ids[i]].userId == user)
      && (forall id :: id in ChainKeys(relinked, user, 0) ==> id in ids)
      && (forall i :: 0 <= i < |ids| ==> ids[i] !in Stray(relinked, user))
  {
    var ids := Chain(logs, user);
    ChainMembers(logs, user);
    var scrubbed := Scrub(logs, Elements(ids));
    LinkInOrderShape(mac, scrubbed, ids);
    LinkInOrderWalks(mac, scrubbed, ids);
    RewrittenRows(logs, scrubbed, Relink(mac, logs, ids).0, user, ids);
  }

  /** Scrubbing stray rows changes neither the chain nor its walk. */
  lemma ScrubStrayKeepsChain(mac: Macs, logs: Logs, user: Uuid, ids: seq<nat>, hash: Hash)
    requires AllChained(logs, ids) && WalkRows(mac, logs, ids) == At(|ids|, hash)
    requires forall i :: 0 <= i < |ids| ==> logs[ids[i]].seqNo == Some(i + 1) && logs[ids[i]].userId == user
    requires forall id :: id in ChainKeys(logs, user, 0) ==> id in ids
    requires forall i :: 0 <= i < |ids| ==> ids[i] !in Stray(logs, user)
    ensures var after := Scrub(logs, Stray(logs, user));
      && Chain(after, user) == ids && AllChained(after, ids) && WalkRows(mac, after, ids) == At(|ids|, hash)
  {
    var after := Scrub(logs, Stray(logs, user));
    PositionsAreChain(after, user, ids);
    WalkFrame(mac, logs, after, ids);
  }

  /** A chain that walks end to end is a hash chain again after it is rewritten. */
  lemma RewriteHistory(mac: Macs, db: Db, user: Uuid)
    requires AllChained(db.logs, Chain(db.logs, user)) && |Chain(db.logs, user)| <= I64_MAX
    ensures var ids := Chain(db.logs, user);
      var after := Rewrite(mac, db, user, ids).0;
      && Chain(after.logs, user) == ids
      && |History(after, user)| == |ids|
      && HashChain(mac, History(after, user), Relink(mac, db.logs, ids).1)
  {
    var ids := Chain(db.logs, user);
    RelinkedChain(mac, db.logs, user);
    var (relinked, hash) := Relink(mac, db.logs, ids);
    ScrubStrayKeepsChain(mac, relinked, user, ids, hash);
    WalkIsHashChain(mac, Rewrite(mac, db, user, ids).0.logs, ids, hash);
  }

  /** Which rows of a rewritten table are the user's chained rows. */
  lemma RewrittenRows(logs: Logs, scrubbed: Logs, relinked: Logs, user: Uuid, ids: seq<nat>)
    requires ids == Chain(logs, user) && scrubbed == Scrub(logs, Elements(ids))
    requires relinked.Keys == scrubbed.Keys
    requires forall id :: id in scrubbed && id !in ids ==> relinked[id] == scrubbed[id]
    requires forall id :: id in scrubbed ==> Content(relinked[id]) == Content(scrubbed[id])
    requires forall i :: 0 <= i < |ids| ==> ids[i] in relinked && relinked[ids[i]].seqNo == Some(i + 1)
    ensures forall i :: 0 <= i < |ids| ==> relinked[ids[i]].userId == user
    ensures forall id :: id in ChainKeys(relinked, user, 0) ==> id in ids
    ensures forall i :: 0 <= i < |ids| ==> ids[i] !in Stray(relinked, user)
  {
    ChainMembers(logs, user);
    forall i | 0 <= i < |ids| ensures relinked[ids[i]].userId == user {
      assert Content(relinked[ids[i]]) == Content(scrubbed[ids[i]]);
    }
    assert forall id :: id in relinked && id !in ids ==> relinked[id] == logs[id];
  }
}
