/** The audit tables and what each audit operation does to them, as functions on values. */
module AuditChain {
  import opened Wrappers
  import opened Bytes
  import opened AuditEncoding
  import opened Ordering

  /** A row of `audit_logs`. */
  datatype Row = Row(
    userId: Uuid, seqNo: Option<I64>, prevHash: Option<Bytes>, rowHash: Option<Bytes>,
    action: Text, category: Text, target: Option<Text>, ipAddress: Option<Text>, createdAt: I64)
  {
    function Fields(id: Uuid, seqNo: I64): LinkFields {
      LinkFields(id, userId, seqNo, action, category, target, ipAddress, createdAt)
    }

    function Scrubbed(): Row {
      this.(target := None, ipAddress := None)
    }

    /** Place the row at `seqNo` after a row hashing to `prev`. */
    function Linked(mac: Macs, id: Uuid, seqNo: I64, prev: Hash): Row {
      this.(seqNo := Some(seqNo), prevHash := Some(prev),
            rowHash := Some(mac.row(prev, Fields(id, seqNo))))
    }
  }

  /** A row of `audit_chain_heads`. */
  datatype Head = Head(seqNo: I64, rowHash: Bytes, headMac: Bytes)

  type Logs = map<Uuid, Row>
  datatype Db = Db(logs: Logs, heads: map<Uuid, Head>)

  datatype StoreError = AuditChainCorrupt | Database | Conflict | NotFound

  datatype Reason =
    | SequenceGap | PrevHashUnlinked | RowHashMismatch | HeadMissing | HeadMacInvalid
    | RowsCutFromEnd | HeadMismatch | UnchainedAfterStart

  datatype Status = Intact | Unchained | Broken(seqNo: Option<int>, reason: Reason)
  datatype Report = Report(rowsVerified: nat, unchainedRows: nat, status: Status)

  function ToHash(bytes: Option<Bytes>): Option<Hash> {
    if bytes.Some? && |bytes.value| == 32 then Some(bytes.value) else None
  }

  /** `HeadRow::verified`: the pinned position and hash, if the head's MAC is right. */
  function HeadVerified(mac: Macs, user: Uuid, head: Head): Option<(I64, Hash)> {
    match ToHash(Some(head.rowHash))
    case None => None
    case Some(hash) =>
      if mac.head(user, head.seqNo, hash) == head.headMac then Some((head.seqNo, hash)) else None
  }

  // --- queries ----------------------------------------------------------------------------------

  /** `WHERE user_id = user AND seq > after`, with the values `ORDER BY seq` sorts by. */
  function ChainKeys(logs: Logs, user: Uuid, after: int): Keys {
    map id: Uuid | id in logs && logs[id].userId == user
                && logs[id].seqNo.Some? && logs[id].seqNo.value > after :: logs[id].seqNo.value
  }

  /** `WHERE user_id = user AND seq IS NULL`, with the values `ORDER BY created_at` sorts by. */
  function LegacyKeys(logs: Logs, user: Uuid): Keys {
    map id: Uuid | id in logs && logs[id].userId == user && logs[id].seqNo.None? :: logs[id].createdAt
  }

  /** The partial unique index on `(user_id, seq)`. */
  ghost predicate UniqueSeq(logs: Logs) {
    forall a, b ::
      a in logs && b in logs && a != b && logs[a].userId == logs[b].userId && logs[a].seqNo.Some?
      ==> logs[a].seqNo != logs[b].seqNo
  }

  /** The ids of a user's chained rows, in chain order. */
  function Chain(logs: Logs, user: Uuid): seq<nat> {
    Sorted(ChainKeys(logs, user, 0))
  }

  // --- verification -----------------------------------------------------------------------------

  /** Where a walk over chained rows has got to. */
  datatype Walk = At(last: nat, prev: Hash) | Stopped(last: nat, seqNo: int, reason: Reason)

  /** Check one more row. */
  function CheckRow(mac: Macs, logs: Logs, id: nat, last: nat, prev: Hash): Walk
    requires id in logs && logs[id].seqNo.Some?
  {
    var row := logs[id];
    var seqNo := row.seqNo.value;
    if seqNo != last + 1 then Stopped(last, last + 1, SequenceGap)
    else if ToHash(row.prevHash) != Some(prev) then Stopped(last, seqNo, PrevHashUnlinked)
    else
      var hash := mac.row(prev, row.Fields(id, seqNo));
      if ToHash(row.rowHash) != Some(hash) then Stopped(last, seqNo, RowHashMismatch)
      else At(last + 1, hash)
  }

  predicate AllChained(logs: Logs, ids: seq<nat>) {
    forall i :: 0 <= i < |ids| ==> ids[i] in logs && logs[ids[i]].seqNo.Some?
  }

  /** The one-pass walk over `ids`; the first failure is final. */
  function WalkRows(mac: Macs, logs: Logs, ids: seq<nat>): Walk
    requires AllChained(logs, ids)
  {
    if ids == [] then At(0, GENESIS_PREV_HASH)
    else
      match WalkRows(mac, logs, ids[..|ids| - 1])
      case At(last, prev) => CheckRow(mac, logs, ids[|ids| - 1], last, prev)
      case Stopped(last, seqNo, reason) => Stopped(last, seqNo, reason)
  }

  /** The verdict once the walk is over. */
  function Conclude(mac: Macs, user: Uuid, walk: Walk, unchained: nat, head: Option<Head>): Status {
    match walk
    case Stopped(_, seqNo, reason) => Broken(Some(seqNo), reason)
    case At(last, prev) =>
      match head
      case None =>
        if last != 0 then Broken(None, HeadMissing)
        else if unchained > 0 then Unchained
        else Intact
      case Some(stored) =>
        match HeadVerified(mac, user, stored)
        case None => Broken(None, HeadMacInvalid)
        case Some(pinned) =>
          if pinned.0 > last then Broken(Some(last + 1), RowsCutFromEnd)
          else if pinned.0 < last || pinned.1 != prev then Broken(Some(pinned.0), HeadMismatch)
          else if unchained > 0 then Broken(None, UnchainedAfterStart)
          else Intact
  }

  function HeadOf(db: Db, user: Uuid): Option<Head> {
    if user in db.heads then Some(db.heads[user]) else None
  }

  lemma ChainIsChained(logs: Logs, user: Uuid, after: int)
    ensures AllChained(logs, Sorted(ChainKeys(logs, user, after)))
  {
    var keys := ChainKeys(logs, user, after);
    SortedIsListing(keys);
    forall i | 0 <= i < |Sorted(keys)| ensures Sorted(keys)[i] in keys {
      assert Sorted(keys)[i] in Sorted(keys);
    }
  }

  /** `verify_audit_chain` over one snapshot, as a single pass. */
  function Verify(mac: Macs, db: Db, user: Uuid): Report {
    ChainIsChained(db.logs, user, 0);
    var walk := WalkRows(mac, db.logs, Chain(db.logs, user));
    var unchained := |LegacyKeys(db.logs, user)|;
    Report(walk.last, unchained, Conclude(mac, user, walk, unchained, HeadOf(db, user)))
  }

  // --- writing ----------------------------------------------------------------------------------

  function WriteHead(mac: Macs, db: Db, user: Uuid, seqNo: I64, hash: Hash): Db {
    db.(heads := db.heads[user := Head(seqNo, hash, mac.head(user, seqNo, hash))])
  }

  /** Link `ids[0]`, `ids[1]`, ... at positions 1, 2, ...; returns the last hash too. */
  function LinkInOrder(mac: Macs, logs: Logs, ids: seq<nat>): (Logs, Hash)
    requires |ids| <= I64_MAX
    requires forall i :: 0 <= i < |ids| ==> ids[i] in logs
  {
    if ids == [] then (logs, GENESIS_PREV_HASH)
    else
      var n := |ids| - 1;
      var (done, prev) := LinkInOrder(mac, logs, ids[..n]);
      var row := logs[ids[n]].Linked(mac, ids[n], n + 1, prev);
      (done[ids[n] := row], row.rowHash.value)
  }

  datatype Tip = Tip(db: Db, seqNo: I64, hash: Hash)

  predicate HasChainedRow(logs: Logs, user: Uuid) {
    exists id :: id in logs && logs[id].userId == user && logs[id].seqNo.Some?
  }

  /** Chain a user's legacy rows in `(created_at, id)` order. */
  function AdoptLegacyRows(mac: Macs, db: Db, user: Uuid): Result<Tip, StoreError> {
    var keys := LegacyKeys(db.logs, user);
    SortedInLogs(db.logs, keys);
    var ids := Sorted(keys);
    // Past i64::MAX the position wraps negative and the table's CHECK (seq >= 1) aborts.
    if |ids| > I64_MAX then Err(Database)
    else
      var (logs, hash) := LinkInOrder(mac, db.logs, ids);
      Ok(Tip(db.(logs := logs), |ids|, hash))
  }

  lemma SortedInLogs(logs: Logs, keys: Keys)
    requires keys.Keys <= logs.Keys
    ensures forall i :: 0 <= i < |Sorted(keys)| ==> Sorted(keys)[i] in logs
  {
    SortedIsListing(keys);
    forall i | 0 <= i < |Sorted(keys)| ensures Sorted(keys)[i] in keys {
      assert Sorted(keys)[i] in Sorted(keys);
    }
  }

  /** The position to append after; starts the chain when the user has none. */
  function ChainTip(mac: Macs, db: Db, user: Uuid): Result<Tip, StoreError> {
    if user in db.heads then
      match HeadVerified(mac, user, db.heads[user])
      case None => Err(AuditChainCorrupt)
      case Some(pinned) => Ok(Tip(db, pinned.0, pinned.1))
    else if HasChainedRow(db.logs, user) then Err(AuditChainCorrupt)
    else AdoptLegacyRows(mac, db, user)
  }

  /** What the caller and the clock supply for one audit event. */
  datatype Event = Event(
    id: Uuid, action: Text, category: Text, target: Option<Text>, ipAddress: Option<Text>,
    createdAt: I64)
  {
    function ToRow(user: Uuid): Row {
      Row(user, None, None, None, action, category, target, ipAddress, createdAt)
    }
  }

  /** `INSERT INTO audit_logs`: the CHECK, the primary key and the unique index all apply. */
  function InsertLink(mac: Macs, logs: Logs, user: Uuid, e: Event, tipSeq: I64, prev: Hash): Result<Logs, StoreError> {
    if tipSeq == I64_MAX || tipSeq + 1 < 1 then Err(Database)
    else if e.id in logs then Err(Database)
    else if exists id :: id in logs && logs[id].userId == user && logs[id].seqNo == Some(tipSeq + 1)
      then Err(Database)
    else Ok(logs[e.id := e.ToRow(user).Linked(mac, e.id, tipSeq + 1, prev)])
  }

  /** Insert after the tip and move the head there. */
  function AppendAt(mac: Macs, tip: Tip, user: Uuid, e: Event): Result<Db, StoreError> {
    match InsertLink(mac, tip.db.logs, user, e, tip.seqNo, tip.hash)
    case Err(error) => Err(error)
    case Ok(logs) =>
      var hash := mac.row(tip.hash, e.ToRow(user).Fields(e.id, tip.seqNo + 1));
      Ok(WriteHead(mac, tip.db.(logs := logs), user, tip.seqNo + 1, hash))
  }

  /** `append_link` in its transaction; an error rolls everything back. */
  function Append(mac: Macs, db: Db, user: Uuid, e: Event): Result<Db, StoreError> {
    match ChainTip(mac, db, user)
    case Err(error) => Err(error)
    case Ok(tip) => AppendAt(mac, tip, user, e)
  }

  /** Null the two personal columns of the rows in `ids`. */
  function Scrub(logs: Logs, ids: set<nat>): Logs {
    map id | id in logs :: if id in ids then logs[id].Scrubbed() else logs[id]
  }

  function Elements(ids: seq<nat>): set<nat> {
    set i | 0 <= i < |ids| :: ids[i]
  }

  /** Legacy rows that still carry a personal column. */
  function Stray(logs: Logs, user: Uuid): set<nat> {
    set id | id in LegacyKeys(logs, user) && (logs[id].target.Some? || logs[id].ipAddress.Some?)
  }

  /** Scrub the rows `ids` and link them in order again. */
  function Relink(mac: Macs, logs: Logs, ids: seq<nat>): (Logs, Hash)
    requires |ids| <= I64_MAX
    requires forall i :: 0 <= i < |ids| ==> ids[i] in logs
  {
    LinkInOrder(mac, Scrub(logs, Elements(ids)), ids)
  }

  /** Scrub the rows `ids`, relink them, move the head to the end, then scrub stray rows. */
  function Rewrite(mac: Macs, db: Db, user: Uuid, ids: seq<nat>): (Db, nat)
    requires |ids| <= I64_MAX
    requires forall i :: 0 <= i < |ids| ==> ids[i] in db.logs
  {
    var (relinked, hash) := Relink(mac, db.logs, ids);
    var moved := db.(logs := relinked);
    var pinned := if |ids| > 0 then WriteHead(mac, moved, user, |ids|, hash) else moved;
    var stray := Stray(relinked, user);
    (pinned.(logs := Scrub(relinked, stray)), |ids| + |stray|)
  }

  /** Walk the whole chain; only one that ends exactly at the tip is rewritten. */
  function AnonymiseAt(mac: Macs, tip: Tip, user: Uuid): Result<(Db, nat), StoreError> {
    var ids := Chain(tip.db.logs, user);
    ChainIsChained(tip.db.logs, user, 0);
    WalkCounts(mac, tip.db.logs, ids);
    if WalkRows(mac, tip.db.logs, ids) == At(|ids|, tip.hash) && |ids| == tip.seqNo
      then Ok(Rewrite(mac, tip.db, user, ids))
    else Err(AuditChainCorrupt)
  }

  /** `anonymise_chain` in its transaction: the new tables and how many rows it touched. */
  function Anonymise(mac: Macs, db: Db, user: Uuid): Result<(Db, nat), StoreError> {
    match ChainTip(mac, db, user)
    case Err(error) => Err(error)
    case Ok(tip) => AnonymiseAt(mac, tip, user)
  }

  /** A walk that succeeds has seen positions 1, 2, ... in order. */
  lemma {:induction false} WalkCounts(mac: Macs, logs: Logs, ids: seq<nat>)
    requires AllChained(logs, ids)
    ensures WalkRows(mac, logs, ids).At? ==> WalkRows(mac, logs, ids).last == |ids|
    ensures WalkRows(mac, logs, ids).At? ==>
              forall i :: 0 <= i < |ids| ==> logs[ids[i]].seqNo == Some(i + 1)
  {
    if ids != [] {
      WalkCounts(mac, logs, ids[..|ids| - 1]);
    }
  }

  // --- account deletion -------------------------------------------------------------------------

  /** Users with whether they are tombstoned, and wallets with their owner. */
  datatype Accounts = Accounts(users: map<Uuid, bool>, wallets: map<Uuid, Uuid>)
  {
    function WalletsOf(user: Uuid): set<Uuid> {
      set w | w in wallets && wallets[w] == user
    }
  }

  /** "deleted their account" */
  const DELETED_ACTION: Text :=
    [100, 101, 108, 101, 116, 101, 100, 32, 116, 104, 101, 105, 114, 32, 97, 99, 99, 111, 117, 110, 116]
  /** "authentication" */
  const AUTH_CATEGORY: Text := [97, 117, 116, 104, 101, 110, 116, 105, 99, 97, 116, 105, 111, 110]

  function DeletionEvent(id: Uuid, now: I64): Event {
    Event(id, DELETED_ACTION, AUTH_CATEGORY, None, None, now)
  }

  /** `delete_account`: one transaction, so the accounts and the trail change together or not at all. */
  function DeleteAccount(mac: Macs, accounts: Accounts, db: Db, user: Uuid, checked: seq<Uuid>, id: Uuid, now: I64)
    : Result<(Accounts, Db, nat), StoreError>
  {
    if user !in accounts.users || accounts.users[user] then Err(NotFound)
    else if multiset(checked) != multiset(accounts.WalletsOf(user)) then Err(Conflict)
    else
      match Anonymise(mac, db, user)
      case Err(error) => Err(error)
      case Ok(scrubbed) =>
        match Append(mac, scrubbed.0, user, DeletionEvent(id, now))
        case Err(error) => Err(error)
        case Ok(after) => Ok((accounts.(users := accounts.users[user := true]), after, scrubbed.1))
  }
}
