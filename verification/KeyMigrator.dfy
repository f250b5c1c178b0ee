/** The migration loop as it runs, with anything the rest of the system may do between its awaits. */
module KeyMigrator {
  import opened Wrappers
  import opened Bytes
  import opened Ordering
  import opened Crypto
  import opened KeyRotation

  datatype Summary = Summary(migrated: nat, skipped: nat)

  /** One await: steps of the server and other migrators, how the call fares, and random bytes. */
  datatype Turn = Turn(others: seq<Event>, fault: Fault, salt: Salt, nonce: Nonce)

  /** Every sealed row opens under the new key. */
  ghost predicate AllNew(newKey: MasterKey, s: State) {
    forall id :: id in s.wallets && s.wallets[id].sealed.Some?
      ==> id in s.seeds && OpensTo(newKey, s.wallets[id], s.seeds[id])
  }

  /** Every sealed row up to `after` opens under the new key, except those still to be dealt with. */
  ghost predicate NewUpTo(newKey: MasterKey, s: State, after: int, page: seq<(Uuid, Wallet)>) {
    forall id :: id in s.wallets && s.wallets[id].sealed.Some? && id <= after
      ==> (id in s.seeds && OpensTo(newKey, s.wallets[id], s.seeds[id])) || Pending(page, id)
  }

  ghost predicate Pending(page: seq<(Uuid, Wallet)>, id: Uuid) {
    exists i :: 0 <= i < |page| && page[i].0 == id
  }

  /** The key opens the row, whatever it holds. */
  ghost predicate OpensUnder(key: MasterKey, wallet: Wallet) {
    && wallet.sealed.Some? && Record(wallet.sealed.value).Some?
    && Open(key, Record(wallet.sealed.value).value, Context(wallet.network)).Ok?
  }

  lemma ForwardKeepsNewUpTo(oldKey: MasterKey, newKey: MasterKey, s: State, t: State, after: int,
                            page: seq<(Uuid, Wallet)>)
    requires NewUpTo(newKey, s, after, page) && Forward(oldKey, newKey, s, t)
    ensures NewUpTo(newKey, t, after, page)
  {
  }

  // --- paging -------------------------------------------------------------------------------------

  /** `list_sealed_wallets`: sealed rows after an id, in id order. */
  function SealedAfter(wallets: map<Uuid, Wallet>, after: int): Ordering.Keys {
    map id: nat | id in wallets && wallets[id].sealed.Some? && id > after :: 0
  }

  predicate IsSealed(wallets: map<Uuid, Wallet>, id: nat) {
    id in wallets && wallets[id].sealed.Some?
  }

  /** One page: sealed rows after `after`, with nothing left out up to the last of them. */
  ghost predicate IsPage(wallets: map<Uuid, Wallet>, after: int, ids: seq<nat>) {
    && (forall i :: 0 <= i < |ids| ==> IsSealed(wallets, ids[i]) && after < ids[i])
    && (forall i, j :: 0 <= i < j < |ids| ==> ids[i] < ids[j])
    && (forall id :: IsSealed(wallets, id) && after < id && (ids == [] || id <= ids[|ids| - 1]) ==> id in ids)
  }

  lemma PrefixIsPage(wallets: map<Uuid, Wallet>, after: int, ids: seq<nat>, m: nat)
    requires IsListing(SealedAfter(wallets, after), ids) && m <= |ids| && (m == 0 ==> ids == [])
    ensures IsPage(wallets, after, ids[..m])
  {
    var keys := SealedAfter(wallets, after);
    forall i | 0 <= i < m ensures ids[i] in keys {
      assert ids[i] in ids;
    }
    forall i, j | 0 <= i < j < m ensures ids[i] < ids[j] {
      assert Before(keys, ids[i], ids[j]);
    }
    forall id | IsSealed(wallets, id) && after < id && (m == 0 || id <= ids[m - 1]) ensures id in ids[..m] {
      PrefixHas(wallets, after, ids, m, id);
    }
  }

  lemma PrefixHas(wallets: map<Uuid, Wallet>, after: int, ids: seq<nat>, m: nat, id: nat)
    requires IsListing(SealedAfter(wallets, after), ids) && m <= |ids| && (m == 0 ==> ids == [])
    requires IsSealed(wallets, id) && after < id && (m == 0 || id <= ids[m - 1])
    ensures id in ids[..m]
  {
    assert id in SealedAfter(wallets, after);
    assert id in ids;
    if m > 0 {
      PrefixCovers(SealedAfter(wallets, after), ids, m, id);
    }
  }

  lemma {:induction false} SnapshotOfPresent(wallets: map<Uuid, Wallet>, ids: seq<nat>)
    requires forall i :: 0 <= i < |ids| ==> ids[i] in wallets
    ensures var page := Snapshot(wallets, ids);
      |page| == |ids| && forall i :: 0 <= i < |ids| ==> page[i] == (ids[i], wallets[ids[i]])
  {
    if ids != [] {
      SnapshotOfPresent(wallets, ids[1..]);
    }
  }

  /** What a page leaves to do: up to its last row, only its own rows may still need work. */
  lemma PageLeaves(newKey: MasterKey, s: State, after: int, ids: seq<nat>)
    requires IsPage(s.wallets, after, ids) && NewUpTo(newKey, s, after, [])
    ensures ids == [] ==> AllNew(newKey, s)
    ensures ids != [] ==> NewUpTo(newKey, s, ids[|ids| - 1], Snapshot(s.wallets, ids))
  {
    SnapshotOfPresent(s.wallets, ids);
    var last := if ids == [] then U128_RANGE else ids[|ids| - 1];
    var page := Snapshot(s.wallets, ids);
    forall id | id in s.wallets && s.wallets[id].sealed.Some? && id <= last
      ensures (id in s.seeds && OpensTo(newKey, s.wallets[id], s.seeds[id])) || (ids != [] && Pending(page, id))
    {
      if id > after {
        assert IsSealed(s.wallets, id);
        var j :| 0 <= j < |ids| && ids[j] == id;
        assert page[j].0 == id;
      }
    }
  }

  /** Rotating a row touches no migrator's page. */
  lemma SameJobs(oldKey: MasterKey, newKey: MasterKey, s: State, t: State)
    requires Sound(oldKey, newKey, s) && Forward(oldKey, newKey, s, t) && t.jobs == s.jobs
    ensures Sound(oldKey, newKey, t)
  {
    ForwardKeepsRows(oldKey, newKey, s, t);
    forall job | job in t.jobs ensures PageFresh(oldKey, newKey, t, t.jobs[job].page) {
      assert PageFresh(oldKey, newKey, s, s.jobs[job].page);
      ForwardKeepsPage(oldKey, newKey, s, t, s.jobs[job].page);
    }
  }

  /** The first row of a page is done, the rest are still to do. */
  lemma DoneWith(newKey: MasterKey, s: State, last: int, page: seq<(Uuid, Wallet)>)
    requires page != [] && NewUpTo(newKey, s, last, page)
    requires var id := page[0].0; id in s.wallets && id in s.seeds && OpensTo(newKey, s.wallets[id], s.seeds[id])
    ensures NewUpTo(newKey, s, last, page[1..])
  {
    forall id | id in s.wallets && s.wallets[id].sealed.Some? && id <= last
      ensures (id in s.seeds && OpensTo(newKey, s.wallets[id], s.seeds[id])) || Pending(page[1..], id)
    {
      if Pending(page, id) && id != page[0].0 {
        var i :| 0 <= i < |page| && page[i].0 == id;
        assert page[1..][i - 1].0 == id;
      }
    }
  }

  /** At most one row has changed, and only if `allowed`. */
  ghost predicate OnlyRow(a: map<Uuid, Wallet>, b: map<Uuid, Wallet>, id: Uuid, allowed: bool) {
    a.Keys == b.Keys && forall k :: k in a ==> b[k] == a[k] || (k == id && allowed)
  }

  /** The sealed rows the new key does not open yet. */
  ghost function NeedsWork(newKey: MasterKey, s: State): set<Uuid> {
    set id | id in s.wallets && s.wallets[id].sealed.Some? && !OpensUnder(newKey, s.wallets[id])
  }

  /** Every row is as it was, or among those this run rotated. */
  ghost predicate ChangedOnly(a: map<Uuid, Wallet>, b: map<Uuid, Wallet>, rotated: set<Uuid>) {
    a.Keys == b.Keys && forall id :: id in a ==> b[id] == a[id] || id in rotated
  }

  /** The sealed rows up to an id. */
  ghost function SealedUpTo(wallets: map<Uuid, Wallet>, last: int): set<nat> {
    set id: nat | id in wallets.Keys && IsSealed(wallets, id) && id <= last
  }

  /** With nobody else at work, each page accounts for the sealed rows between the last one and its own end. */
  lemma PageTotal(oldKey: MasterKey, newKey: MasterKey, origin: State, s: State, after: int, ids: seq<nat>)
    requires Forward(oldKey, newKey, origin, s) && origin.wallets.Keys == s.wallets.Keys
    requires IsPage(s.wallets, after, ids)
    ensures ids == [] ==> SealedUpTo(origin.wallets, after) == SealedUpTo(origin.wallets, U128_RANGE)
    ensures ids != [] ==>
      |SealedUpTo(origin.wallets, ids[|ids| - 1])| == |SealedUpTo(origin.wallets, after)| + |ids|
  {
    assert forall id: nat :: IsSealed(origin.wallets, id) <==> IsSealed(s.wallets, id);
    if ids != [] {
      AsSetCount(ids);
      forall i | 0 <= i < |ids| ensures ids[i] <= ids[|ids| - 1] {
      }
      var before, now := SealedUpTo(origin.wallets, after), SealedUpTo(origin.wallets, ids[|ids| - 1]);
      assert now == before + AsSet(ids);
      assert before * AsSet(ids) == {};
    }
  }

  /** What a run has rotated itself, all below `bound`: rows that needed it when the run began. */
  ghost predicate Rotated(newKey: MasterKey, origin: State, wallets: map<Uuid, Wallet>, rotated: set<Uuid>, bound: int,
                          quiet: bool)
  {
    && rotated <= NeedsWork(newKey, origin) && (forall id :: id in rotated ==> id < bound)
    && (quiet ==> ChangedOnly(origin.wallets, wallets, rotated))
  }

  /** One more row dealt with. */
  lemma RotatedMore(newKey: MasterKey, origin: State, a: map<Uuid, Wallet>, b: map<Uuid, Wallet>, rotated: set<Uuid>,
                    bound: int, quiet: bool, id: Uuid, swapped: bool)
    requires Rotated(newKey, origin, a, rotated, bound, quiet) && bound <= id
    requires (swapped ==> id in NeedsWork(newKey, origin)) && (quiet ==> OnlyRow(a, b, id, swapped))
    ensures var now := if swapped then rotated + {id} else rotated;
      Rotated(newKey, origin, b, now, (id as int) + 1, quiet) && |now| == |rotated| + if swapped then 1 else 0
  {
    assert id !in rotated;
  }

  /** A row the new key does not open has not been touched since the run began. */
  lemma UntouchedSince(oldKey: MasterKey, newKey: MasterKey, origin: State, s: State, id: Uuid, read: Wallet)
    requires RowsSound(oldKey, newKey, origin) && Forward(oldKey, newKey, origin, s)
    requires id in s.wallets && s.wallets[id] == read && read.sealed.Some? && !OpensUnder(newKey, read)
    ensures id in NeedsWork(newKey, origin)
  {
  }

  /** Left alone, a run that leaves every row under the new key has rotated exactly those that needed it. */
  lemma QuietRotatesAll(newKey: MasterKey, origin: State, s: State, rotated: set<Uuid>, bound: int)
    requires Rotated(newKey, origin, s.wallets, rotated, bound, true) && AllNew(newKey, s)
    ensures rotated == NeedsWork(newKey, origin)
  {
    assert forall id :: id in origin.wallets && id !in rotated ==> s.wallets[id] == origin.wallets[id];
  }

  /** A page of which the first `i` rows are done, in a run that began at `origin`. */
  ghost predicate Midway(oldKey: MasterKey, newKey: MasterKey, origin: State, s: State, last: int,
                         page: seq<(Uuid, Wallet)>, i: nat)
  {
    && i <= |page| && RowsSound(oldKey, newKey, origin)
    && Sound(oldKey, newKey, s) && Forward(oldKey, newKey, origin, s)
    && PageFresh(oldKey, newKey, s, page) && NewUpTo(newKey, s, last, page[i..])
  }

  /** Sealed rows above `after`, in the order of their ids, up to `last`. */
  ghost predicate IsBatch(page: seq<(Uuid, Wallet)>, after: int, last: int) {
    && page != [] && page[|page| - 1].0 == last
    && (forall i :: 0 <= i < |page| ==> page[i].1.sealed.Some? && after < page[i].0)
    && (forall i, j :: 0 <= i < j < |page| ==> page[i].0 < page[j].0)
  }

  lemma PageReady(oldKey: MasterKey, newKey: MasterKey, origin: State, s: State, after: int, ids: seq<nat>)
    requires Midway(oldKey, newKey, origin, s, after, [], 0) && IsPage(s.wallets, after, ids)
    ensures ids == [] ==> AllNew(newKey, s)
    ensures ids != [] ==>
      var page, last := Snapshot(s.wallets, ids), ids[|ids| - 1];
      IsBatch(page, after, last) && |page| == |ids| && Midway(oldKey, newKey, origin, s, last, page, 0)
  {
    PageLeaves(newKey, s, after, ids);
    SnapshotOfPresent(s.wallets, ids);
    SnapshotFresh(oldKey, newKey, s, ids);
    var page := Snapshot(s.wallets, ids);
    assert page[0..] == page;
    assert forall i :: 0 <= i < |ids| ==> IsSealed(s.wallets, ids[i]);
  }

  lemma MidwayStep(oldKey: MasterKey, newKey: MasterKey, origin: State, s: State, t: State, last: int,
                   page: seq<(Uuid, Wallet)>, i: nat)
    requires Midway(oldKey, newKey, origin, s, last, page, i) && i < |page|
    requires Sound(oldKey, newKey, t) && Forward(oldKey, newKey, s, t)
    requires var id := page[i].0; id in t.wallets && id in t.seeds && OpensTo(newKey, t.wallets[id], t.seeds[id])
    ensures Midway(oldKey, newKey, origin, t, last, page, i + 1)
  {
    ForwardTransitive(oldKey, newKey, origin, s, t);
    ForwardKeepsPage(oldKey, newKey, s, t, page);
    ForwardKeepsNewUpTo(oldKey, newKey, s, t, last, page[i..]);
    DoneWith(newKey, t, last, page[i..]);
    assert page[i..][1..] == page[i + 1..];
  }

  /** While a page query is awaited. */
  lemma MovedOn(oldKey: MasterKey, newKey: MasterKey, origin: State, s: State, t: State, after: int)
    requires Midway(oldKey, newKey, origin, s, after, [], 0) && Sound(oldKey, newKey, t)
    requires Forward(oldKey, newKey, s, t)
    ensures Midway(oldKey, newKey, origin, t, after, [], 0)
  {
    ForwardTransitive(oldKey, newKey, origin, s, t);
    ForwardKeepsNewUpTo(oldKey, newKey, s, t, after, []);
  }

  lemma NothingToDo(newKey: MasterKey, origin: State, rotated: set<Uuid>)
    requires rotated <= NeedsWork(newKey, origin)
    ensures AllNew(newKey, origin) ==> rotated == {}
  {
    if AllNew(newKey, origin) {
      assert NeedsWork(newKey, origin) == {};
    }
  }

  /** A row with the ciphertext it was read with is the row as it was read. */
  lemma SameCiphertext(oldKey: MasterKey, newKey: MasterKey, s: State, id: Uuid, read: Wallet)
    requires Fresh(oldKey, newKey, s, id, read) && read.sealed.Some? && !OpensUnder(newKey, read)
    ensures s.wallets[id].sealed.value.ciphertext == read.sealed.value.ciphertext <==> s.wallets[id] == read
  {
    var seed := s.seeds[id];
    if s.wallets[id] != read {
      assert OpensTo(newKey, s.wallets[id], seed) && OpensTo(oldKey, read, seed);
    }
  }

  class Database {
    var wallets: map<Uuid, Wallet>
    var seeds: map<Uuid, Bytes>
    var jobs: map<nat, Job>

    constructor (s: State)
      ensures Value() == s
    {
      wallets, seeds, jobs := s.wallets, s.seeds, s.jobs;
    }

    function Value(): State
      reads this
    {
      State(wallets, seeds, jobs)
    }

    /** The rest of the system moves on while a call is awaited. */
    method Await(oldKey: MasterKey, newKey: MasterKey, others: seq<Event>)
      requires Sound(oldKey, newKey, Value())
      modifies this
      ensures Sound(oldKey, newKey, Value()) && Forward(oldKey, newKey, old(Value()), Value())
      ensures others == [] ==> Value() == old(Value())
    {
      RunKeepsSound(oldKey, newKey, Value(), others);
      var s := Run(oldKey, newKey, Value(), others);
      wallets, seeds, jobs := s.wallets, s.seeds, s.jobs;
    }

    /** One page, read in one statement. */
    method ListSealedWallets(limit: nat, after: int) returns (ids: seq<nat>)
      requires limit >= 1
      ensures IsPage(wallets, after, ids)
    {
      SortedIsListing(SealedAfter(wallets, after));
      ids := Sorted(SealedAfter(wallets, after));
      PrefixIsPage(wallets, after, ids, if |ids| > limit then limit else |ids|);
      if |ids| > limit {
        ids := ids[..limit];
      } else {
        assert ids[..|ids|] == ids;
      }
    }

    /** The compare-and-swap of `reseal_wallet`, on a row read some time ago that the new key did not open. */
    method SwapRow(oldKey: MasterKey, newKey: MasterKey, id: Uuid, read: Wallet, salt: Salt, nonce: Nonce)
      returns (updated: bool)
      requires Sound(oldKey, newKey, Value()) && Fresh(oldKey, newKey, Value(), id, read) && read.sealed.Some?
      requires !OpensUnder(newKey, read)
      modifies this`wallets
      ensures Sound(oldKey, newKey, Value()) && Forward(oldKey, newKey, old(Value()), Value())
      ensures id in wallets && id in seeds && OpensTo(newKey, wallets[id], seeds[id])
      ensures updated <==> old(wallets)[id] == read
      ensures OnlyRow(old(wallets), wallets, id, updated)
    {
      ghost var before := Value();
      ExamineRotates(oldKey, newKey, read, seeds[id], salt, nonce);
      RotateRowForward(oldKey, newKey, ByCiphertext, before, id, read, salt, nonce);
      var verdict := Examine(oldKey, newKey, read, salt, nonce);
      updated := wallets[id].sealed.value.ciphertext == read.sealed.value.ciphertext;
      SameCiphertext(oldKey, newKey, before, id, read);
      wallets := CompareAndSwap(ByCiphertext, wallets, id, read.sealed.value, verdict.sealed);
      SameJobs(oldKey, newKey, before, Value());
    }

    /**
     * One row of the loop. Between reading the row and writing it, anything may happen; afterwards the
     * row opens under the new key, whoever rotated it. If the reply to the write is lost, it may have landed.
     */
    method RotateOne(oldKey: MasterKey, newKey: MasterKey, id: Uuid, read: Wallet, turn: Turn) returns (r: Option<bool>)
      requires Sound(oldKey, newKey, Value()) && Fresh(oldKey, newKey, Value(), id, read) && read.sealed.Some?
      modifies this
      ensures Sound(oldKey, newKey, Value()) && Forward(oldKey, newKey, old(Value()), Value())
      ensures r.Some? ==> id in wallets && id in seeds && OpensTo(newKey, wallets[id], seeds[id])
      ensures r.None? ==> !turn.fault.Fine?
      ensures r == Some(true) ==> !OpensUnder(newKey, read) && old(wallets)[id] == read
      ensures turn.others == [] ==> OnlyRow(old(wallets), wallets, id, r != Some(false))
    {
      ghost var before := Value();
      ExamineRotates(oldKey, newKey, read, seeds[id], turn.salt, turn.nonce);
      var verdict := Examine(oldKey, newKey, read, turn.salt, turn.nonce);
      if verdict.Skip? {
        RotateRowForward(oldKey, newKey, ByCiphertext, Value(), id, read, turn.salt, turn.nonce);
        return Some(false);
      }
      Await(oldKey, newKey, turn.others);
      if turn.fault == Lost(false) {
        return None;
      }
      ghost var mid := Value();
      ForwardKeepsFresh(oldKey, newKey, before, mid, id, read);
      var updated := SwapRow(oldKey, newKey, id, read, turn.salt, turn.nonce);
      ForwardTransitive(oldKey, newKey, before, mid, Value());
      r := if turn.fault.Fine? then Some(updated) else None;
    }

    /** The next row of a page. */
    method RotateNext(oldKey: MasterKey, newKey: MasterKey, page: seq<(Uuid, Wallet)>, i: nat, last: int, turn: Turn,
                      ghost origin: State)
      returns (r: Option<bool>)
      requires Midway(oldKey, newKey, origin, Value(), last, page, i) && i < |page| && page[i].1.sealed.Some?
      modifies this
      ensures Sound(oldKey, newKey, Value()) && Forward(oldKey, newKey, origin, Value())
      ensures r.Some? ==> Midway(oldKey, newKey, origin, Value(), last, page, i + 1)
      ensures r == Some(true) ==> page[i].0 in NeedsWork(newKey, origin)
      ensures turn.others == [] ==> OnlyRow(old(wallets), wallets, page[i].0, r != Some(false))
      ensures r.None? ==> !turn.fault.Fine?
    {
      ghost var mid := Value();
      r := RotateOne(oldKey, newKey, page[i].0, page[i].1, turn);
      if r == Some(true) {
        UntouchedSince(oldKey, newKey, origin, mid, page[i].0, page[i].1);
      }
      if r.Some? {
        MidwayStep(oldKey, newKey, origin, mid, Value(), last, page, i);
      } else {
        ForwardTransitive(oldKey, newKey, origin, mid, Value());
      }
    }

    /** The next row of a page, written down if this run rotated it. */
    method RotateStep(oldKey: MasterKey, newKey: MasterKey, page: seq<(Uuid, Wallet)>, i: nat, last: int, turn: Turn,
                      ghost origin: State, ghost rotated: set<Uuid>, ghost bound: int, ghost quiet: bool)
      returns (r: Option<bool>, ghost now: set<Uuid>, ghost next: int)
      requires Midway(oldKey, newKey, origin, Value(), last, page, i) && i < |page| && page[i].1.sealed.Some?
      requires Rotated(newKey, origin, wallets, rotated, bound, quiet) && bound <= page[i].0
      requires (quiet ==> turn.others == [])
      modifies this
      ensures Sound(oldKey, newKey, Value()) && Forward(oldKey, newKey, origin, Value())
      ensures r.Some? ==> Midway(oldKey, newKey, origin, Value(), last, page, i + 1)
      ensures r.Some? ==> Rotated(newKey, origin, wallets, now, next, quiet) && next == (page[i].0 as int) + 1
      ensures r.Some? ==> |now| == |rotated| + if r.value then 1 else 0
      ensures r.None? ==> !turn.fault.Fine?
    {
      ghost var before := wallets;
      r := RotateNext(oldKey, newKey, page, i, last, turn, origin);
      now, next := rotated, (page[i].0 as int) + 1;
      if r.Some? {
        RotatedMore(newKey, origin, before, wallets, rotated, bound, quiet, page[i].0, r.value);
        now := if r.value then rotated + {page[i].0} else rotated;
      }
    }

    /** The inner loop: the rows of one page. */
    method RotatePage(oldKey: MasterKey, newKey: MasterKey, page: seq<(Uuid, Wallet)>, ghost after: int, last: int,
                      env: nat -> Turn, start: nat, ghost origin: State, ghost rotated: set<Uuid>, ghost quiet: bool)
      returns (r: Option<Summary>, ghost now: set<Uuid>)
      requires Midway(oldKey, newKey, origin, Value(), last, page, 0) && IsBatch(page, after, last)
      requires Rotated(newKey, origin, wallets, rotated, after + 1, quiet)
      requires (quiet ==> forall n :: env(n).others == [])
      modifies this
      ensures Sound(oldKey, newKey, Value()) && Forward(oldKey, newKey, origin, Value())
      ensures r.Some? ==> NewUpTo(newKey, Value(), last, []) && Rotated(newKey, origin, wallets, now, last + 1, quiet)
      ensures r.Some? ==> r.value.migrated + |rotated| == |now| && r.value.migrated + r.value.skipped == |page|
      ensures r.None? ==> exists n :: !env(n).fault.Fine?
    {
      var summary := Summary(0, 0);
      now := rotated;
      ghost var bound := after + 1;
      var i := 0;
      while i < |page|
        invariant 0 <= i <= |page| && Midway(oldKey, newKey, origin, Value(), last, page, i)
        invariant Rotated(newKey, origin, wallets, now, bound, quiet)
        invariant bound <= if i < |page| then page[i].0 else last + 1
        invariant summary.migrated + |rotated| == |now| && summary.migrated + summary.skipped == i
      {
        var step;
        step, now, bound := RotateStep(oldKey, newKey, page, i, last, env(start + i), origin, now, bound, quiet);
        if step.None? {
          return None, now;
        }
        summary := if step.value then summary.(migrated := summary.migrated + 1)
                   else summary.(skipped := summary.skipped + 1);
        i := i + 1;
      }
      r := Some(summary);
    }

    /** One turn of the outer loop: list a page and rotate it. */
    method MigratePage(oldKey: MasterKey, newKey: MasterKey, batchSize: nat, after: int, env: nat -> Turn, start: nat,
                       ghost origin: State, ghost rotated: set<Uuid>, ghost quiet: bool)
      returns (r: Option<Summary>, last: Option<Uuid>, next: nat, ghost now: set<Uuid>)
      requires batchSize >= 1 && Midway(oldKey, newKey, origin, Value(), after, [], 0)
      requires Rotated(newKey, origin, wallets, rotated, after + 1, quiet)
      requires (quiet ==> forall n :: env(n).others == [])
      modifies this
      ensures Sound(oldKey, newKey, Value()) && Forward(oldKey, newKey, origin, Value())
      ensures r.None? ==> exists n :: !env(n).fault.Fine?
      ensures r.Some? ==>
        Rotated(newKey, origin, wallets, now, 1 + if last.Some? then last.value as int else after, quiet)
      ensures r.Some? ==> r.value.migrated + |rotated| == |now|
      ensures r.Some? && quiet && last.Some? ==>
        |SealedUpTo(origin.wallets, last.value)|
          == |SealedUpTo(origin.wallets, after)| + r.value.migrated + r.value.skipped
      ensures r.Some? && last.None? ==> r.value == Summary(0, 0)
      ensures r.Some? && quiet && last.None? ==>
        SealedUpTo(origin.wallets, after) == SealedUpTo(origin.wallets, U128_RANGE)
      ensures r.Some? && last.None? ==> AllNew(newKey, Value())
      ensures r.Some? && last.Some? ==> after < last.value && NewUpTo(newKey, Value(), last.value, [])
    {
      ghost var before := Value();
      Await(oldKey, newKey, env(start).others);
      ghost var mid := Value();
      MovedOn(oldKey, newKey, origin, before, mid, after);
      now := rotated;
      if !env(start).fault.Fine? {
        return None, None, start, now;
      }
      var ids := ListSealedWallets(batchSize, after);
      PageReady(oldKey, newKey, origin, mid, after, ids);
      if quiet {
        PageTotal(oldKey, newKey, origin, mid, after, ids);
      }
      if ids == [] {
        return Some(Summary(0, 0)), None, start, now;
      }
      r, now := RotatePage(oldKey, newKey, Snapshot(wallets, ids), after, ids[|ids| - 1], env, start + 1, origin,
                           rotated, quiet);
      last, next := Some(ids[|ids| - 1]), start + 1 + |ids|;
    }

    /**
     * `migrate`: however the rest of the system interferes and wherever it stops, every row keeps its
     * seed; a run that completes leaves every row under the new key. What it counts as migrated are rows
     * that needed it, each once: all of them when nobody else is at work, and none on a second run. Then
     * what it skipped is the rest of the sealed rows.
     */
    method Migrate(oldKey: MasterKey, newKey: MasterKey, batchSize: nat, env: nat -> Turn)
      returns (r: Option<Summary>, ghost rotated: set<Uuid>)
      requires batchSize >= 1 && Sound(oldKey, newKey, Value())
      modifies this
      ensures Sound(oldKey, newKey, Value()) && Forward(oldKey, newKey, old(Value()), Value())
      ensures r.Some? ==> AllNew(newKey, Value())
      ensures r.Some? ==> rotated <= NeedsWork(newKey, old(Value())) && r.value.migrated == |rotated|
      ensures r.Some? && (forall n :: env(n).others == []) ==> rotated == NeedsWork(newKey, old(Value()))
      ensures r.Some? && (forall n :: env(n).others == []) ==>
        r.value.migrated + r.value.skipped == |SealedUpTo(old(wallets), U128_RANGE)|
      ensures r.Some? && AllNew(newKey, old(Value())) ==> r.value.migrated == 0
      ensures r.None? ==> exists n :: !env(n).fault.Fine?
    {
      ghost var origin, quiet := Value(), forall n :: env(n).others == [];
      var summary, after: int, turn: nat := Summary(0, 0), -1, 0;
      rotated := {};
      assert SealedUpTo(origin.wallets, after) == {};
      while true
        invariant after < U128_RANGE && Midway(oldKey, newKey, origin, Value(), after, [], 0)
        invariant Rotated(newKey, origin, wallets, rotated, after + 1, quiet) && summary.migrated == |rotated|
        invariant quiet ==> summary.migrated + summary.skipped == |SealedUpTo(origin.wallets, after)|
        decreases U128_RANGE - after
      {
        var page, last, next;
        page, last, next, rotated := MigratePage(oldKey, newKey, batchSize, after, env, turn, origin, rotated, quiet);
        if page.None? {
          return None, rotated;
        }
        summary := Summary(summary.migrated + page.value.migrated, summary.skipped + page.value.skipped);
        if last.None? {
          if quiet {
            QuietRotatesAll(newKey, origin, Value(), rotated, after + 1);
          }
          NothingToDo(newKey, origin, rotated);
          return Some(summary), rotated;
        }
        after, turn := last.value, next;
      }
    }
  }
}
