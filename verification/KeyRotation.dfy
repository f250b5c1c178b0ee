/**
 * Rotating the master key beside a live server: any number of migrators compare-and-swap rows from
 * the old key to the new one, crash and restart, while the server inserts rows under its sealing key.
 */
module KeyRotation {
  import opened Wrappers
  import opened Bytes
  import opened Crypto

  /** The sealed columns of a wallet row. */
  datatype Sealed = Sealed(ciphertext: Ciphertext, nonce: Bytes, salt: Bytes, scheme: Option<int>)

  /** A wallet; `sealed` is None when the server holds no seed for it. */
  datatype Wallet = Wallet(network: Bytes, sealed: Option<Sealed>)

  /** `AppState`'s keys: the current one and, during a rotation window, the next one. */
  datatype Keys = Keys(current: MasterKey, next: Option<MasterKey>)
  {
    function SealingKey(): MasterKey {
      if next.Some? then next.value else current
    }

    /** Newest first. */
    function OpeningKeys(): seq<MasterKey> {
      (if next.Some? then [next.value] else []) + [current]
    }
  }

  /** The server's configuration during a rotation from `oldKey` to `newKey`. */
  function Window(oldKey: MasterKey, newKey: MasterKey): Keys {
    Keys(oldKey, Some(newKey))
  }

  /** "octo:" and the network name. */
  function Context(network: Bytes): Bytes {
    [111, 99, 116, 111, 58] + network
  }

  /** Columns back into a record, a missing scheme meaning V1; None where the loop would abort. */
  function Record(sealed: Sealed): Option<SealedSeed> {
    var scheme := if sealed.scheme.Some? then sealed.scheme.value else SCHEME_V1;
    if !(0 <= scheme < 256) then None
    else
      match FromParts(sealed.ciphertext, sealed.nonce, sealed.salt, scheme)
      case Ok(record) => Some(record)
      case Err(_) => None
  }

  /** The first of the keys that opens the record. */
  function OpenWithAny(keys: seq<MasterKey>, record: SealedSeed, context: Bytes): Option<Bytes> {
    if keys == [] then None
    else
      match Open(keys[0], record, context)
      case Ok(seed) => Some(seed)
      case Err(_) => OpenWithAny(keys[1..], record, context)
  }

  // --- state --------------------------------------------------------------------------------------

  /** A migrator half way through a page it read some time ago. */
  datatype Job = Job(page: seq<(Uuid, Wallet)>)

  /** The wallets table, what each seed was when first sealed, and the migrators at work. */
  datatype State = State(wallets: map<Uuid, Wallet>, seeds: map<Uuid, Bytes>, jobs: map<nat, Job>)

  datatype Event =
    /** The server provisions a wallet under its sealing key. */
    | Insert(id: Uuid, network: Bytes, seed: Bytes, salt: Salt, nonce: Nonce)
    /** A migrator reads some rows. */
    | Fetch(job: nat, ids: seq<Uuid>)
    /** A migrator deals with the next row it read. */
    | Rotate(job: nat, guard: Guard, salt: Salt, nonce: Nonce)
    /** A migrator dies. */
    | Crash(job: nat)

  function Store(record: SealedSeed): Sealed {
    Sealed(record.ciphertext, record.nonce, record.salt, Some(record.scheme))
  }

  /** What `reseal_wallet` compares: the ciphertext the loop passes it, or the scheme tag its SQL names. */
  datatype Guard = ByCiphertext | ByScheme

  /** What the loop does with one row it read. */
  datatype Verdict = Skip | Write(sealed: Sealed) | Abort

  function Examine(oldKey: MasterKey, newKey: MasterKey, wallet: Wallet, salt: Salt, nonce: Nonce): Verdict {
    if wallet.sealed.None? then Skip
    else
      match Record(wallet.sealed.value)
      case None => Abort
      case Some(record) =>
        var context := Context(wallet.network);
        if Open(newKey, record, context).Ok? then Skip
        else
          match Reseal(oldKey, newKey, record, context, salt, nonce)
          case Ok(rotated) => Write(Store(rotated))
          case Err(_) => Abort
  }

  /** The row still is as the guard expects it; a missing tag equals no scheme. */
  predicate Passes(guard: Guard, current: Sealed, read: Sealed) {
    match guard
    case ByCiphertext => current.ciphertext == read.ciphertext
    case ByScheme => current.scheme == Some(if read.scheme.Some? then read.scheme.value else SCHEME_V1)
  }

  /** `reseal_wallet`: one UPDATE of all four columns, guarded by what the row was read with. */
  function CompareAndSwap(guard: Guard, wallets: map<Uuid, Wallet>, id: Uuid, read: Sealed, sealed: Sealed)
    : map<Uuid, Wallet>
  {
    if id in wallets && wallets[id].sealed.Some? && Passes(guard, wallets[id].sealed.value, read)
      then wallets[id := wallets[id].(sealed := Some(sealed))]
    else wallets
  }

  function RotateRow(oldKey: MasterKey, newKey: MasterKey, guard: Guard, wallets: map<Uuid, Wallet>, id: Uuid,
                     read: Wallet, salt: Salt, nonce: Nonce)
    : map<Uuid, Wallet>
  {
    match Examine(oldKey, newKey, read, salt, nonce)
    case Write(sealed) => CompareAndSwap(guard, wallets, id, read.sealed.value, sealed)
    case _ => wallets
  }

  function Snapshot(wallets: map<Uuid, Wallet>, ids: seq<Uuid>): seq<(Uuid, Wallet)> {
    if ids == [] then []
    else (if ids[0] in wallets then [(ids[0], wallets[ids[0]])] else []) + Snapshot(wallets, ids[1..])
  }

  function Apply(oldKey: MasterKey, newKey: MasterKey, s: State, e: Event): State {
    match e
    case Insert(id, network, seed, salt, nonce) =>
      if id in s.wallets then s
      else
        var sealed := Store(Seal(Window(oldKey, newKey).SealingKey(), seed, Context(network), salt, nonce));
        s.(wallets := s.wallets[id := Wallet(network, Some(sealed))], seeds := s.seeds[id := seed])
    case Fetch(job, ids) =>
      s.(jobs := s.jobs[job := Job(Snapshot(s.wallets, ids))])
    case Rotate(job, guard, salt, nonce) =>
      if job !in s.jobs || s.jobs[job].page == [] then s
      else
        var page := s.jobs[job].page;
        s.(wallets := RotateRow(oldKey, newKey, guard, s.wallets, page[0].0, page[0].1, salt, nonce),
           jobs := s.jobs[job := Job(page[1..])])
    case Crash(job) => s.(jobs := s.jobs - {job})
  }

  function Run(oldKey: MasterKey, newKey: MasterKey, s: State, events: seq<Event>): State {
    if events == [] then s
    else Apply(oldKey, newKey, Run(oldKey, newKey, s, events[..|events| - 1]), events[|events| - 1])
  }

  // --- the invariant --------------------------------------------------------------------------------

  ghost predicate OpensTo(key: MasterKey, wallet: Wallet, seed: Bytes) {
    && wallet.sealed.Some? && Record(wallet.sealed.value).Some?
    && Open(key, Record(wallet.sealed.value).value, Context(wallet.network)) == Ok(seed)
  }

  /** The row is sealed under one of the two keys, and holds this seed. */
  ghost predicate Holds(oldKey: MasterKey, newKey: MasterKey, wallet: Wallet, seed: Bytes) {
    OpensTo(newKey, wallet, seed) || OpensTo(oldKey, wallet, seed)
  }

  /** A row as some migrator read it: it has not changed since, or has already been rotated. */
  ghost predicate Fresh(oldKey: MasterKey, newKey: MasterKey, s: State, id: Uuid, read: Wallet) {
    && id in s.wallets && read.network == s.wallets[id].network
    && (read.sealed.Some? <==> s.wallets[id].sealed.Some?)
    && (read.sealed.Some? ==>
          && id in s.seeds && Holds(oldKey, newKey, read, s.seeds[id])
          && (s.wallets[id] == read || OpensTo(newKey, s.wallets[id], s.seeds[id])))
  }

  /** Every sealed row holds its original seed under one of the two keys. */
  ghost predicate RowsSound(oldKey: MasterKey, newKey: MasterKey, s: State) {
    forall id :: id in s.wallets && s.wallets[id].sealed.Some?
      ==> id in s.seeds && Holds(oldKey, newKey, s.wallets[id], s.seeds[id])
  }

  ghost predicate PageFresh(oldKey: MasterKey, newKey: MasterKey, s: State, page: seq<(Uuid, Wallet)>) {
    forall i :: 0 <= i < |page| ==> Fresh(oldKey, newKey, s, page[i].0, page[i].1)
  }

  ghost predicate JobsSound(oldKey: MasterKey, newKey: MasterKey, s: State) {
    forall job :: job in s.jobs ==> PageFresh(oldKey, newKey, s, s.jobs[job].page)
  }

  ghost predicate Sound(oldKey: MasterKey, newKey: MasterKey, s: State) {
    RowsSound(oldKey, newKey, s) && JobsSound(oldKey, newKey, s)
  }

  /** Rows only ever move from the old key to the new one. */
  ghost predicate Forward(oldKey: MasterKey, newKey: MasterKey, s: State, t: State) {
    && (forall id :: id in s.wallets ==>
          && id in t.wallets && t.wallets[id].network == s.wallets[id].network
          && (t.wallets[id].sealed.Some? <==> s.wallets[id].sealed.Some?))
    && (forall id :: id in s.seeds && id in s.wallets ==> id in t.seeds && t.seeds[id] == s.seeds[id])
    && (forall id :: id in s.wallets && s.wallets[id].sealed.Some? && id in s.seeds ==>
          t.wallets[id] == s.wallets[id] || OpensTo(newKey, t.wallets[id], s.seeds[id]))
    && (forall id :: id in t.wallets && id !in s.wallets && t.wallets[id].sealed.Some? ==>
          id in t.seeds && OpensTo(newKey, t.wallets[id], t.seeds[id]))
  }

  // --- what each step does ---------------------------------------------------------------------------

  lemma ContextIs(network: Bytes)
    ensures Context(network) == Ascii("octo:") + network
  {
    assert Ascii("octo:") == [111, 99, 116, 111, 58];
  }

  /** Exactly which rows make a record; a missing tag is V1. */
  lemma RecordIff(sealed: Sealed)
    ensures Record(sealed).Some? <==>
      sealed.scheme in {None, Some(1), Some(2)} && |sealed.nonce| == 12 && |sealed.salt| == 32
    ensures Record(sealed).Some? ==>
      var record := Record(sealed).value;
      && record.ciphertext == sealed.ciphertext && record.nonce == sealed.nonce && record.salt == sealed.salt
      && record.scheme == if sealed.scheme.None? then 1 else sealed.scheme.value
  {
  }

  /** A provisioned wallet is a new row, sealed under the new key; a taken id changes nothing. */
  lemma InsertAdds(oldKey: MasterKey, newKey: MasterKey, s: State, e: Event)
    requires e.Insert?
    ensures var t := Apply(oldKey, newKey, s, e);
      if e.id in s.wallets then t == s
      else
        && t.wallets.Keys == s.wallets.Keys + {e.id}
        && (forall id :: id in s.wallets ==> t.wallets[id] == s.wallets[id])
        && t.wallets[e.id].network == e.network && OpensTo(newKey, t.wallets[e.id], e.seed)
        && t.seeds == s.seeds[e.id := e.seed] && t.jobs == s.jobs
  {
    SealedOpens(newKey, e.network, e.seed, e.salt, e.nonce);
  }

  /** A page holds exactly the rows that are there. */
  lemma {:induction false} SnapshotIs(wallets: map<Uuid, Wallet>, ids: seq<Uuid>)
    ensures forall id, w :: (id, w) in Snapshot(wallets, ids) <==> id in ids && id in wallets && w == wallets[id]
  {
    if ids != [] {
      SnapshotIs(wallets, ids[1..]);
    }
  }

  /** Reading a page and dying change no row; dying forgets the page. */
  lemma ReadsChangeNothing(oldKey: MasterKey, newKey: MasterKey, s: State, e: Event)
    requires e.Fetch? || e.Crash?
    ensures var t := Apply(oldKey, newKey, s, e);
      && t.wallets == s.wallets && t.seeds == s.seeds
      && t.jobs.Keys - {e.job} == s.jobs.Keys - {e.job}
      && (forall job :: job in s.jobs && job != e.job ==> t.jobs[job] == s.jobs[job])
      && (e.job in t.jobs <==> e.Fetch?)
      && (e.Fetch? ==> t.jobs[e.job].page == Snapshot(s.wallets, e.ids))
  {
  }

  /** A swap lands exactly on a sealed row with the ciphertext that was read or, by scheme, with the tag that was. */
  lemma SwapLandsIff(guard: Guard, wallets: map<Uuid, Wallet>, id: Uuid, read: Sealed, sealed: Sealed)
    ensures var after := CompareAndSwap(guard, wallets, id, read, sealed);
      if && id in wallets && wallets[id].sealed.Some?
         && var now := wallets[id].sealed.value;
         && (guard == ByCiphertext ==> now.ciphertext == read.ciphertext)
         && (guard == ByScheme && read.scheme.Some? ==> now.scheme == read.scheme)
         && (guard == ByScheme && read.scheme.None? ==> now.scheme == Some(1))
      then after == wallets[id := Wallet(wallets[id].network, Some(sealed))]
      else after == wallets
  {
  }

  /** A migrator takes the first row of its page, and may write that row only. */
  lemma RotateTakesFirst(oldKey: MasterKey, newKey: MasterKey, s: State, e: Event)
    requires e.Rotate?
    ensures var t := Apply(oldKey, newKey, s, e);
      if e.job !in s.jobs || s.jobs[e.job].page == [] then t == s
      else
        var page := s.jobs[e.job].page;
        && t.seeds == s.seeds && t.jobs == s.jobs[e.job := Job(page[1..])] && t.wallets.Keys == s.wallets.Keys
        && (forall id :: id in s.wallets && id != page[0].0 ==> t.wallets[id] == s.wallets[id])
        && t.wallets == RotateRow(oldKey, newKey, e.guard, s.wallets, page[0].0, page[0].1, e.salt, e.nonce)
  {
  }

  lemma RunNext(oldKey: MasterKey, newKey: MasterKey, s: State, events: seq<Event>, e: Event)
    ensures Run(oldKey, newKey, s, []) == s
    ensures Run(oldKey, newKey, s, events + [e]) == Apply(oldKey, newKey, Run(oldKey, newKey, s, events), e)
  {
    assert (events + [e])[..|events|] == events;
  }

  // --- what a key opens -----------------------------------------------------------------------------

  /** Sealing under a key and storing gives a row that opens under that key. */
  lemma SealedOpens(key: MasterKey, network: Bytes, seed: Bytes, salt: Salt, nonce: Nonce)
    ensures OpensTo(key, Wallet(network, Some(Store(Seal(key, seed, Context(network), salt, nonce)))), seed)
  {
    var record := Seal(key, seed, Context(network), salt, nonce);
    assert Record(Store(record)) == Some(record);
  }

  /** A row has one content: whichever key opens it, it opens to the same seed. */
  lemma OneContent(a: MasterKey, b: MasterKey, wallet: Wallet, seed: Bytes)
    requires OpensTo(a, wallet, seed) && wallet.sealed.Some?
    ensures Open(b, Record(wallet.sealed.value).value, Context(wallet.network)).Ok? ==> OpensTo(b, wallet, seed)
  {
  }

  /** A row that holds its seed is either skipped because the new key opens it or rewritten under it. */
  lemma ExamineRotates(oldKey: MasterKey, newKey: MasterKey, read: Wallet, seed: Bytes, salt: Salt, nonce: Nonce)
    requires Holds(oldKey, newKey, read, seed)
    ensures var verdict := Examine(oldKey, newKey, read, salt, nonce);
      || (verdict.Skip? && OpensTo(newKey, read, seed))
      || (&& verdict.Write? && !OpensTo(newKey, read, seed)
          && OpensTo(newKey, read.(sealed := Some(verdict.sealed)), seed))
  {
    var record := Record(read.sealed.value).value;
    var context := Context(read.network);
    if Open(newKey, record, context).Ok? {
      if OpensTo(oldKey, read, seed) {
        OneContent(oldKey, newKey, read, seed);
      }
    } else {
      SealedOpens(newKey, read.network, seed, salt, nonce);
    }
  }

  /** Exactly when the loop aborts: unreadable columns, or a record neither key opens. */
  lemma AbortsIff(oldKey: MasterKey, newKey: MasterKey, wallet: Wallet, salt: Salt, nonce: Nonce)
    ensures Examine(oldKey, newKey, wallet, salt, nonce).Abort? <==>
      && wallet.sealed.Some?
      && (Record(wallet.sealed.value).Some? ==> forall key :: key in {oldKey, newKey} ==>
            Open(key, Record(wallet.sealed.value).value, Context(wallet.network)).Err?)
  {
    if wallet.sealed.Some? && Record(wallet.sealed.value).Some? {
      assert oldKey in {oldKey, newKey} && newKey in {oldKey, newKey};
    }
  }

  /** Rows tagged V2, or with the legacy tag 0, stop the loop whatever they hold. */
  lemma OtherSchemesAbort(oldKey: MasterKey, newKey: MasterKey, wallet: Wallet, salt: Salt, nonce: Nonce)
    requires wallet.sealed.Some? && wallet.sealed.value.scheme.Some? && wallet.sealed.value.scheme.value != SCHEME_V1
    ensures Examine(oldKey, newKey, wallet, salt, nonce).Abort?
  {
  }

  // --- every step moves forward -----------------------------------------------------------------------

  lemma ForwardKeepsRows(oldKey: MasterKey, newKey: MasterKey, s: State, t: State)
    requires RowsSound(oldKey, newKey, s) && Forward(oldKey, newKey, s, t)
    ensures RowsSound(oldKey, newKey, t)
  {
    forall id | id in t.wallets && t.wallets[id].sealed.Some?
      ensures id in t.seeds && Holds(oldKey, newKey, t.wallets[id], t.seeds[id])
    {
      if id in s.wallets {
        assert id in s.seeds && Holds(oldKey, newKey, s.wallets[id], s.seeds[id]);
      }
    }
  }

  lemma ForwardKeepsFresh(oldKey: MasterKey, newKey: MasterKey, s: State, t: State, id: Uuid, read: Wallet)
    requires Forward(oldKey, newKey, s, t) && Fresh(oldKey, newKey, s, id, read)
    ensures Fresh(oldKey, newKey, t, id, read)
  {
  }

  lemma ForwardKeepsPage(oldKey: MasterKey, newKey: MasterKey, s: State, t: State, page: seq<(Uuid, Wallet)>)
    requires Forward(oldKey, newKey, s, t) && PageFresh(oldKey, newKey, s, page)
    ensures PageFresh(oldKey, newKey, t, page)
  {
    forall i | 0 <= i < |page| ensures Fresh(oldKey, newKey, t, page[i].0, page[i].1) {
      ForwardKeepsFresh(oldKey, newKey, s, t, page[i].0, page[i].1);
    }
  }

  lemma ForwardTransitive(oldKey: MasterKey, newKey: MasterKey, s: State, t: State, u: State)
    requires RowsSound(oldKey, newKey, s) && Forward(oldKey, newKey, s, t) && Forward(oldKey, newKey, t, u)
    ensures Forward(oldKey, newKey, s, u)
  {
  }

  /**
   * A compare-and-swap either rotates the row or leaves it alone. Afterwards the new key opens it, exactly
   * unless the guard is the scheme tag, the row has none, and nobody had rotated it.
   */
  lemma RotateRowForward(oldKey: MasterKey, newKey: MasterKey, guard: Guard, s: State, id: Uuid, read: Wallet,
                         salt: Salt, nonce: Nonce)
    requires RowsSound(oldKey, newKey, s) && Fresh(oldKey, newKey, s, id, read)
    ensures var t := s.(wallets := RotateRow(oldKey, newKey, guard, s.wallets, id, read, salt, nonce));
      && Forward(oldKey, newKey, s, t)
      && (read.sealed.Some? ==>
            (OpensTo(newKey, t.wallets[id], s.seeds[id]) <==>
               || guard == ByCiphertext || s.wallets[id].sealed.value.scheme.Some?
               || OpensTo(newKey, s.wallets[id], s.seeds[id])))
  {
    if read.sealed.Some? {
      var seed := s.seeds[id];
      ExamineRotates(oldKey, newKey, read, seed, salt, nonce);
      var verdict := Examine(oldKey, newKey, read, salt, nonce);
      if verdict.Write? && Passes(guard, s.wallets[id].sealed.value, read.sealed.value) {
        assert s.wallets[id].(sealed := Some(verdict.sealed)) == read.(sealed := Some(verdict.sealed));
      }
    }
  }

  lemma InsertForward(oldKey: MasterKey, newKey: MasterKey, s: State, e: Event)
    requires RowsSound(oldKey, newKey, s) && e.Insert?
    ensures Forward(oldKey, newKey, s, Apply(oldKey, newKey, s, e))
  {
    SealedOpens(newKey, e.network, e.seed, e.salt, e.nonce);
  }

  lemma {:induction false} SnapshotFresh(oldKey: MasterKey, newKey: MasterKey, s: State, ids: seq<Uuid>)
    requires RowsSound(oldKey, newKey, s)
    ensures PageFresh(oldKey, newKey, s, Snapshot(s.wallets, ids))
  {
    if ids != [] {
      SnapshotFresh(oldKey, newKey, s, ids[1..]);
      assert ids[0] in s.wallets ==> Fresh(oldKey, newKey, s, ids[0], s.wallets[ids[0]]);
    }
  }

  lemma StepForward(oldKey: MasterKey, newKey: MasterKey, s: State, e: Event)
    requires Sound(oldKey, newKey, s)
    ensures Forward(oldKey, newKey, s, Apply(oldKey, newKey, s, e))
  {
    match e
    case Insert(_, _, _, _, _) => InsertForward(oldKey, newKey, s, e);
    case Fetch(_, _) =>
    case Crash(_) =>
    case Rotate(job, guard, salt, nonce) =>
      if job in s.jobs && s.jobs[job].page != [] {
        var row := s.jobs[job].page[0];
        RotateRowForward(oldKey, newKey, guard, s, row.0, row.1, salt, nonce);
      }
  }

  lemma StepKeepsSound(oldKey: MasterKey, newKey: MasterKey, s: State, e: Event)
    requires Sound(oldKey, newKey, s)
    ensures Forward(oldKey, newKey, s, Apply(oldKey, newKey, s, e))
    ensures Sound(oldKey, newKey, Apply(oldKey, newKey, s, e))
  {
    var t := Apply(oldKey, newKey, s, e);
    StepForward(oldKey, newKey, s, e);
    ForwardKeepsRows(oldKey, newKey, s, t);
    forall job | job in t.jobs ensures PageFresh(oldKey, newKey, t, t.jobs[job].page) {
      if e.Fetch? && e.job == job {
        SnapshotFresh(oldKey, newKey, s, e.ids);
      } else {
        assert PageFresh(oldKey, newKey, s, s.jobs[job].page);
      }
      ForwardKeepsPage(oldKey, newKey, s, t, t.jobs[job].page);
    }
  }

  lemma {:induction false} RunKeepsSound(oldKey: MasterKey, newKey: MasterKey, s: State, events: seq<Event>)
    requires Sound(oldKey, newKey, s)
    ensures Sound(oldKey, newKey, Run(oldKey, newKey, s, events))
    ensures Forward(oldKey, newKey, s, Run(oldKey, newKey, s, events))
  {
    if events != [] {
      var n := |events| - 1;
      RunKeepsSound(oldKey, newKey, s, events[..n]);
      var t := Run(oldKey, newKey, s, events[..n]);
      StepKeepsSound(oldKey, newKey, t, events[n]);
      ForwardTransitive(oldKey, newKey, s, t, Run(oldKey, newKey, s, events));
    }
  }

  /**
   * At every point of every interleaving, the server's opening keys recover each row's original seed:
   * no crash, restart, concurrent migrator or insertion ever leaves a row that cannot be opened,
   * whichever guard each write is made under.
   */
  lemma EveryRowOpens(oldKey: MasterKey, newKey: MasterKey, s: State, events: seq<Event>, id: Uuid)
    requires RowsSound(oldKey, newKey, s) && s.jobs == map[]
    requires var t := Run(oldKey, newKey, s, events); id in t.wallets && t.wallets[id].sealed.Some?
    ensures var t := Run(oldKey, newKey, s, events);
      var record := Record(t.wallets[id].sealed.value);
      && id in t.seeds && record.Some?
      && OpenWithAny(Window(oldKey, newKey).OpeningKeys(), record.value, Context(t.wallets[id].network))
         == Some(t.seeds[id])
      && (id in s.wallets && s.wallets[id].sealed.Some? ==> t.seeds[id] == s.seeds[id])
  {
    RunKeepsSound(oldKey, newKey, s, events);
    var t := Run(oldKey, newKey, s, events);
    assert Holds(oldKey, newKey, t.wallets[id], t.seeds[id]);
    var keys := Window(oldKey, newKey).OpeningKeys();
    assert keys[1..] == [oldKey] && keys[1..][1..] == [];
    assert id in s.wallets && s.wallets[id].sealed.Some? ==> id in s.seeds;
    if OpensTo(oldKey, t.wallets[id], t.seeds[id]) {
      OneContent(oldKey, newKey, t.wallets[id], t.seeds[id]);
    }
  }
}
