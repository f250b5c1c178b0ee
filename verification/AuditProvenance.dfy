/** Runs in which someone else may rewrite the tables between operations of the code. */
module AuditProvenance {
  import opened Wrappers
  import opened Bytes
  import opened AuditEncoding
  import opened AuditChain
  import opened AuditRuns
  import opened AuditLedger

  /** Replaced tables may hold anything except a valid head the code never signed. */
  ghost predicate Allowed(mac: Macs, t: Trail, step: Step) {
    step.Tamper? ==> HeadsSigned(mac, t.ledger, step.db)
  }

  ghost function Trace(mac: Macs, t: Trail, steps: seq<Step>): Trail {
    if steps == [] then t else Advance(mac, Trace(mac, t, steps[..|steps| - 1]), steps[|steps| - 1])
  }

  ghost predicate AllowedRun(mac: Macs, t: Trail, steps: seq<Step>) {
    forall i :: 0 <= i < |steps| ==> Allowed(mac, Trace(mac, t, steps[..i]), steps[i])
  }

  ghost predicate TrailSound(mac: Macs, t: Trail) {
    LedgerSound(mac, t.ledger) && HeadsSigned(mac, t.ledger, t.w.db)
  }

  /** A ledger entry for the only head that changed keeps every head signed. */
  lemma SignedAfterWrite(mac: Macs, ledger: map<Signed, seq<Link>>, a: Db, b: Db, head: Signed, history: seq<Link>)
    requires HeadsSigned(mac, ledger, a)
    requires HeadOf(b, head.user) == Some(Head(head.seqNo, head.hash, mac.head(head.user, head.seqNo, head.hash)))
    requires forall other :: other != head.user ==> HeadOf(a, other) == HeadOf(b, other)
    ensures HeadsSigned(mac, ledger[head := history], b)
  {
    forall user | user in b.heads && user != head.user ensures user in a.heads && a.heads[user] == b.heads[user] {
      assert HeadOf(a, user) == HeadOf(b, user);
    }
  }

  lemma AppendHeads(mac: Macs, db: Db, user: Uuid, e: Event)
    requires Append(mac, db, user, e).Ok?
    ensures forall other :: other != user ==> HeadOf(db, other) == HeadOf(Append(mac, db, user, e).value, other)
  {
    if user !in db.heads {
      assert ChainTip(mac, db, user).value.db.heads == db.heads;
    }
  }

  lemma AppendKeepsTrail(mac: Macs, ledger: map<Signed, seq<Link>>, db: Db, user: Uuid, e: Event)
    requires LedgerSound(mac, ledger) && HeadsSigned(mac, ledger, db) && Append(mac, db, user, e).Ok?
    ensures var (head, history) := AppendEntry(mac, ledger, db, user, e);
      && LedgerSound(mac, ledger[head := history])
      && HeadsSigned(mac, ledger[head := history], Append(mac, db, user, e).value)
  {
    AppendSigns(mac, ledger, db, user, e);
    AppendHeads(mac, db, user, e);
    var (head, history) := AppendEntry(mac, ledger, db, user, e);
    SignedAfterWrite(mac, ledger, db, Append(mac, db, user, e).value, head, history);
  }

  /** The heads after an anonymisation. */
  lemma AnonymiseHeads(mac: Macs, db: Db, user: Uuid)
    requires Anonymise(mac, db, user).Ok?
    ensures var tip := ChainTip(mac, db, user).value;
      var ids := Chain(tip.db.logs, user);
      && AllChained(tip.db.logs, ids) && |ids| == tip.seqNo
      && WalkRows(mac, tip.db.logs, ids) == At(|ids|, tip.hash)
      && var after := Anonymise(mac, db, user).value.0;
      && after == Rewrite(mac, tip.db, user, ids).0
      && (forall other :: other != user ==> HeadOf(db, other) == HeadOf(after, other))
      && HeadOf(after, user) == (if ids == [] then HeadOf(db, user)
           else var hash := Relink(mac, tip.db.logs, ids).1; Some(Head(|ids|, hash, mac.head(user, |ids|, hash))))
  {
    var tip := ChainTip(mac, db, user).value;
    assert tip.db.heads == db.heads;
    ChainIsChained(tip.db.logs, user, 0);
  }

  lemma AnonymiseKeepsTrail(mac: Macs, ledger: map<Signed, seq<Link>>, db: Db, user: Uuid)
    requires LedgerSound(mac, ledger) && HeadsSigned(mac, ledger, db) && Anonymise(mac, db, user).Ok?
    ensures LedgerSound(mac, SignAnonymise(mac, ledger, db, user))
    ensures HeadsSigned(mac, SignAnonymise(mac, ledger, db, user), Anonymise(mac, db, user).value.0)
  {
    AnonymiseHeads(mac, db, user);
    var tip := ChainTip(mac, db, user).value;
    var ids := Chain(tip.db.logs, user);
    var after := Anonymise(mac, db, user).value.0;
    if ids != [] {
      RewriteHistory(mac, tip.db, user);
      SignedKeepsTrail(mac, ledger, db, after, Signed(user, |ids|, Relink(mac, tip.db.logs, ids).1),
                       History(after, user));
    } else {
      SameHeadsSigned(mac, ledger, db, after, user);
    }
  }

  /** Writing down what a new head stands for. */
  lemma SignedKeepsTrail(mac: Macs, ledger: map<Signed, seq<Link>>, a: Db, b: Db, head: Signed, history: seq<Link>)
    requires LedgerSound(mac, ledger) && HeadsSigned(mac, ledger, a)
    requires 1 <= |history| == head.seqNo && HashChain(mac, history, head.hash)
    requires HeadOf(b, head.user) == Some(Head(head.seqNo, head.hash, mac.head(head.user, head.seqNo, head.hash)))
    requires forall other :: other != head.user ==> HeadOf(a, other) == HeadOf(b, other)
    ensures LedgerSound(mac, ledger[head := history]) && HeadsSigned(mac, ledger[head := history], b)
  {
    SignedAfterWrite(mac, ledger, a, b, head, history);
  }

  lemma SameHeadsSigned(mac: Macs, ledger: map<Signed, seq<Link>>, a: Db, b: Db, user: Uuid)
    requires HeadsSigned(mac, ledger, a)
    requires forall u :: HeadOf(a, u) == HeadOf(b, u)
    ensures HeadsSigned(mac, ledger, b)
  {
    forall u | u in b.heads ensures u in a.heads && a.heads[u] == b.heads[u] {
      assert HeadOf(a, u) == HeadOf(b, u);
    }
  }

  lemma AnonymiseOtherHeads(mac: Macs, db: Db, user: Uuid)
    requires Anonymise(mac, db, user).Ok?
    ensures forall other :: other != user ==> HeadOf(db, other) == HeadOf(Anonymise(mac, db, user).value.0, other)
  {
    AnonymiseHeads(mac, db, user);
  }

  /** An append inside a larger transaction: only its own head is seen from outside. */
  lemma AppendAfterSigning(mac: Macs, ledger: map<Signed, seq<Link>>, inside: map<Signed, seq<Link>>,
                           db: Db, mid: Db, user: Uuid, e: Event)
    requires LedgerSound(mac, ledger) && HeadsSigned(mac, ledger, db)
    requires LedgerSound(mac, inside) && HeadsSigned(mac, inside, mid)
    requires forall other :: other != user ==> HeadOf(db, other) == HeadOf(mid, other)
    requires Append(mac, mid, user, e).Ok?
    ensures var (head, history) := AppendEntry(mac, inside, mid, user, e);
      && LedgerSound(mac, ledger[head := history])
      && HeadsSigned(mac, ledger[head := history], Append(mac, mid, user, e).value)
  {
    AppendSigns(mac, inside, mid, user, e);
    AppendHeads(mac, mid, user, e);
    var (head, history) := AppendEntry(mac, inside, mid, user, e);
    SignedAfterWrite(mac, ledger, db, Append(mac, mid, user, e).value, head, history);
  }

  /** Inside a deletion: the anonymised chain is signed, then the appended one replaces its head. */
  lemma DeleteKeepsTrail(mac: Macs, ledger: map<Signed, seq<Link>>, db: Db, user: Uuid, e: Event)
    requires LedgerSound(mac, ledger) && HeadsSigned(mac, ledger, db) && Anonymise(mac, db, user).Ok?
    requires Append(mac, Anonymise(mac, db, user).value.0, user, e).Ok?
    ensures var scrubbed := Anonymise(mac, db, user).value.0;
      var (head, history) := AppendEntry(mac, SignAnonymise(mac, ledger, db, user), scrubbed, user, e);
      && LedgerSound(mac, ledger[head := history])
      && HeadsSigned(mac, ledger[head := history], Append(mac, scrubbed, user, e).value)
  {
    AnonymiseKeepsTrail(mac, ledger, db, user);
    AnonymiseOtherHeads(mac, db, user);
    AppendAfterSigning(mac, ledger, SignAnonymise(mac, ledger, db, user), db, Anonymise(mac, db, user).value.0,
                       user, e);
  }

  lemma AdvanceKeepsTrail(mac: Macs, t: Trail, step: Step)
    requires TrailSound(mac, t) && Allowed(mac, t, step)
    ensures TrailSound(mac, Advance(mac, t, step))
  {
    match step
    case Tamper(_) =>
    case Code(RecordAudit(user, e)) =>
      if Append(mac, t.w.db, user, e).Ok? {
        AppendKeepsTrail(mac, t.ledger, t.w.db, user, e);
      }
    case Code(Delete(user, checked, id, now)) =>
      if DeleteAccount(mac, t.w.accounts, t.w.db, user, checked, id, now).Ok? {
        DeleteKeepsTrail(mac, t.ledger, t.w.db, user, DeletionEvent(id, now));
      }
  }

  lemma {:induction false} TraceKeepsTrail(mac: Macs, t: Trail, steps: seq<Step>)
    requires TrailSound(mac, t) && AllowedRun(mac, t, steps)
    ensures TrailSound(mac, Trace(mac, t, steps))
  {
    if steps != [] {
      var n := |steps| - 1;
      forall i | 0 <= i < n ensures Allowed(mac, Trace(mac, t, steps[..n][..i]), steps[..n][i]) {
        assert steps[..n][..i] == steps[..i];
      }
      TraceKeepsTrail(mac, t, steps[..n]);
      AdvanceKeepsTrail(mac, Trace(mac, t, steps[..n]), steps[n]);
    }
  }

  /** In a sound trail, an intact chain with a head is the very history the head was signed for. */
  lemma IntactIsSigned(mac: Mac, t: Trail, user: Uuid)
    requires TrailSound(Keyed(mac), t)
    requires user in t.w.db.heads && Verify(Keyed(mac), t.w.db, user).status == Intact
    ensures |t.w.db.heads[user].rowHash| == 32
    ensures var k := Signed(user, t.w.db.heads[user].seqNo, t.w.db.heads[user].rowHash);
      && k in t.ledger
      && (NoCollision(mac, History(t.w.db, user), t.ledger[k]) ==> History(t.w.db, user) == t.ledger[k])
  {
    IntactHistory(Keyed(mac), t.w.db, user);
    var k := Signed(user, t.w.db.heads[user].seqNo, t.w.db.heads[user].rowHash);
    if NoCollision(mac, History(t.w.db, user), t.ledger[k]) {
      EncodingTellsApart(mac, History(t.w.db, user), t.ledger[k]);
      SameHashSameRows(Keyed(mac), History(t.w.db, user), t.ledger[k], k.hash);
    }
  }

  /**
   * Over every run, however the tables are rewritten between operations: an intact chain with a
   * head holds, row for row, the history the code signed that head for.
   */
  lemma EveryIntactChainIsSigned(mac: Mac, w: World, steps: seq<Step>, user: Uuid)
    requires w.db.heads == map[]
    requires AllowedRun(Keyed(mac), Trail(w, map[], {}), steps)
    requires var t := Trace(Keyed(mac), Trail(w, map[], {}), steps);
      && user in t.w.db.heads && Verify(Keyed(mac), t.w.db, user).status == Intact
      && (forall k :: k in t.ledger ==> NoCollision(mac, History(t.w.db, user), t.ledger[k]))
    ensures var t := Trace(Keyed(mac), Trail(w, map[], {}), steps);
      && |t.w.db.heads[user].rowHash| == 32
      && var k := Signed(user, t.w.db.heads[user].seqNo, t.w.db.heads[user].rowHash);
      && k in t.ledger && History(t.w.db, user) == t.ledger[k]
  {
    TraceKeepsTrail(Keyed(mac), Trail(w, map[], {}), steps);
    IntactIsSigned(mac, Trace(Keyed(mac), Trail(w, map[], {}), steps), user);
  }
}
