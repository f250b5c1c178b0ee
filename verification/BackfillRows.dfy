/** What the backfill does to rows, and exactly when the unique index refuses it. */
module BackfillRows {
  import opened Wrappers
  import opened Bytes
  import opened Digits
  import opened Toid
  import opened Backfill

  /** The operation index a row's stored operation id names, if it decodes. */
  function Wanted(row: Row, maxLedger: U32): Option<int> {
    if row.opId.None? then None
    else
      match Decode(row.opId.value, maxLedger)
      case Some(toid) => Some(toid.operationIndex)
      case None => None
  }

  predicate Correct(row: Row, maxLedger: U32) {
    Wanted(row, maxLedger).Some? ==> row.opIndex == Wanted(row, maxLedger).value
  }

  function Corrected(row: Row, maxLedger: U32): Row {
    if Wanted(row, maxLedger).Some? then row.(opIndex := Wanted(row, maxLedger).value) else row
  }

  /** Every row is as it was, or corrected. */
  ghost predicate OnlyCorrected(a: Rows, b: Rows, maxLedger: U32) {
    a.Keys == b.Keys && forall id :: id in a ==> b[id] == a[id] || b[id] == Corrected(a[id], maxLedger)
  }

  lemma OnlyCorrectedTransitive(a: Rows, b: Rows, c: Rows, maxLedger: U32)
    requires OnlyCorrected(a, b, maxLedger) && OnlyCorrected(b, c, maxLedger)
    ensures OnlyCorrected(a, c, maxLedger)
  {
  }

  // --- one batch --------------------------------------------------------------------------------------------

  /** `uq_tx_onchain`: another row already has this hash and index. */
  predicate Violates(rows: Rows, id: Uuid, row: Row) {
    && row.txHash.Some?
    && exists k :: k in rows && k != id && rows[k].txHash == row.txHash && rows[k].opIndex == row.opIndex
  }

  ghost predicate Distinct(ids: seq<Uuid>) {
    forall i, j :: 0 <= i < j < |ids| ==> ids[i] != ids[j]
  }

  /** The rows `ids` corrected, the others as they were. */
  function CorrectAll(rows: Rows, ids: seq<Uuid>, maxLedger: U32): Rows {
    map id | id in rows :: if id in ids then Corrected(rows[id], maxLedger) else rows[id]
  }

  /** Correcting the rows `ids` one by one, some row that needs it meets the index another row has by then. */
  predicate Refused(rows: Rows, ids: seq<Uuid>, maxLedger: U32) {
    if ids == [] then false
    else
      var n := |ids| - 1;
      var so := CorrectAll(rows, ids[..n], maxLedger);
      || Refused(rows, ids[..n], maxLedger)
      || (&& ids[n] in so && !Correct(so[ids[n]], maxLedger)
          && Violates(so, ids[n], Corrected(so[ids[n]], maxLedger)))
  }

  lemma CorrectAllConcat(rows: Rows, a: seq<Uuid>, b: seq<Uuid>, maxLedger: U32)
    ensures CorrectAll(CorrectAll(rows, a, maxLedger), b, maxLedger) == CorrectAll(rows, a + b, maxLedger)
  {
  }

  lemma CorrectAllIsOnly(rows: Rows, ids: seq<Uuid>, maxLedger: U32)
    ensures OnlyCorrected(rows, CorrectAll(rows, ids, maxLedger), maxLedger)
  {
  }

  /** Two stretches: either is refused, the second on what the first left. */
  lemma {:induction false} RefusedConcat(rows: Rows, a: seq<Uuid>, b: seq<Uuid>, maxLedger: U32)
    ensures Refused(rows, a + b, maxLedger)
       <==> Refused(rows, a, maxLedger) || Refused(CorrectAll(rows, a, maxLedger), b, maxLedger)
  {
    if b == [] {
      assert a + b == a;
    } else {
      var n := |b| - 1;
      assert (a + b)[..|a + b| - 1] == a + b[..n];
      RefusedConcat(rows, a, b[..n], maxLedger);
      CorrectAllConcat(rows, a, b[..n], maxLedger);
    }
  }

  // --- the rows of a page that need it ----------------------------------------------------------------------

  function Candidates(rows: Rows, page: seq<Uuid>, maxLedger: U32): seq<Uuid> {
    if page == [] then []
    else
      var n := |page| - 1;
      var before := Candidates(rows, page[..n], maxLedger);
      if page[n] in rows && !Correct(rows[page[n]], maxLedger) then before + [page[n]] else before
  }

  lemma {:induction false} CandidatesAre(rows: Rows, page: seq<Uuid>, maxLedger: U32)
    ensures forall id :: id in Candidates(rows, page, maxLedger) <==>
      id in page && id in rows && !Correct(rows[id], maxLedger)
    ensures Distinct(page) ==> Distinct(Candidates(rows, page, maxLedger))
  {
    if page != [] {
      var n := |page| - 1;
      CandidatesAre(rows, page[..n], maxLedger);
      assert page == page[..n] + [page[n]];
      assert Distinct(page) ==> page[n] !in page[..n];
    }
  }

  lemma CandidatesCorrected(rows: Rows, page: seq<Uuid>, maxLedger: U32)
    ensures CorrectAll(rows, Candidates(rows, page, maxLedger), maxLedger) == CorrectAll(rows, page, maxLedger)
  {
    CandidatesAre(rows, page, maxLedger);
  }

  /** Rows that are correct already play no part. */
  lemma {:induction false} CandidatesRefused(rows: Rows, page: seq<Uuid>, maxLedger: U32)
    ensures Refused(rows, Candidates(rows, page, maxLedger), maxLedger) <==> Refused(rows, page, maxLedger)
  {
    if page != [] {
      var n := |page| - 1;
      CandidatesRefused(rows, page[..n], maxLedger);
      CandidatesCorrected(rows, page[..n], maxLedger);
      var before, all := Candidates(rows, page[..n], maxLedger), Candidates(rows, page, maxLedger);
      assert all != before ==> all[..|all| - 1] == before;
    }
  }

  /** A refused stretch has a row that needs correcting. */
  lemma {:induction false} RefusedNeeds(rows: Rows, ids: seq<Uuid>, maxLedger: U32)
    requires Refused(rows, ids, maxLedger)
    ensures exists id :: id in ids && id in rows && !Correct(rows[id], maxLedger)
  {
    var n := |ids| - 1;
    if Refused(rows, ids[..n], maxLedger) {
      RefusedNeeds(rows, ids[..n], maxLedger);
    } else {
      assert ids[n] in ids && !Correct(rows[ids[n]], maxLedger);
    }
  }

  // --- whatever the order -----------------------------------------------------------------------------------

  /** No row that needs correcting wants an index that another row of its transaction has or wants. */
  ghost predicate NoClash(rows: Rows, maxLedger: U32) {
    forall a, b :: a in rows && b in rows && a != b && !Correct(rows[a], maxLedger) ==>
      !Clashes(rows[a], rows[b], maxLedger)
  }

  predicate Clashes(a: Row, b: Row, maxLedger: U32) {
    && a.txHash.Some? && a.txHash == b.txHash
    && Corrected(a, maxLedger).opIndex in {b.opIndex, Corrected(b, maxLedger).opIndex}
  }

  lemma {:induction false} NoClashNoRefusal(rows: Rows, ids: seq<Uuid>, maxLedger: U32)
    requires NoClash(rows, maxLedger)
    ensures !Refused(rows, ids, maxLedger)
  {
    if ids != [] {
      var n := |ids| - 1;
      NoClashNoRefusal(rows, ids[..n], maxLedger);
      var so := CorrectAll(rows, ids[..n], maxLedger);
      if ids[n] in so && !Correct(so[ids[n]], maxLedger) {
        assert so[ids[n]] == rows[ids[n]];
        forall k | k in so && k != ids[n] && rows[ids[n]].txHash.Some? && so[k].txHash == rows[ids[n]].txHash
          ensures so[k].opIndex != Corrected(rows[ids[n]], maxLedger).opIndex
        {
          assert !Clashes(rows[ids[n]], rows[k], maxLedger);
        }
      }
    }
  }

  /** Two rows that clash, in the worse order. */
  lemma ClashIsRefused(rows: Rows, a: Uuid, b: Uuid, maxLedger: U32)
    requires a in rows && b in rows && a != b && !Correct(rows[a], maxLedger) && Clashes(rows[a], rows[b], maxLedger)
    ensures Refused(rows, [a], maxLedger) || Refused(rows, [b, a], maxLedger)
  {
    assert [a][..0] == [] && [b, a][..1] == [b] && [b][..0] == [];
    assert CorrectAll(rows, [], maxLedger) == rows;
    var so := CorrectAll(rows, [b], maxLedger);
    if rows[b].opIndex == Corrected(rows[a], maxLedger).opIndex {
      assert Violates(rows, a, Corrected(rows[a], maxLedger));
    } else {
      assert so[b].opIndex == Corrected(rows[a], maxLedger).opIndex && so[a] == rows[a];
      assert Violates(so, a, Corrected(so[a], maxLedger));
    }
  }

  /** Exactly then no order of correcting any of the rows is refused. */
  lemma NeverRefusedIff(rows: Rows, maxLedger: U32)
    ensures NoClash(rows, maxLedger) <==> forall ids: seq<Uuid> :: !Refused(rows, ids, maxLedger)
  {
    if NoClash(rows, maxLedger) {
      forall ids: seq<Uuid> ensures !Refused(rows, ids, maxLedger) {
        NoClashNoRefusal(rows, ids, maxLedger);
      }
    } else {
      var a, b :| && a in rows && b in rows && a != b && !Correct(rows[a], maxLedger)
                  && Clashes(rows[a], rows[b], maxLedger);
      ClashIsRefused(rows, a, b, maxLedger);
    }
  }

  /** Each of two rows of one transaction has the index the other wants. */
  predicate Swapped(rows: Rows, a: Uuid, b: Uuid, maxLedger: U32) {
    && a in rows && b in rows && a != b && rows[a].txHash.Some? && rows[a].txHash == rows[b].txHash
    && rows[a].opIndex != rows[b].opIndex
    && Wanted(rows[a], maxLedger) == Some(rows[b].opIndex) && Wanted(rows[b], maxLedger) == Some(rows[a].opIndex)
  }

  /** Two swapped rows can never be put right: whichever comes first is refused. */
  lemma {:induction false} SwapIsRefused(rows: Rows, a: Uuid, b: Uuid, ids: seq<Uuid>, maxLedger: U32)
    requires Swapped(rows, a, b, maxLedger) && (a in ids || b in ids)
    ensures Refused(rows, ids, maxLedger)
  {
    var n := |ids| - 1;
    if a in ids[..n] || b in ids[..n] {
      SwapIsRefused(rows, a, b, ids[..n], maxLedger);
    } else {
      var so := CorrectAll(rows, ids[..n], maxLedger);
      assert so[a] == rows[a] && so[b] == rows[b];
      assert ids == ids[..n] + [ids[n]];
      assert Violates(so, ids[n], Corrected(so[ids[n]], maxLedger));
    }
  }

  /** Such rows exist: any transaction with two operations, each stored under the other's index. */
  lemma SwapExample(t: Toid, hash: string, maxLedger: U32)
    requires Real(t, maxLedger)
    ensures var first := Row(Some(Decimal(Pack(t.(operationIndex := 0)))), 1, Some(hash), 0);
      var second := Row(Some(Decimal(Pack(t.(operationIndex := 1)))), 0, Some(hash), 1);
      Swapped(map[0 := first, 1 := second], 0, 1, maxLedger)
  {
    PrintedToidDecodes(t.(operationIndex := 0), maxLedger);
    PrintedToidDecodes(t.(operationIndex := 1), maxLedger);
  }
}
