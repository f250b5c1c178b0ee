/** The backfill loop as it runs: find a page's candidates, update them in a transaction, move on. */
module BackfillRun {
  import opened Wrappers
  import opened Bytes
  import opened Toid
  import opened Backfill
  import opened BackfillRows

  datatype Stats = Stats(examined: nat, needed: nat, updated: nat, errors: nat)

  ghost predicate AllCorrect(rows: Rows, maxLedger: U32) {
    forall id :: id in Eligible(rows) ==> Correct(rows[id], maxLedger)
  }

  /** All pages one after the other: the order in which rows are visited. */
  ghost function Visited(pages: seq<seq<Uuid>>): seq<Uuid> {
    if pages == [] then [] else Visited(pages[..|pages| - 1]) + pages[|pages| - 1]
  }

  lemma VisitedMore(pages: seq<seq<Uuid>>, page: seq<Uuid>)
    ensures Visited(pages + [page]) == Visited(pages) + page
  {
    assert (pages + [page])[..|pages|] == pages;
  }

  lemma {:induction false} VisitedHolds(pages: seq<seq<Uuid>>, k: nat, id: Uuid)
    requires k < |pages| && id in pages[k]
    ensures id in Visited(pages)
  {
    if k < |pages| - 1 {
      VisitedHolds(pages[..|pages| - 1], k, id);
    }
  }

  /** A row of some page is wrong, unless a later page came back to it. */
  ghost predicate LeftWrong(rows: Rows, pages: seq<seq<Uuid>>, maxLedger: U32) {
    exists k: nat, id :: WrongAt(rows, pages, k, id, maxLedger)
  }

  ghost predicate WrongAt(rows: Rows, pages: seq<seq<Uuid>>, k: nat, id: Uuid, maxLedger: U32) {
    && k < |pages| && id in pages[k]
    && (Revisited(pages, k, id) || (id in rows && !Correct(rows[id], maxLedger)))
  }

  ghost predicate Revisited(pages: seq<seq<Uuid>>, k: nat, id: Uuid) {
    exists later :: k < later < |pages| && id in pages[later]
  }

  /** What the run has done to the rows so far, and what its statistics say of it. */
  ghost predicate Accounts(before: Rows, rows: Rows, pages: seq<seq<Uuid>>, stats: Stats, dryRun: bool, maxLedger: U32)
  {
    && OnlyCorrected(before, rows, maxLedger) && (dryRun ==> rows == before && stats.errors == 0)
    && (stats.errors == 0 && !dryRun ==> rows == CorrectAll(before, Visited(pages), maxLedger))
    && (stats.errors == 0 ==> stats.updated == stats.needed)
    && (AllCorrect(before, maxLedger) ==>
          stats.needed == 0 && stats.updated == 0 && stats.errors == 0 && rows == before)
  }

  /** Why there were errors: with no fault of the database, because the unique index refused a row. */
  ghost predicate Explained(before: Rows, rows: Rows, pages: seq<seq<Uuid>>, stats: Stats, maxLedger: U32) {
    && (stats.errors == 0 <==> !Refused(before, Visited(pages), maxLedger))
    && (stats.errors > 0 ==> LeftWrong(rows, pages, maxLedger))
  }

  /** Both, once `offset` rows have been looked at; errors are explained while nothing else failed. */
  ghost predicate Running(before: Rows, rows: Rows, pages: seq<seq<Uuid>>, stats: Stats, dryRun: bool, maxLedger: U32,
                          offset: nat, flawless: bool)
  {
    && stats.examined == offset && Accounts(before, rows, pages, stats, dryRun, maxLedger)
    && (flawless ==> Explained(before, rows, pages, stats, maxLedger))
  }

  // --- where the loop has got to ------------------------------------------------------------------------------

  /** Unlimited, the pages so far are the pages of the listings, in order. */
  ghost predicate Progress(listings: nat -> seq<Uuid>, limit: nat, batch: nat, offset: nat, query: nat,
                           pages: seq<seq<Uuid>>, n: nat)
  {
    && offset <= n && query == |pages|
    && (limit == 0 && batch >= 1 ==> offset == Min(query * batch, n) && PagesOf(listings, batch, pages))
  }

  ghost predicate PagesOf(listings: nat -> seq<Uuid>, batch: nat, pages: seq<seq<Uuid>>) {
    forall k: nat :: k < |pages| ==> pages[k] == Page(listings(k), batch, k)
  }

  ghost predicate AllPages(listings: nat -> seq<Uuid>, batch: nat, pages: seq<seq<Uuid>>) {
    forall k: nat, id :: id in Page(listings(k), batch, k) ==> k < |pages| && id in pages[k]
  }

  lemma NextProgress(listings: nat -> seq<Uuid>, limit: nat, batch: nat, offset: nat, query: nat,
                     pages: seq<seq<Uuid>>, n: nat, page: seq<Uuid>)
    requires Progress(listings, limit, batch, offset, query, pages, n) && |listings(query)| == n
    requires offset + |page| <= n && (limit == 0 ==> page == listings(query)[offset..Min(offset + batch, n)])
    ensures Progress(listings, limit, batch, offset + |page|, query + 1, pages + [page], n)
  {
    if limit == 0 && batch >= 1 {
      assert (query + 1) * batch == query * batch + batch;
    }
  }

  /** Once the offset has reached the end, no later page holds anything. */
  lemma EndOfPages(rows: Rows, listings: nat -> seq<Uuid>, batch: nat, query: nat, pages: seq<seq<Uuid>>, n: nat)
    requires batch >= 1 && (forall k :: IsListing(rows, listings(k))) && |listings(0)| == n
    requires Progress(listings, 0, batch, n, query, pages, n)
    ensures AllPages(listings, batch, pages)
  {
    forall k: nat, id | id in Page(listings(k), batch, k) ensures k < |pages| && id in pages[k] {
      SameLength(rows, listings(0), listings(k));
      Boundaries(batch, query, k);
    }
  }

  lemma PageEligible(rows: Rows, ids: seq<Uuid>, from: nat, to: nat)
    requires IsListing(rows, ids) && from <= to <= |ids|
    ensures Distinct(ids[from..to]) && forall i :: 0 <= i < |ids[from..to]| ==> ids[from..to][i] in Eligible(rows)
  {
    forall i | from <= i < to ensures ids[i] in Eligible(rows) {
      assert ids[i] in ids;
    }
  }

  // --- each row on one page -----------------------------------------------------------------------------------

  lemma VisitedCorrected(rows: Rows, visited: seq<Uuid>, maxLedger: U32)
    requires IsListing(rows, visited)
    ensures AllCorrect(CorrectAll(rows, visited, maxLedger), maxLedger)
  {
  }

  lemma Quotient(batch: nat, k: nat, i: nat)
    requires batch >= 1 && k * batch <= i < (k + 1) * batch
    ensures i / batch == k
  {
    PageOf(i, batch);
    Boundaries(batch, i / batch + 1, k);
    Boundaries(batch, k + 1, i / batch);
  }

  lemma QuotientOrder(batch: nat, i: nat, j: nat)
    requires batch >= 1 && i / batch < j / batch
    ensures i < j
  {
    PageOf(i, batch);
    PageOf(j, batch);
    Boundaries(batch, i / batch + 1, j / batch);
  }

  /** With no tie across a boundary, a row has the same page in every listing. */
  lemma SamePageNumber(rows: Rows, ids: seq<Uuid>, c: seq<Uuid>, batch: nat, p: nat, i: nat)
    requires batch >= 1 && IsListing(rows, ids) && IsListing(rows, c) && NoTieAcross(rows, ids, batch)
    requires p < |ids| && i < |c| && c[i] == ids[p]
    ensures i / batch == p / batch
  {
    PageOf(p, batch);
    SamePage(rows, ids, c, batch, p / batch, p, i);
    Quotient(batch, p / batch, i);
  }

  lemma PositionOnPage(ids: seq<Uuid>, batch: nat, k: nat, id: Uuid) returns (i: nat)
    requires batch >= 1 && id in Page(ids, batch, k)
    ensures i < |ids| && ids[i] == id && i / batch == k
  {
    var page := Page(ids, batch, k);
    var j :| 0 <= j < |page| && page[j] == id;
    i := Min(k * batch, |ids|) + j;
    assert (k + 1) * batch == k * batch + batch;
    Quotient(batch, k, i);
  }

  /** The page of a row, by where it lies in a listing. */
  lemma PageNumber(rows: Rows, ids: seq<Uuid>, c: seq<Uuid>, batch: nat, k: nat, id: Uuid) returns (p: nat)
    requires batch >= 1 && IsListing(rows, ids) && IsListing(rows, c) && NoTieAcross(rows, ids, batch)
    requires id in Page(c, batch, k)
    ensures p < |ids| && ids[p] == id && p / batch == k
  {
    var i := PositionOnPage(c, batch, k, id);
    assert id in c;
    assert id in ids;
    p :| 0 <= p < |ids| && ids[p] == id;
    SamePageNumber(rows, ids, c, batch, p, i);
  }

  lemma OnOnePage(rows: Rows, ids: seq<Uuid>, c: seq<Uuid>, d: seq<Uuid>, batch: nat, k: nat, m: nat, id: Uuid)
    requires batch >= 1 && IsListing(rows, ids) && IsListing(rows, c) && IsListing(rows, d)
    requires NoTieAcross(rows, ids, batch) && id in Page(c, batch, k) && id in Page(d, batch, m)
    ensures k == m
  {
    var p := PageNumber(rows, ids, c, batch, k, id);
    var q := PageNumber(rows, ids, d, batch, m, id);
  }

  /** Rows of an earlier page are no younger than those of a later one. */
  lemma EarlierPage(rows: Rows, ids: seq<Uuid>, c: seq<Uuid>, d: seq<Uuid>, batch: nat, k: nat, n: nat, a: Uuid,
                    b: Uuid)
    requires batch >= 1 && IsListing(rows, ids) && IsListing(rows, c) && IsListing(rows, d)
    requires NoTieAcross(rows, ids, batch) && k < n && a in Page(c, batch, k) && b in Page(d, batch, n)
    ensures a != b && Time(rows, a) <= Time(rows, b)
  {
    var p := PageNumber(rows, ids, c, batch, k, a);
    var q := PageNumber(rows, ids, d, batch, n, b);
    QuotientOrder(batch, p, q);
  }

  /** A row left wrong was on no later page, so it still is wrong. */
  lemma WrongStays(before: Rows, rows: Rows, listings: nat -> seq<Uuid>, batch: nat, pages: seq<seq<Uuid>>,
                   maxLedger: U32)
    requires batch >= 1 && (forall n :: IsListing(before, listings(n))) && NoTieAcross(before, listings(0), batch)
    requires PagesOf(listings, batch, pages) && LeftWrong(rows, pages, maxLedger)
    ensures !AllCorrect(rows, maxLedger)
  {
    var k: nat, id :| WrongAt(rows, pages, k, id, maxLedger);
    if Revisited(pages, k, id) {
      var later :| k < later < |pages| && id in pages[later];
      assert IsListing(before, listings(0)) && IsListing(before, listings(k)) && IsListing(before, listings(later));
      OnOnePage(before, listings(0), listings(k), listings(later), batch, k, later, id);
    } else {
      assert id in Eligible(rows);
    }
  }

  /** The pages one after the other are a listing themselves. */
  lemma VisitedIsListing(rows: Rows, listings: nat -> seq<Uuid>, batch: nat, pages: seq<seq<Uuid>>)
    requires batch >= 1 && (forall n :: IsListing(rows, listings(n))) && NoTieAcross(rows, listings(0), batch)
    requires PagesOf(listings, batch, pages) && AllPages(listings, batch, pages)
    ensures IsListing(rows, Visited(pages))
  {
    PagesInOrder(rows, listings, batch, pages);
    forall id | id in Eligible(rows) ensures id in Visited(pages) {
      EveryRowVisited(rows, listings(0), batch, listings, id);
      var k: nat :| id in Page(listings(k), batch, k);
      VisitedHolds(pages, k, id);
    }
  }

  /** `visited` is in order, holds each row once, and only rows of the pages. */
  ghost predicate InOrder(rows: Rows, visited: seq<Uuid>) {
    && (forall i, j :: 0 <= i < j < |visited| ==>
          visited[i] != visited[j] && Time(rows, visited[i]) <= Time(rows, visited[j]))
    && (forall i :: 0 <= i < |visited| ==> visited[i] in Eligible(rows))
  }

  lemma {:induction false} OnSomePage(pages: seq<seq<Uuid>>, id: Uuid) returns (k: nat)
    requires id in Visited(pages)
    ensures k < |pages| && id in pages[k]
  {
    var n := |pages| - 1;
    if id in pages[n] {
      k := n;
    } else {
      k := OnSomePage(pages[..n], id);
    }
  }

  lemma {:induction false} PagesInOrder(rows: Rows, listings: nat -> seq<Uuid>, batch: nat, pages: seq<seq<Uuid>>)
    requires batch >= 1 && (forall n :: IsListing(rows, listings(n))) && NoTieAcross(rows, listings(0), batch)
    requires PagesOf(listings, batch, pages)
    ensures InOrder(rows, Visited(pages))
  {
    if pages != [] {
      var n := |pages| - 1;
      PagesInOrder(rows, listings, batch, pages[..n]);
      var before, page := Visited(pages[..n]), pages[n];
      PageInOrder(rows, listings(n), batch, n);
      forall i, j | 0 <= i < |before| && 0 <= j < |page|
        ensures before[i] != page[j] && Time(rows, before[i]) <= Time(rows, page[j])
      {
        var k := OnSomePage(pages[..n], before[i]);
        assert page[j] in page;
        EarlierPage(rows, listings(0), listings(k), listings(n), batch, k, n, before[i], page[j]);
      }
      InOrderConcat(rows, before, page);
    }
  }

  lemma PageInOrder(rows: Rows, ids: seq<Uuid>, batch: nat, k: nat)
    requires IsListing(rows, ids)
    ensures InOrder(rows, Page(ids, batch, k))
  {
    var page := Page(ids, batch, k);
    forall i | 0 <= i < |page| ensures page[i] in Eligible(rows) {
      assert page[i] in ids;
    }
  }

  lemma InOrderConcat(rows: Rows, a: seq<Uuid>, b: seq<Uuid>)
    requires InOrder(rows, a) && InOrder(rows, b)
    requires forall i, j :: 0 <= i < |a| && 0 <= j < |b| ==> a[i] != b[j] && Time(rows, a[i]) <= Time(rows, b[j])
    ensures InOrder(rows, a + b)
  {
  }

  // --- one more page ------------------------------------------------------------------------------------------

  function Counted(stats: Stats, page: seq<Uuid>, needed: nat, updated: Option<nat>): Stats {
    Stats(stats.examined + |page|, stats.needed + needed,
          stats.updated + (if updated.Some? then updated.value else 0),
          stats.errors + (if updated.None? then 1 else 0))
  }

  /** What a page adds: its rows, those that need correcting, and those corrected or else one error. */
  lemma CountedIs(stats: Stats, page: seq<Uuid>, needed: nat, updated: Option<nat>)
    ensures var now := Counted(stats, page, needed, updated);
      && now.examined - stats.examined == |page| && now.needed - stats.needed == needed
      && (updated.Some? ==> now.updated - stats.updated == updated.value && now.errors == stats.errors)
      && (updated.None? ==> now.updated == stats.updated && now.errors - stats.errors == 1)
  {
  }

  /** Rows that need correcting, as a candidate does by the way it is found. */
  ghost predicate AllWrong(rows: Rows, ids: seq<Uuid>, maxLedger: U32) {
    forall i :: 0 <= i < |ids| ==> ids[i] in rows && !Correct(rows[ids[i]], maxLedger)
  }

  /** The first `i` candidates are corrected in the transaction, and none of them was refused. */
  ghost predicate InTransaction(rows: Rows, ids: seq<Uuid>, i: nat, tx: Rows, count: nat, maxLedger: U32) {
    && i <= |ids| && tx == CorrectAll(rows, ids[..i], maxLedger)
    && (AllWrong(rows, ids, maxLedger) ==> !Refused(rows, ids[..i], maxLedger))
    && (Distinct(ids) ==> count == i)
  }

  /** The next candidate of a batch: corrected, unless it is so already or the index refuses it. */
  lemma NextCandidate(rows: Rows, ids: seq<Uuid>, i: nat, tx: Rows, count: nat, maxLedger: U32)
    requires InTransaction(rows, ids, i, tx, count, maxLedger) && i < |ids| && ids[i] in rows
    ensures var id, row := ids[i], Corrected(rows[ids[i]], maxLedger);
      if tx[id].opIndex != rows[id].opIndex then InTransaction(rows, ids, i + 1, tx, count, maxLedger)
      else if !Violates(tx, id, row) then InTransaction(rows, ids, i + 1, tx[id := row], count + 1, maxLedger)
      else AllWrong(rows, ids, maxLedger) ==> Refused(rows, ids, maxLedger)
  {
    assert ids[..i + 1] == ids[..i] + [ids[i]] && ids[..i + 1][..i] == ids[..i];
    assert Distinct(ids) ==> ids[i] !in ids[..i];
    NextRefused(rows, ids, i, tx, maxLedger);
  }

  lemma NextRefused(rows: Rows, ids: seq<Uuid>, i: nat, tx: Rows, maxLedger: U32)
    requires i < |ids| && ids[i] in rows && tx == CorrectAll(rows, ids[..i], maxLedger)
    requires ids[..i + 1][..i] == ids[..i]
    ensures !Correct(rows[ids[i]], maxLedger) ==>
      var same := tx[ids[i]].opIndex == rows[ids[i]].opIndex;
      (Refused(rows, ids[..i + 1], maxLedger) <==>
         || Refused(rows, ids[..i], maxLedger)
         || (same && Violates(tx, ids[i], Corrected(rows[ids[i]], maxLedger))))
    ensures Refused(rows, ids[..i + 1], maxLedger) ==> Refused(rows, ids, maxLedger)
  {
    if Refused(rows, ids[..i + 1], maxLedger) {
      PrefixRefused(rows, ids, i + 1, maxLedger);
    }
  }

  lemma PrefixRefused(rows: Rows, ids: seq<Uuid>, n: nat, maxLedger: U32)
    requires n <= |ids| && Refused(rows, ids[..n], maxLedger)
    ensures Refused(rows, ids, maxLedger)
  {
    assert ids == ids[..n] + ids[n..];
    RefusedConcat(rows, ids[..n], ids[n..], maxLedger);
  }

  lemma PageAccounted(before: Rows, mid: Rows, rows: Rows, pages: seq<seq<Uuid>>, page: seq<Uuid>, stats: Stats,
                      dryRun: bool, maxLedger: U32, needed: nat, updated: Option<nat>)
    requires Accounts(before, mid, pages, stats, dryRun, maxLedger)
    requires forall i :: 0 <= i < |page| ==> page[i] in Eligible(before)
    requires needed == |Candidates(mid, page, maxLedger)|
    requires rows in {mid, CorrectAll(mid, page, maxLedger)} && (dryRun ==> rows == mid && updated.Some?)
    requires updated.Some? ==> updated.value == needed
    requires updated.Some? && !dryRun ==> rows == CorrectAll(mid, page, maxLedger)
    requires needed == 0 ==> updated == Some(0) && rows == mid
    ensures Accounts(before, rows, pages + [page], Counted(stats, page, needed, updated), dryRun, maxLedger)
  {
    CorrectAllIsOnly(mid, page, maxLedger);
    OnlyCorrectedTransitive(before, mid, rows, maxLedger);
    VisitedMore(pages, page);
    CorrectAllConcat(before, Visited(pages), page, maxLedger);
    if AllCorrect(before, maxLedger) {
      NothingNeeded(before, page, maxLedger);
    }
  }

  lemma {:induction false} NothingNeeded(rows: Rows, page: seq<Uuid>, maxLedger: U32)
    requires AllCorrect(rows, maxLedger)
    ensures Candidates(rows, page, maxLedger) == []
  {
    if page != [] {
      NothingNeeded(rows, page[..|page| - 1], maxLedger);
    }
  }

  lemma PageExplained(before: Rows, mid: Rows, rows: Rows, pages: seq<seq<Uuid>>, page: seq<Uuid>, stats: Stats,
                      maxLedger: U32, updated: Option<nat>)
    requires Accounts(before, mid, pages, stats, false, maxLedger) && Explained(before, mid, pages, stats, maxLedger)
    requires updated.None? <==> Refused(mid, page, maxLedger)
    requires updated.None? ==> rows == mid
    requires updated.Some? ==> rows == CorrectAll(mid, page, maxLedger)
    ensures Explained(before, rows, pages + [page], Counted(stats, page, 0, updated), maxLedger)
  {
    VisitedMore(pages, page);
    RefusedConcat(before, Visited(pages), page, maxLedger);
    if stats.errors > 0 {
      WrongLater(mid, rows, pages, page, maxLedger);
    } else if updated.None? {
      RefusedNeeds(mid, page, maxLedger);
      var id :| id in page && id in mid && !Correct(mid[id], maxLedger);
      assert (pages + [page])[|pages|] == page;
      assert WrongAt(rows, pages + [page], |pages|, id, maxLedger);
    }
  }

  lemma NoClashNoErrors(before: Rows, rows: Rows, pages: seq<seq<Uuid>>, stats: Stats, maxLedger: U32)
    requires NoClash(before, maxLedger) && Explained(before, rows, pages, stats, maxLedger)
    ensures stats.errors == 0
  {
    NoClashNoRefusal(before, Visited(pages), maxLedger);
  }

  lemma WrongLater(mid: Rows, rows: Rows, pages: seq<seq<Uuid>>, page: seq<Uuid>, maxLedger: U32)
    requires LeftWrong(mid, pages, maxLedger)
    requires rows in {mid, CorrectAll(mid, page, maxLedger)}
    ensures LeftWrong(rows, pages + [page], maxLedger)
  {
    var more := pages + [page];
    var k: nat, id :| WrongAt(mid, pages, k, id, maxLedger);
    assert more[k] == pages[k] && more[|pages|] == page;
    if Revisited(pages, k, id) {
      var later :| k < later < |pages| && id in pages[later];
      assert more[later] == pages[later];
      assert Revisited(more, k, id);
    } else if id in page {
      assert Revisited(more, k, id);
    }
    assert WrongAt(rows, more, k, id, maxLedger);
  }

  /** One UPDATE of the transaction; None when the unique index refuses it. */
  method CorrectNext(rows: Rows, ids: seq<Uuid>, i: nat, tx: Rows, count: nat, maxLedger: U32)
    returns (after: Option<Rows>, updated: nat)
    requires InTransaction(rows, ids, i, tx, count, maxLedger) && i < |ids| && ids[i] in rows
    ensures after.Some? ==> InTransaction(rows, ids, i + 1, after.value, updated, maxLedger)
    ensures after.None? && AllWrong(rows, ids, maxLedger) ==> Refused(rows, ids, maxLedger)
  {
    var id, row := ids[i], Corrected(rows[ids[i]], maxLedger);
    NextCandidate(rows, ids, i, tx, count, maxLedger);
    // The WHERE clause: nothing has changed the row since it was read.
    if tx[id].opIndex != rows[id].opIndex {
      return Some(tx), count;
    }
    if Violates(tx, id, row) {
      return None, count;
    }
    after, updated := Some(tx[id := row]), count + 1;
  }

  /** The UPDATEs of one transaction, in order, on the rows as they were when it began. */
  method CorrectInOrder(rows: Rows, ids: seq<Uuid>, maxLedger: U32) returns (tx: Option<Rows>, count: nat)
    requires forall i :: 0 <= i < |ids| ==> ids[i] in rows
    ensures tx.Some? ==> tx.value == CorrectAll(rows, ids, maxLedger)
    ensures tx.Some? && Distinct(ids) ==> count == |ids|
    ensures AllWrong(rows, ids, maxLedger) ==> (tx.None? <==> Refused(rows, ids, maxLedger))
  {
    tx, count := Some(rows), 0;
    assert CorrectAll(rows, ids[..0], maxLedger) == rows;
    var i: nat := 0;
    while i < |ids|
      invariant tx.Some? && InTransaction(rows, ids, i, tx.value, count, maxLedger)
    {
      tx, count := CorrectNext(rows, ids, i, tx.value, count, maxLedger);
      if tx.None? {
        return;
      }
      i := i + 1;
    }
    assert ids[..i] == ids;
  }

  class Table {
    var rows: Rows

    constructor (rows: Rows)
      ensures this.rows == rows
    {
      this.rows := rows;
    }

    /** `find_candidates_batch`: the rows of a page whose stored index is not the one their id names. */
    method FindCandidates(page: seq<Uuid>, maxLedger: U32) returns (candidates: seq<Uuid>)
      requires forall i :: 0 <= i < |page| ==> page[i] in rows
      ensures candidates == Candidates(rows, page, maxLedger)
    {
      candidates := [];
      var i := 0;
      while i < |page|
        invariant 0 <= i <= |page| && candidates == Candidates(rows, page[..i], maxLedger)
      {
        var row := rows[page[i]];
        var wanted := Wanted(row, maxLedger);
        assert page[..i + 1][..i] == page[..i];
        if wanted.Some? && wanted.value != row.opIndex {
          candidates := candidates + [page[i]];
        }
        i := i + 1;
      }
      assert page[..i] == page;
    }

    /**
     * `update_batch`: all of the candidates in one transaction, or none; a dry run touches nothing. The
     * count is None exactly when the unique index refuses one of them.
     */
    method UpdateBatch(candidates: seq<Uuid>, dryRun: bool, maxLedger: U32) returns (updated: Option<nat>)
      requires forall i :: 0 <= i < |candidates| ==> candidates[i] in rows
      modifies this
      ensures dryRun ==> updated == Some(|candidates|)
      ensures !dryRun && AllWrong(old(rows), candidates, maxLedger) ==>
        (updated.None? <==> Refused(old(rows), candidates, maxLedger))
      ensures rows == if dryRun || updated.None? then old(rows) else CorrectAll(old(rows), candidates, maxLedger)
      ensures updated.Some? && Distinct(candidates) ==> updated.value == |candidates|
    {
      if candidates == [] {
        assert CorrectAll(rows, [], maxLedger) == rows;
        return Some(0);
      }
      if dryRun {
        return Some(|candidates|);
      }
      var tx, count := CorrectInOrder(rows, candidates, maxLedger);
      if tx.None? {
        return None;
      }
      rows := tx.value;
      updated := Some(count);
    }

    /** One page: candidates found and, unless the transaction fails, corrected. */
    method BackfillPage(page: seq<Uuid>, dryRun: bool, maxLedger: U32, fault: Fault)
      returns (needed: nat, updated: Option<nat>)
      requires Distinct(page) && forall i :: 0 <= i < |page| ==> page[i] in rows
      modifies this
      ensures needed == |Candidates(old(rows), page, maxLedger)|
      ensures rows in {old(rows), CorrectAll(old(rows), page, maxLedger)} && (dryRun ==> rows == old(rows))
      ensures updated.Some? ==> updated.value == needed
      ensures updated.Some? && !dryRun ==> rows == CorrectAll(old(rows), page, maxLedger)
      ensures needed == 0 ==> updated == Some(0) && rows == old(rows)
      ensures dryRun ==> updated.Some?
      ensures fault.Fine? && !dryRun ==> (updated.None? <==> Refused(old(rows), page, maxLedger))
      ensures fault.Fine? && updated.None? ==> rows == old(rows)
    {
      var candidates := FindCandidates(page, maxLedger);
      CandidatesAre(rows, page, maxLedger);
      CandidatesCorrected(rows, page, maxLedger);
      CandidatesRefused(rows, page, maxLedger);
      needed := |candidates|;
      if candidates == [] {
        assert CorrectAll(rows, [], maxLedger) == rows;
        return 0, Some(0);
      }
      if fault == Lost(false) && !dryRun {
        return needed, None;
      }
      assert forall i :: 0 <= i < |candidates| ==> candidates[i] in candidates;
      updated := UpdateBatch(candidates, dryRun, maxLedger);
      if fault.Lost? && !dryRun {
        updated := None;
      }
    }

    /** One query and what is done with its answer. */
    method Step(page: seq<Uuid>, dryRun: bool, maxLedger: U32, fault: Fault, stats: Stats, ghost before: Rows,
                ghost pages: seq<seq<Uuid>>)
      returns (after: Stats, needed: nat)
      requires Accounts(before, rows, pages, stats, dryRun, maxLedger)
      requires Distinct(page) && forall i :: 0 <= i < |page| ==> page[i] in Eligible(before)
      modifies this
      ensures Accounts(before, rows, pages + [page], after, dryRun, maxLedger)
      ensures after.examined == stats.examined + |page|
      ensures fault.Fine? && !dryRun && old(Explained(before, rows, pages, stats, maxLedger)) ==>
        Explained(before, rows, pages + [page], after, maxLedger)
    {
      ghost var mid := rows;
      var updated;
      needed, updated := BackfillPage(page, dryRun, maxLedger, fault);
      PageAccounted(before, mid, rows, pages, page, stats, dryRun, maxLedger, needed, updated);
      if fault.Fine? && !dryRun && Explained(before, mid, pages, stats, maxLedger) {
        PageExplained(before, mid, rows, pages, page, stats, maxLedger, updated);
      }
      after := Counted(stats, page, needed, updated);
    }

    /** One turn of the loop; an empty page ends it. */
    method Turn(limit: nat, batchSize: nat, dryRun: bool, maxLedger: U32, ids: seq<Uuid>, offset: nat, fault: Fault,
                stats: Stats, ghost before: Rows, ghost pages: seq<seq<Uuid>>, ghost listings: nat -> seq<Uuid>,
                ghost query: nat, ghost flawless: bool)
      returns (page: seq<Uuid>, after: Stats, done: bool)
      requires ids == listings(query) && IsListing(before, ids) && (limit > 0 ==> offset <= limit)
      requires Progress(listings, limit, batchSize, offset, query, pages, |ids|)
      requires Running(before, rows, pages, stats, dryRun, maxLedger, offset, flawless)
      requires flawless ==> !dryRun && fault.Fine?
      modifies this
      ensures page == [] ==> done && after == stats && rows == old(rows)
      ensures page != [] ==> Progress(listings, limit, batchSize, offset + |page|, query + 1, pages + [page], |ids|)
      ensures page != [] ==> Running(before, rows, pages + [page], after, dryRun, maxLedger, offset + |page|, flawless)
      ensures offset + |page| <= |ids| && (limit > 0 ==> offset + |page| <= limit)
      ensures done && limit == 0 && batchSize >= 1 ==> offset + |page| == |ids|
    {
      // The offset never passes the limit, so the subtraction cannot underflow.
      var size := if limit > 0 then Min(batchSize, limit - offset) else batchSize;
      page := ids[offset..Min(offset + size, |ids|)];
      if size == 0 || page == [] {
        return [], stats, true;
      }
      PageEligible(before, ids, offset, Min(offset + size, |ids|));
      NextProgress(listings, limit, batchSize, offset, query, pages, |ids|, page);
      var needed;
      after, needed := Step(page, dryRun, maxLedger, fault, stats, before, pages);
      done := (needed == 0 && |page| < size) || (limit > 0 && offset + |page| >= limit);
    }

    /**
     * `run_backfill`. `listings(k)` is the order in which the k-th query happens to see the rows, and
     * `faults(k)` how its transaction fares; `limit` zero means unlimited. With no faults there are errors
     * exactly when the unique index refuses a row, in the order in which the run visits them.
     */
    method RunBackfill(limit: nat, batchSize: nat, dryRun: bool, maxLedger: U32, listings: nat -> seq<Uuid>,
                       faults: nat -> Fault)
      returns (stats: Stats, ghost pages: seq<seq<Uuid>>)
      requires forall k :: IsListing(rows, listings(k))
      modifies this
      ensures Accounts(old(rows), rows, pages, stats, dryRun, maxLedger)
      ensures limit > 0 ==> stats.examined <= limit
      ensures limit == 0 && batchSize >= 1 ==> AllPages(listings, batchSize, pages)
      ensures limit == 0 && batchSize >= 1 ==> PagesOf(listings, batchSize, pages)
      ensures !dryRun && (forall k :: faults(k).Fine?) ==> Explained(old(rows), rows, pages, stats, maxLedger)
      ensures (forall k :: faults(k).Fine?) && NoClash(old(rows), maxLedger) ==> stats.errors == 0
    {
      stats, pages := Stats(0, 0, 0, 0), [];
      ghost var before, n := rows, |listings(0)|;
      ghost var flawless := !dryRun && forall k :: faults(k).Fine?;
      assert CorrectAll(rows, [], maxLedger) == rows;
      var offset: nat, query: nat, done := 0, 0, false;
      while !done
        invariant Progress(listings, limit, batchSize, offset, query, pages, n)
        invariant Running(before, rows, pages, stats, dryRun, maxLedger, offset, flawless)
        invariant limit > 0 ==> offset <= limit
        invariant done && limit == 0 && batchSize >= 1 ==> offset == n
        decreases n - offset, !done
      {
        SameLength(before, listings(0), listings(query));
        var page;
        page, stats, done := Turn(limit, batchSize, dryRun, maxLedger, listings(query), offset, faults(query), stats,
                                  before, pages, listings, query, flawless);
        if page != [] {
          pages := pages + [page];
          offset, query := offset + |page|, query + 1;
        }
      }
      if limit == 0 && batchSize >= 1 {
        EndOfPages(before, listings, batchSize, query, pages, n);
      }
      if flawless && NoClash(before, maxLedger) {
        NoClashNoErrors(before, rows, pages, stats, maxLedger);
      }
    }

    /**
     * An unlimited run over rows whose ties stay within pages visits each row once, oldest first. With no
     * faults it leaves every row that decodes correct, and reports no error, exactly when the unique index
     * refuses no row in that order, as it never does where no two rows clash. A run over correct rows, such
     * as a second one, changes nothing.
     */
    method BackfillAll(batchSize: nat, maxLedger: U32, listings: nat -> seq<Uuid>, faults: nat -> Fault)
      returns (stats: Stats, ghost visited: seq<Uuid>)
      requires batchSize >= 1 && (forall k :: IsListing(rows, listings(k)))
      requires NoTieAcross(rows, listings(0), batchSize)
      modifies this
      ensures OnlyCorrected(old(rows), rows, maxLedger) && IsListing(old(rows), visited)
      ensures (forall k :: faults(k).Fine?) ==> (stats.errors == 0 <==> !Refused(old(rows), visited, maxLedger))
      ensures (forall k :: faults(k).Fine?) ==> (stats.errors == 0 <==> AllCorrect(rows, maxLedger))
      ensures (forall k :: faults(k).Fine?) && NoClash(old(rows), maxLedger) ==> AllCorrect(rows, maxLedger)
      ensures stats.errors == 0 ==> AllCorrect(rows, maxLedger) && stats.updated == stats.needed
      ensures AllCorrect(old(rows), maxLedger) ==>
        stats.needed == 0 && stats.updated == 0 && stats.errors == 0 && rows == old(rows)
    {
      ghost var before := rows;
      ghost var pages;
      stats, pages := RunBackfill(0, batchSize, false, maxLedger, listings, faults);
      visited := Visited(pages);
      VisitedIsListing(before, listings, batchSize, pages);
      if stats.errors == 0 {
        VisitedCorrected(before, visited, maxLedger);
      }
      if stats.errors > 0 && forall k :: faults(k).Fine? {
        WrongStays(before, rows, listings, batchSize, pages, maxLedger);
      }
    }
  }
}
