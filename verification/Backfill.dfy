/** The operation-index backfill: what offset paging visits, and what a run leaves behind. */
module Backfill {
  import opened Wrappers
  import opened Bytes
  import opened Ordering

  /** A deposit row, as far as the backfill looks at it. */
  datatype Row = Row(opId: Option<string>, opIndex: int, txHash: Option<string>, createdAt: int)
  type Rows = map<Uuid, Row>

  // --- what paging by OFFSET visits ----------------------------------------------------------------------

  /** The rows the query selects. */
  function Eligible(rows: Rows): set<Uuid> {
    set id | id in rows && rows[id].opId.Some?
  }

  /** One possible answer to the query's ORDER BY: rows with equal times may come in any order. */
  ghost predicate IsListing(rows: Rows, ids: seq<Uuid>) {
    && (forall id :: id in ids <==> id in Eligible(rows))
    && (forall i, j :: 0 <= i < j < |ids| ==> ids[i] != ids[j] && Time(rows, ids[i]) <= Time(rows, ids[j]))
  }

  function Time(rows: Rows, id: Uuid): int {
    if id in rows then rows[id].createdAt else 0
  }

  /** A listing has the rows with an operation id, oldest first. */
  lemma ListedOldestFirst(rows: Rows, ids: seq<Uuid>, i: nat, j: nat)
    requires IsListing(rows, ids) && i < j < |ids|
    ensures ids[i] in rows && rows[ids[i]].opId.Some? && ids[j] in rows && rows[ids[j]].opId.Some?
    ensures rows[ids[i]].createdAt <= rows[ids[j]].createdAt
  {
    assert ids[i] in ids && ids[j] in ids;
  }

  /** Page `k` of size `batch` of a listing. */
  function Page(ids: seq<Uuid>, batch: nat, k: nat): seq<Uuid> {
    var from := Min(k * batch, |ids|);
    ids[from..Min(from + batch, |ids|)]
  }

  /** A row is on some page, when the k-th query happens to answer with `listings(k)`. */
  ghost predicate Visits(listings: nat -> seq<Uuid>, batch: nat, id: Uuid) {
    exists k: nat :: id in Page(listings(k), batch, k)
  }

  /** No two rows with equal times lie on either side of a page boundary. */
  ghost predicate NoTieAcross(rows: Rows, ids: seq<Uuid>, batch: nat) {
    forall b :: IsBoundary(ids, batch, b) ==> Time(rows, ids[b - 1]) < Time(rows, ids[b])
  }

  ghost predicate IsBoundary(ids: seq<Uuid>, batch: nat, b: int) {
    0 < b < |ids| && exists k: nat :: k * batch == b
  }

  /** A row beyond a boundary that splits no tie lies beyond it in every listing. */
  lemma StaysBeyond(rows: Rows, a: seq<Uuid>, c: seq<Uuid>, b: nat, p: nat, i: nat)
    requires IsListing(rows, a) && IsListing(rows, c) && 0 < b <= p < |a| && i < |c| && c[i] == a[p]
    requires Time(rows, a[b - 1]) < Time(rows, a[b])
    ensures b <= i
  {
    // Everything before the boundary in `a` is strictly earlier, so comes before position `i` in `c`.
    forall x | x in AsSet(a[..b]) ensures x in AsSet(c[..i]) {
      var q :| 0 <= q < b && a[..b][q] == x;
      assert Time(rows, a[q]) <= Time(rows, a[b - 1]) < Time(rows, a[b]) <= Time(rows, a[p]);
      assert a[q] in a && a[q] in c;
      var m :| 0 <= m < |c| && c[m] == x;
      assert Time(rows, c[m]) < Time(rows, c[i]);
      assert c[..i][m] == x;
    }
    AsSetCount(a[..b]);
    AsSetCount(c[..i]);
    SubsetSize(AsSet(a[..b]), AsSet(c[..i]));
  }

  lemma SameLength(rows: Rows, a: seq<Uuid>, c: seq<Uuid>)
    requires IsListing(rows, a) && IsListing(rows, c)
    ensures |a| == |c|
  {
    AsSetCount(a);
    AsSetCount(c);
    assert AsSet(a) == AsSet(c) by {
      forall x ensures x in AsSet(a) <==> x in AsSet(c) {
        assert x in AsSet(a) <==> x in a;
        assert x in AsSet(c) <==> x in c;
      }
    }
  }

  /** Where a row lies between two boundaries is the same in every listing. */
  lemma SamePage(rows: Rows, a: seq<Uuid>, c: seq<Uuid>, batch: nat, k: nat, p: nat, i: nat)
    requires batch >= 1 && IsListing(rows, a) && IsListing(rows, c) && NoTieAcross(rows, a, batch)
    requires p < |a| && i < |c| && c[i] == a[p] && k * batch <= p < (k + 1) * batch
    ensures k * batch <= i < (k + 1) * batch
  {
    SameLength(rows, a, c);
    if k > 0 {
      assert k * batch > 0;
      assert IsBoundary(a, batch, k * batch);
      StaysBeyond(rows, a, c, k * batch, p, i);
    }
    var b := (k + 1) * batch;
    if b < |a| {
      assert IsBoundary(a, batch, b);
      StaysBefore(rows, a, c, b, p, i);
    }
  }

  lemma StaysBefore(rows: Rows, a: seq<Uuid>, c: seq<Uuid>, b: nat, p: nat, i: nat)
    requires IsListing(rows, a) && IsListing(rows, c) && p < b < |a| && i < |c| && c[i] == a[p]
    requires Time(rows, a[b - 1]) < Time(rows, a[b])
    ensures i < b
  {
    SameLength(rows, a, c);
    // Everything from position `i` on in `c`, if that were beyond `b`, would still hold all later rows of `a`.
    forall x | x in AsSet(a[b..]) ensures x in AsSet(c[i + 1..]) {
      var q :| 0 <= q < |a[b..]| && a[b..][q] == x;
      assert Time(rows, a[p]) <= Time(rows, a[b - 1]) < Time(rows, a[b]) <= Time(rows, a[b + q]);
      assert a[b + q] in a && a[b + q] in c;
      var m :| 0 <= m < |c| && c[m] == x;
      assert Time(rows, c[i]) < Time(rows, c[m]);
      assert c[i + 1..][m - (i + 1)] == x;
    }
    AsSetCount(a[b..]);
    AsSetCount(c[i + 1..]);
    SubsetSize(AsSet(a[b..]), AsSet(c[i + 1..]));
  }

  /** If no tie lies across a boundary, every row is visited however each query orders its ties. */
  lemma EveryRowVisited(rows: Rows, ids: seq<Uuid>, batch: nat, listings: nat -> seq<Uuid>, id: Uuid)
    requires batch >= 1 && IsListing(rows, ids) && NoTieAcross(rows, ids, batch) && id in Eligible(rows)
    requires forall k :: IsListing(rows, listings(k))
    ensures Visits(listings, batch, id)
  {
    assert id in ids;
    var p :| 0 <= p < |ids| && ids[p] == id;
    var k := p / batch;
    PageOf(p, batch);
    var c := listings(k);
    assert id in c;
    var i :| 0 <= i < |c| && c[i] == id;
    SamePage(rows, ids, c, batch, k, p, i);
    OnPage(c, batch, k, i);
  }

  lemma PageOf(p: nat, batch: nat)
    requires batch >= 1
    ensures p / batch * batch <= p < (p / batch + 1) * batch
  {
  }

  lemma OnPage(ids: seq<Uuid>, batch: nat, k: nat, i: nat)
    requires i < |ids| && k * batch <= i < (k + 1) * batch
    ensures ids[i] in Page(ids, batch, k)
  {
    var from := k * batch;
    assert (k + 1) * batch == from + batch;
    assert Page(ids, batch, k)[i - from] == ids[i];
  }

  /** Two rows of equal time swapped. */
  ghost function Swapped(ids: seq<Uuid>, b: nat): seq<Uuid>
    requires 0 < b < |ids|
  {
    ids[b - 1 := ids[b]][b := ids[b - 1]]
  }

  lemma SwappedIsListing(rows: Rows, ids: seq<Uuid>, b: nat)
    requires IsListing(rows, ids) && 0 < b < |ids| && Time(rows, ids[b - 1]) == Time(rows, ids[b])
    ensures IsListing(rows, Swapped(ids, b))
  {
    var c := Swapped(ids, b);
    forall id ensures id in c <==> id in ids {
      if id in ids {
        var i :| 0 <= i < |ids| && ids[i] == id;
        assert c[if i == b then b - 1 else if i == b - 1 then b else i] == id;
      }
      if id in c {
        var i :| 0 <= i < |c| && c[i] == id;
        assert ids[if i == b then b - 1 else if i == b - 1 then b else i] == id;
      }
    }
  }

  /** Queries that answer with `ids`, but for page `k - 1`, which sees the tie at its end the other way round. */
  ghost function Unlucky(ids: seq<Uuid>, b: nat, k: nat): nat -> seq<Uuid>
    requires 0 < b < |ids|
  {
    n => if n + 1 == k then Swapped(ids, b) else ids
  }

  /** If a tie does lie across a boundary, some run of queries skips a row. */
  lemma TieSkipsRow(rows: Rows, ids: seq<Uuid>, batch: nat, b: nat, k: nat)
    requires batch >= 1 && IsListing(rows, ids) && k * batch == b && 0 < b < |ids|
    requires Time(rows, ids[b - 1]) == Time(rows, ids[b])
    ensures forall n :: IsListing(rows, Unlucky(ids, b, k)(n))
    ensures !Visits(Unlucky(ids, b, k), batch, ids[b - 1])
  {
    SwappedIsListing(rows, ids, b);
    forall n: nat ensures ids[b - 1] !in Page(Unlucky(ids, b, k)(n), batch, n) {
      Boundaries(batch, k, n);
      SkippedOnPage(rows, ids, batch, b, n * batch, Unlucky(ids, b, k)(n));
    }
  }

  /** Where page `n` starts, against the start of page `k`. */
  lemma Boundaries(batch: nat, k: nat, n: nat)
    ensures n + 1 == k ==> n * batch + batch == k * batch
    ensures n + 1 < k ==> n * batch + batch < k * batch || batch == 0
    ensures n >= k ==> n * batch >= k * batch
  {
    if n + 1 < k {
      var d := k - n - 1;
      assert k * batch == n * batch + batch + d * batch;
      assert d * batch >= batch;
    } else if n >= k {
      assert n * batch == k * batch + (n - k) * batch;
    }
  }

  lemma SkippedOnPage(rows: Rows, ids: seq<Uuid>, batch: nat, b: nat, start: nat, used: seq<Uuid>)
    requires batch >= 1 && IsListing(rows, ids) && 0 < b < |ids|
    requires start + batch == b ==> used == Swapped(ids, b)
    requires start + batch != b ==> used == ids && (start + batch < b || start >= b)
    ensures ids[b - 1] !in used[Min(start, |used|)..Min(Min(start, |used|) + batch, |used|)]
  {
    var from := Min(start, |used|);
    var to := Min(from + batch, |used|);
    var page := used[from..to];
    forall j | 0 <= j < |page| ensures page[j] != ids[b - 1] {
      assert page[j] == used[from + j];
      assert from + j == b - 1 ==> used[from + j] == ids[b];
      assert from + j < b || start + batch != b;
    }
  }

  /** Offset paging over an ORDER BY without a tie-break visits every row exactly when no tie crosses a page. */
  lemma PagingIsCompleteIff(rows: Rows, ids: seq<Uuid>, batch: nat)
    requires batch >= 1 && IsListing(rows, ids)
    ensures NoTieAcross(rows, ids, batch) <==>
      forall listings: nat -> seq<Uuid>, id :: (forall k :: IsListing(rows, listings(k))) && id in Eligible(rows) ==>
        Visits(listings, batch, id)
  {
    if NoTieAcross(rows, ids, batch) {
      forall listings: nat -> seq<Uuid>, id | (forall k :: IsListing(rows, listings(k))) && id in Eligible(rows)
        ensures Visits(listings, batch, id)
      {
        EveryRowVisited(rows, ids, batch, listings, id);
      }
    } else {
      var b :| IsBoundary(ids, batch, b) && !(Time(rows, ids[b - 1]) < Time(rows, ids[b]));
      var k: nat :| k * batch == b;
      assert Time(rows, ids[b - 1]) <= Time(rows, ids[b]);
      TieSkipsRow(rows, ids, batch, b, k);
      assert ids[b - 1] in ids;
      assert ids[b - 1] in Eligible(rows) && !Visits(Unlucky(ids, b, k), batch, ids[b - 1]);
    }
  }
}
