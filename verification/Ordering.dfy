/** `ORDER BY value, id`: the rows of a query, listed by an integer sort value and then by id. */
module Ordering {

  /** Row ids of a query with the value each is sorted by. */
  type Keys = map<nat, int>

  predicate Before(keys: Keys, a: nat, b: nat) {
    a in keys && b in keys && (keys[a] < keys[b] || (keys[a] == keys[b] && a < b))
  }

  /** `ids` lists every key of `keys`, once, in order. */
  ghost predicate IsListing(keys: Keys, ids: seq<nat>) {
    && (forall id :: id in ids <==> id in keys)
    && (forall i, j :: 0 <= i < j < |ids| ==> Before(keys, ids[i], ids[j]))
  }

  predicate IsLeast(keys: Keys, m: nat) {
    m in keys && forall j :: j in keys && j != m ==> Before(keys, m, j)
  }

  lemma {:induction false} LeastExists(keys: Keys)
    requires keys.Keys != {}
    ensures exists m :: IsLeast(keys, m)
    decreases keys.Keys
  {
    var x :| x in keys;
    var rest := keys - {x};
    if rest.Keys == {} {
      assert keys.Keys == {x};
      assert IsLeast(keys, x);
    } else {
      LeastExists(rest);
      var m :| IsLeast(rest, m);
      var least := if Before(keys, x, m) then x else m;
      forall j | j in keys && j != least ensures Before(keys, least, j) {
        assert j == x || j == m || Before(rest, m, j);
      }
      assert IsLeast(keys, least);
    }
  }

  function Least(keys: Keys): (m: nat)
    requires keys.Keys != {}
    ensures IsLeast(keys, m)
  {
    LeastExists(keys);
    var m :| m in keys && IsLeast(keys, m);
    m
  }

  function Sorted(keys: Keys): (ids: seq<nat>)
    decreases |keys|
  {
    if keys.Keys == {} then []
    else
      var m := Least(keys);
      assert |(keys - {m}).Keys| < |keys.Keys| by { assert (keys - {m}).Keys == keys.Keys - {m}; }
      [m] + Sorted(keys - {m})
  }

  lemma PrependLeast(keys: Keys, m: nat, tail: seq<nat>)
    requires IsLeast(keys, m)
    requires IsListing(keys - {m}, tail)
    ensures IsListing(keys, [m] + tail)
  {
    var ids := [m] + tail;
    forall i, j | 0 <= i < j < |ids| ensures Before(keys, ids[i], ids[j]) {
      assert ids[j] == tail[j - 1] && tail[j - 1] in tail;
      if i > 0 {
        assert ids[i] == tail[i - 1] && tail[i - 1] in tail;
        assert Before(keys - {m}, tail[i - 1], tail[j - 1]);
      }
    }
    forall id ensures id in ids <==> id in keys {
      assert id in ids <==> id == m || id in tail;
    }
  }

  lemma {:induction false} SortedIsListing(keys: Keys)
    ensures IsListing(keys, Sorted(keys))
    ensures |Sorted(keys)| == |keys|
    decreases |keys|
  {
    if keys.Keys != {} {
      var m := Least(keys);
      var rest := keys - {m};
      assert rest.Keys == keys.Keys - {m};
      SortedIsListing(rest);
      var ids := Sorted(keys);
      assert ids == [m] + Sorted(rest);
      PrependLeast(keys, m, Sorted(rest));
    }
  }

  /** A listing starts with the least key, and the rest lists the rest. */
  lemma ListingHead(keys: Keys, ids: seq<nat>)
    requires IsListing(keys, ids) && ids != []
    ensures keys.Keys != {} && ids[0] == Least(keys)
    ensures IsListing(keys - {ids[0]}, ids[1..])
  {
    var m, tail, rest := ids[0], ids[1..], keys - {ids[0]};
    assert m in ids;
    forall j | j in keys && j != m ensures Before(keys, m, j) {
      var k :| 0 <= k < |ids| && ids[k] == j;
      assert Before(keys, ids[0], ids[k]);
    }
    forall i | 0 <= i < |tail| ensures tail[i] in rest {
      assert Before(keys, ids[0], ids[i + 1]);
    }
    forall id | id in rest ensures id in tail {
      var k :| 0 <= k < |ids| && ids[k] == id;
      assert tail[k - 1] == id;
    }
    forall i, j | 0 <= i < j < |tail| ensures Before(rest, tail[i], tail[j]) {
      assert Before(keys, ids[i + 1], ids[j + 1]);
    }
  }

  /** There is only one listing, so any listing is the sorted one. */
  lemma {:induction false} ListingIsSorted(keys: Keys, ids: seq<nat>)
    requires IsListing(keys, ids)
    ensures ids == Sorted(keys)
    decreases |ids|
  {
    if ids == [] {
      assert keys.Keys == {};
    } else {
      ListingHead(keys, ids);
      ListingIsSorted(keys - {ids[0]}, ids[1..]);
      SortedFrom(keys, ids);
    }
  }

  lemma SortedFrom(keys: Keys, ids: seq<nat>)
    requires keys.Keys != {} && ids != [] && ids[0] == Least(keys) && ids[1..] == Sorted(keys - {ids[0]})
    ensures ids == Sorted(keys)
  {
    assert ids == [ids[0]] + ids[1..];
  }

  /** The keys whose value exceeds `after`: `WHERE value > after`. */
  function Above(keys: Keys, after: int): Keys {
    map id | id in keys && keys[id] > after :: keys[id]
  }

  ghost predicate DistinctValues(keys: Keys) {
    forall a, b :: a in keys && b in keys && a != b ==> keys[a] != keys[b]
  }

  /** Keyset paging: what lies above the `n`-th listed value is exactly what is listed after it. */
  lemma PageAfter(keys: Keys, n: nat)
    requires DistinctValues(keys)
    requires 0 < n <= |keys|
    ensures |Sorted(keys)| == |keys| && Sorted(keys)[n - 1] in keys
    ensures Sorted(Above(keys, keys[Sorted(keys)[n - 1]])) == Sorted(keys)[n..]
  {
    SortedIsListing(keys);
    TailIsAbove(keys, Sorted(keys), n);
    ListingIsSorted(Above(keys, keys[Sorted(keys)[n - 1]]), Sorted(keys)[n..]);
  }

  lemma TailIsAbove(keys: Keys, ids: seq<nat>, n: nat)
    requires DistinctValues(keys) && IsListing(keys, ids)
    requires 0 < n <= |ids|
    ensures IsListing(Above(keys, keys[ids[n - 1]]), ids[n..])
  {
    var last := ids[n - 1];
    var above := Above(keys, keys[last]);
    var tail := ids[n..];
    forall id | id in tail ensures id in above {
      var j :| 0 <= j < |tail| && tail[j] == id;
      assert Before(keys, ids[n - 1], ids[n + j]);
    }
    forall i | 0 <= i < n ensures keys[ids[i]] <= keys[last] {
      assert i < n - 1 ==> Before(keys, ids[i], ids[n - 1]);
    }
    forall id | id in above ensures id in tail {
      var j :| 0 <= j < |ids| && ids[j] == id;
      assert tail[j - n] == id;
    }
    forall i, j | 0 <= i < j < |tail| ensures Before(above, tail[i], tail[j]) {
      assert Before(keys, ids[n + i], ids[n + j]);
      assert tail[i] in tail && tail[j] in tail;
    }
  }

  /** A new key sorting last is listed last. */
  lemma InsertLast(keys: Keys, id: nat, value: int)
    requires id !in keys
    requires forall k :: k in keys ==> keys[k] < value
    ensures Sorted(keys[id := value]) == Sorted(keys) + [id]
  {
    SortedIsListing(keys);
    var ids, more := Sorted(keys), keys[id := value];
    var all := ids + [id];
    forall k ensures k in all <==> k in more {
      assert k in all <==> k in ids || k == id;
    }
    forall i, j | 0 <= i < j < |all| ensures Before(more, all[i], all[j]) {
      assert ids[i] in ids;
      assert j < |ids| ==> Before(keys, ids[i], ids[j]);
    }
    ListingIsSorted(more, all);
  }

  /** The first `m` ids of a listing leave out only keys that come after them. */
  lemma PrefixCovers(keys: Keys, ids: seq<nat>, m: nat, id: nat)
    requires IsListing(keys, ids) && 0 < m <= |ids| && id in keys
    ensures id in ids[..m] || Before(keys, ids[m - 1], id)
  {
    assert id in ids;
    var j :| 0 <= j < |ids| && ids[j] == id;
    if j < m {
      assert ids[..m][j] == id;
    } else {
      assert Before(keys, ids[m - 1], ids[j]);
    }
  }

  function AsSet(ids: seq<nat>): set<nat> {
    set id | id in ids
  }

  lemma {:induction false} AsSetCount(ids: seq<nat>)
    requires forall i, j :: 0 <= i < j < |ids| ==> ids[i] != ids[j]
    ensures |AsSet(ids)| == |ids|
  {
    if ids != [] {
      var n := |ids| - 1;
      AsSetCount(ids[..n]);
      assert ids == ids[..n] + [ids[n]];
      assert AsSet(ids) == AsSet(ids[..n]) + {ids[n]};
    }
  }
}
