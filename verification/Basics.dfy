/** Value types and sequence facts shared by every other module. */
module Basics {

  datatype Option<+T> = None | Some(value: T)

  datatype Result<+T, +E> = Ok(value: T) | Err(error: E)

  /** Python truthiness of an optional string: `None` and the empty string are both false. */
  predicate Truthy(text: Option<string>) {
    text.Some? && text.value != ""
  }

  predicate NoDup<T(==)>(xs: seq<T>) {
    forall a, b | 0 <= a < b < |xs| :: xs[a] != xs[b]
  }

  /** A duplicate-free sequence has as many elements as the set of its members. */
  lemma {:induction false} NoDupSize<T>(xs: seq<T>, members: set<T>)
    requires NoDup(xs) && forall x :: x in xs <==> x in members
    ensures |members| == |xs|
  {
    if xs == [] {
      assert members == {};
    } else {
      var front, last := xs[..|xs| - 1], xs[|xs| - 1];
      assert xs == front + [last];
      assert last !in front;
      NoDupSize(front, members - {last});
    }
  }

  /** Distinct members of a list are no more than its length. */
  lemma {:induction false} SublistSize<T>(xs: seq<T>, ys: seq<T>)
    requires NoDup(xs) && forall x | x in xs :: x in ys
    ensures |xs| <= |ys|
    decreases |xs|
  {
    if xs != [] {
      var n := |xs| - 1;
      assert xs == xs[..n] + [xs[n]];
      assert xs[n] in ys;
      var k :| 0 <= k < |ys| && ys[k] == xs[n];
      var rest := ys[..k] + ys[k + 1..];
      forall x | x in xs[..n] ensures x in rest {
        assert x in ys && x != xs[n];
        var j :| 0 <= j < |ys| && ys[j] == x;
        assert rest[if j < k then j else j - 1] == x;
      }
      SublistSize(xs[..n], rest);
    }
  }

  function RemoveAt<T>(xs: seq<T>, k: nat): seq<T>
    requires k < |xs|
  {
    xs[..k] + xs[k + 1..]
  }

  lemma RemoveAtExact<T>(xs: seq<T>, k: nat)
    requires NoDup(xs) && k < |xs|
    ensures NoDup(RemoveAt(xs, k))
    ensures forall x :: x in RemoveAt(xs, k) <==> x in xs && x != xs[k]
  {
    var rest := RemoveAt(xs, k);
    forall x | x in xs && x != xs[k] ensures x in rest {
      var j :| 0 <= j < |xs| && xs[j] == x;
      assert rest[if j < k then j else j - 1] == x;
    }
  }

  /** Where `x` occurs among the first `n` elements, in order. */
  function Positions<T(==)>(xs: seq<T>, x: T, n: nat): seq<nat>
    requires n <= |xs|
  {
    if n == 0 then [] else Positions(xs, x, n - 1) + if xs[n - 1] == x then [n - 1] else []
  }

  ghost predicate Increasing(xs: seq<nat>) {
    forall a, b | 0 <= a < b < |xs| :: xs[a] < xs[b]
  }

  lemma {:induction false} PositionsExact<T>(xs: seq<T>, x: T, n: nat)
    requires n <= |xs|
    ensures Increasing(Positions(xs, x, n))
    ensures forall i: nat :: i in Positions(xs, x, n) <==> i < n && xs[i] == x
  {
    if n > 0 {
      PositionsExact(xs, x, n - 1);
      var before := Positions(xs, x, n - 1);
      assert forall a | 0 <= a < |before| :: before[a] in before;
    }
  }

  lemma ConsDistinct<T>(x: T, xs: seq<T>)
    requires NoDup(xs) && x !in xs
    ensures NoDup([x] + xs)
  {
  }

  // Sorting row ids by a key column, ties broken by id: what ORDER BY key, id
  // returns, and what a stable sort of rows listed in id order returns.

  predicate KeyBefore(keys: seq<int>, a: nat, b: nat)
    requires a < |keys| && b < |keys|
  {
    keys[a] < keys[b] || (keys[a] == keys[b] && a < b)
  }

  function InsertId(keys: seq<int>, id: nat, ids: seq<nat>): (out: seq<nat>)
    requires id < |keys| && forall k | 0 <= k < |ids| :: ids[k] < |keys|
    ensures forall k | 0 <= k < |out| :: out[k] < |keys|
  {
    if ids == [] then [id]
    else if KeyBefore(keys, id, ids[0]) then [id] + ids
    else [ids[0]] + InsertId(keys, id, ids[1..])
  }

  function SortIds(keys: seq<int>, ids: seq<nat>): (sorted: seq<nat>)
    requires forall k | 0 <= k < |ids| :: ids[k] < |keys|
    ensures forall k | 0 <= k < |sorted| :: sorted[k] < |keys|
  {
    if ids == [] then []
    else
      InsertId(keys, ids[0], SortIds(keys, ids[1..]))
  }

  ghost predicate SortedIds(keys: seq<int>, ids: seq<nat>) {
    && (forall k | 0 <= k < |ids| :: ids[k] < |keys|)
    && (forall a, b | 0 <= a < b < |ids| :: KeyBefore(keys, ids[a], ids[b]))
  }

  lemma SortedKeys(keys: seq<int>, ids: seq<nat>, a: nat, b: nat)
    requires SortedIds(keys, ids) && a < |ids| && b < |ids|
    ensures a <= b ==> keys[ids[a]] <= keys[ids[b]]
  {
    assert a < b ==> KeyBefore(keys, ids[a], ids[b]);
  }

  lemma {:induction false} InsertIdMembers(keys: seq<int>, id: nat, ids: seq<nat>)
    requires id < |keys| && forall k | 0 <= k < |ids| :: ids[k] < |keys|
    ensures forall x :: x in InsertId(keys, id, ids) <==> x == id || x in ids
  {
    if ids != [] && !KeyBefore(keys, id, ids[0]) {
      InsertIdMembers(keys, id, ids[1..]);
      assert ids == [ids[0]] + ids[1..];
    }
  }

  lemma {:induction false} InsertIdSorted(keys: seq<int>, id: nat, ids: seq<nat>)
    requires id < |keys| && SortedIds(keys, ids) && id !in ids
    ensures SortedIds(keys, InsertId(keys, id, ids))
  {
    InsertIdMembers(keys, id, ids);
    if ids != [] && !KeyBefore(keys, id, ids[0]) {
      InsertIdSorted(keys, id, ids[1..]);
      InsertIdMembers(keys, id, ids[1..]);
      var out := InsertId(keys, id, ids[1..]);
      forall b | 0 <= b < |out| ensures KeyBefore(keys, ids[0], out[b]) {
        assert out[b] in out;
        if out[b] != id {
          var k :| 0 <= k < |ids[1..]| && ids[1..][k] == out[b];
          assert ids[k + 1] == out[b];
        }
      }
    }
  }

  /** Sorting keeps exactly the given ids and puts them in key order. */
  lemma {:induction false} SortIdsCorrect(keys: seq<int>, ids: seq<nat>)
    requires NoDup(ids) && forall k | 0 <= k < |ids| :: ids[k] < |keys|
    ensures SortedIds(keys, SortIds(keys, ids))
    ensures forall x :: x in SortIds(keys, ids) <==> x in ids
    ensures NoDup(SortIds(keys, ids))
  {
    if ids != [] {
      assert forall a | 0 <= a < |ids[1..]| :: ids[1..][a] == ids[a + 1];
      SortIdsCorrect(keys, ids[1..]);
      assert ids[0] !in ids[1..];
      InsertIdSorted(keys, ids[0], SortIds(keys, ids[1..]));
      InsertIdMembers(keys, ids[0], SortIds(keys, ids[1..]));
      assert ids == [ids[0]] + ids[1..];
    }
  }
}
