/**
 * pandas' `drop_duplicates(keep='first')` and `drop_duplicates(keep='last')`
 * on a table, for any choice of the columns that make up the key.
 */
module Dedup {

  /** Row `i` is the first row with its key. */
  predicate IsFirst<T, K(==)>(xs: seq<T>, key: T -> K, i: int)
  {
    0 <= i < |xs| && forall j :: 0 <= j < i ==> key(xs[j]) != key(xs[i])
  }

  /** Row `i` is the last row with its key. */
  predicate IsLast<T, K(==)>(xs: seq<T>, key: T -> K, i: int)
  {
    0 <= i < |xs| && forall j :: i < j < |xs| ==> key(xs[j]) != key(xs[i])
  }

  /** The row `keep='first'` (or `keep='last'` when `last`) retains at `i`. */
  predicate Kept<T, K(==)>(xs: seq<T>, key: T -> K, last: bool, i: int)
  {
    if last then IsLast(xs, key, i) else IsFirst(xs, key, i)
  }

  /** The positions from `start` on that are retained, in increasing order. */
  function Positions<T, K(==)>(xs: seq<T>, key: T -> K, last: bool, start: nat): seq<nat>
    requires start <= |xs|
    decreases |xs| - start
  {
    if start == |xs| then []
    else (if Kept(xs, key, last, start) then [start] else []) + Positions(xs, key, last, start + 1)
  }

  /** Every position `Positions` lists from `start` on is retained and at least `start`. */
  lemma {:induction false} PositionsKept<T, K>(xs: seq<T>, key: T -> K, last: bool, start: nat)
    requires start <= |xs|
    ensures forall j :: 0 <= j < |Positions(xs, key, last, start)| ==>
              start <= Positions(xs, key, last, start)[j] < |xs| && Kept(xs, key, last, Positions(xs, key, last, start)[j])
    decreases |xs| - start
  {
    if start < |xs| {
      PositionsKept(xs, key, last, start + 1);
      var rest := Positions(xs, key, last, start + 1);
      var here: seq<nat> := if Kept(xs, key, last, start) then [start] else [];
      var all := Positions(xs, key, last, start);
      assert all == here + rest;
      forall j | 0 <= j < |all|
        ensures start <= all[j] < |xs| && Kept(xs, key, last, all[j])
      {
        if j >= |here| {
          assert all[j] == rest[j - |here|];
        }
      }
    }
  }

  /** `Positions` lists its positions in increasing order. */
  lemma {:induction false} PositionsIncreasing<T, K>(xs: seq<T>, key: T -> K, last: bool, start: nat)
    requires start <= |xs|
    ensures forall j, k :: 0 <= j < k < |Positions(xs, key, last, start)| ==>
              Positions(xs, key, last, start)[j] < Positions(xs, key, last, start)[k]
    decreases |xs| - start
  {
    if start < |xs| {
      PositionsIncreasing(xs, key, last, start + 1);
      PositionsKept(xs, key, last, start + 1);
      var rest := Positions(xs, key, last, start + 1);
      var here: seq<nat> := if Kept(xs, key, last, start) then [start] else [];
      var all := Positions(xs, key, last, start);
      assert all == here + rest;
      forall j, k | 0 <= j < k < |all|
        ensures all[j] < all[k]
      {
        assert all[k] == rest[k - |here|];
        if j >= |here| {
          assert all[j] == rest[j - |here|];
        }
      }
    }
  }

  /** Every retained position from `start` on is listed by `Positions`. */
  lemma {:induction false} PositionsComplete<T, K>(xs: seq<T>, key: T -> K, last: bool, start: nat)
    requires start <= |xs|
    ensures forall i :: start <= i < |xs| && Kept(xs, key, last, i) ==> i in Positions(xs, key, last, start)
    decreases |xs| - start
  {
    if start < |xs| {
      PositionsComplete(xs, key, last, start + 1);
      var rest := Positions(xs, key, last, start + 1);
      var here: seq<nat> := if Kept(xs, key, last, start) then [start] else [];
      assert Positions(xs, key, last, start) == here + rest;
    }
  }

  /** `Positions` lists, in increasing order, exactly the retained positions from `start` on. */
  lemma PositionsSpec<T, K>(xs: seq<T>, key: T -> K, last: bool, start: nat)
    requires start <= |xs|
    ensures forall j :: 0 <= j < |Positions(xs, key, last, start)| ==>
              start <= Positions(xs, key, last, start)[j] < |xs| && Kept(xs, key, last, Positions(xs, key, last, start)[j])
    ensures forall j, k :: 0 <= j < k < |Positions(xs, key, last, start)| ==>
              Positions(xs, key, last, start)[j] < Positions(xs, key, last, start)[k]
    ensures forall i :: start <= i < |xs| && Kept(xs, key, last, i) ==> i in Positions(xs, key, last, start)
  {
    PositionsKept(xs, key, last, start);
    PositionsIncreasing(xs, key, last, start);
    PositionsComplete(xs, key, last, start);
  }

  /** Increasing retained positions hold rows with pairwise distinct keys. */
  lemma KeptKeysDistinct<T, K>(xs: seq<T>, key: T -> K, last: bool, idx: seq<nat>, j: nat, k: nat)
    requires forall m :: 0 <= m < |idx| ==> idx[m] < |xs| && Kept(xs, key, last, idx[m])
    requires j < k < |idx| && idx[j] < idx[k]
    ensures key(xs[idx[j]]) != key(xs[idx[k]])
  {
    assert Kept(xs, key, last, idx[j]) && Kept(xs, key, last, idx[k]);
  }

  /** The rows at the given positions, in the order of the positions. */
  function Pick<T>(xs: seq<T>, idx: seq<nat>): (r: seq<T>)
    requires forall j :: 0 <= j < |idx| ==> idx[j] < |xs|
    ensures |r| == |idx| && forall j {:trigger r[j]} :: 0 <= j < |r| ==> r[j] == xs[idx[j]]
  {
    seq(|idx|, j requires 0 <= j < |idx| => xs[idx[j]])
  }

  /**
   * `drop_duplicates` on the key given by `key`: every retained row is the
   * first (or the last) with its key, every such row is retained, and the
   * retained rows have pairwise distinct keys.
   */
  function DropDuplicates<T, K(==)>(xs: seq<T>, key: T -> K, last: bool): (r: seq<T>)
    ensures forall j :: 0 <= j < |r| ==> exists i :: Kept(xs, key, last, i) && r[j] == xs[i]
    ensures forall i {:trigger Kept(xs, key, last, i)} :: Kept(xs, key, last, i) ==> xs[i] in r
    ensures forall j, k :: 0 <= j < k < |r| ==> key(r[j]) != key(r[k])
  {
    PositionsSpec(xs, key, last, 0);
    var idx := Positions(xs, key, last, 0);
    var r := Pick(xs, idx);
    assert forall j :: 0 <= j < |r| ==> Kept(xs, key, last, idx[j]) && r[j] == xs[idx[j]];
    assert forall j, k :: 0 <= j < k < |r| ==> key(r[j]) != key(r[k]) by {
      forall j, k | 0 <= j < k < |r| ensures key(r[j]) != key(r[k]) {
        KeptKeysDistinct(xs, key, last, idx, j, k);
      }
    }
    assert forall i :: Kept(xs, key, last, i) ==> xs[i] in r by {
      forall i | Kept(xs, key, last, i) ensures xs[i] in r {
        var j :| 0 <= j < |idx| && idx[j] == i;
        assert r[j] == xs[i];
      }
    }
    r
  }

  /** Every row's key has a first occurrence, at or before the row. */
  lemma {:induction false} FirstOccurrence<T, K>(xs: seq<T>, key: T -> K, i: nat) returns (f: nat)
    requires i < |xs|
    ensures f <= i && key(xs[f]) == key(xs[i]) && IsFirst(xs, key, f)
    decreases i
  {
    if IsFirst(xs, key, i) {
      f := i;
    } else {
      var j :| 0 <= j < i && key(xs[j]) == key(xs[i]);
      f := FirstOccurrence(xs, key, j);
    }
  }

  /** Every row's key has a last occurrence, at or after the row. */
  lemma {:induction false} LastOccurrence<T, K>(xs: seq<T>, key: T -> K, i: nat) returns (l: nat)
    requires i < |xs|
    ensures i <= l < |xs| && key(xs[l]) == key(xs[i]) && IsLast(xs, key, l)
    decreases |xs| - i
  {
    if IsLast(xs, key, i) {
      l := i;
    } else {
      var j :| i < j < |xs| && key(xs[j]) == key(xs[i]);
      l := LastOccurrence(xs, key, j);
    }
  }

  /** Each key of the input is the key of exactly one retained row. */
  lemma KeyRetainedOnce<T, K>(xs: seq<T>, key: T -> K, last: bool, i: nat)
    requires i < |xs|
    ensures exists j :: 0 <= j < |DropDuplicates(xs, key, last)| &&
              key(DropDuplicates(xs, key, last)[j]) == key(xs[i])
    ensures forall j, k :: 0 <= j < |DropDuplicates(xs, key, last)| &&
              0 <= k < |DropDuplicates(xs, key, last)| &&
              key(DropDuplicates(xs, key, last)[j]) == key(xs[i]) &&
              key(DropDuplicates(xs, key, last)[k]) == key(xs[i])
              ==> j == k
  {
    var r := DropDuplicates(xs, key, last);
    var w: nat;
    if last {
      w := LastOccurrence(xs, key, i);
    } else {
      w := FirstOccurrence(xs, key, i);
    }
    assert Kept(xs, key, last, w);
    assert xs[w] in r;
  }

  /** Keeping first occurrences, the first row of a nonempty table is the first retained row. */
  lemma HeadRetained<T, K>(xs: seq<T>, key: T -> K)
    requires |xs| > 0
    ensures |DropDuplicates(xs, key, false)| > 0 && DropDuplicates(xs, key, false)[0] == xs[0]
  {
    PositionsSpec(xs, key, false, 0);
    var idx := Positions(xs, key, false, 0);
    assert Kept(xs, key, false, 0);
    assert idx == [0] + Positions(xs, key, false, 1);
    assert DropDuplicates(xs, key, false) == Pick(xs, idx);
  }

  /** Retained rows keep their relative order. */
  lemma OrderPreserved<T, K>(xs: seq<T>, key: T -> K, last: bool, j: nat, k: nat)
    requires j < k < |DropDuplicates(xs, key, last)|
    ensures exists i1, i2 :: 0 <= i1 < i2 < |xs| && Kept(xs, key, last, i1) && Kept(xs, key, last, i2) &&
              DropDuplicates(xs, key, last)[j] == xs[i1] && DropDuplicates(xs, key, last)[k] == xs[i2]
  {
    PositionsSpec(xs, key, last, 0);
    var idx := Positions(xs, key, last, 0);
    assert DropDuplicates(xs, key, last) == Pick(xs, idx);
    assert idx[j] < idx[k];
  }

  /** Keeping first occurrences, an appended row is retained exactly when its key is new. */
  lemma AppendKeepFirst<T, K>(xs: seq<T>, key: T -> K, x: T)
    ensures DropDuplicates(xs + [x], key, false) ==
            DropDuplicates(xs, key, false) + (if exists i :: 0 <= i < |xs| && key(xs[i]) == key(x) then [] else [x])
  {
    var ys := xs + [x];
    var isNew := !exists i :: 0 <= i < |xs| && key(xs[i]) == key(x);
    var tail: seq<nat> := if isNew then [|xs|] else [];
    assert Kept(ys, key, false, |xs|) == isNew by {
      assert forall j :: 0 <= j < |xs| ==> ys[j] == xs[j];
    }
    AppendPositions(xs, key, x, 0);
    PositionsSpec(xs, key, false, 0);
    PositionsSpec(ys, key, false, 0);
    var px := Positions(xs, key, false, 0);
    assert Positions(ys, key, false, 0) == px + tail;
    assert Pick(ys, px + tail) == Pick(xs, px) + (if isNew then [x] else []);
  }

  lemma {:induction false} AppendPositions<T, K>(xs: seq<T>, key: T -> K, x: T, start: nat)
    requires start <= |xs|
    ensures Positions(xs + [x], key, false, start) ==
            Positions(xs, key, false, start) + (if Kept(xs + [x], key, false, |xs|) then [|xs|] else [])
    decreases |xs| - start
  {
    var ys := xs + [x];
    if start == |xs| {
      assert Positions(ys, key, false, |xs| + 1) == [];
    } else {
      AppendPositions(xs, key, x, start + 1);
      assert Kept(ys, key, false, start) == Kept(xs, key, false, start) by {
        assert forall j :: 0 <= j <= start ==> ys[j] == xs[j];
      }
    }
  }
}
