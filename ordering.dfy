/**
 * Python's ordering of strings (code point by code point, a proper prefix
 * first) and of pairs of strings, which pandas' groupby uses to sort its
 * group keys, together with sorted, duplicate-free key lists.
 */
module Ordering {

  /** Python's `a < b` on `str`. */
  function StrLess(a: string, b: string): bool
  {
    if |b| == 0 then false
    else if |a| == 0 then true
    else if a[0] != b[0] then a[0] < b[0]
    else StrLess(a[1..], b[1..])
  }

  lemma {:induction false} StrLessIrreflexive(a: string)
    ensures !StrLess(a, a)
  {
    if |a| > 0 {
      StrLessIrreflexive(a[1..]);
    }
  }

  lemma {:induction false} StrLessTransitive(a: string, b: string, c: string)
    requires StrLess(a, b) && StrLess(b, c)
    ensures StrLess(a, c)
  {
    if |a| > 0 && a[0] == b[0] && b[0] == c[0] {
      StrLessTransitive(a[1..], b[1..], c[1..]);
    }
  }

  lemma {:induction false} StrLessTotal(a: string, b: string)
    requires a != b
    ensures StrLess(a, b) || StrLess(b, a)
  {
    if |a| > 0 && |b| > 0 && a[0] == b[0] {
      assert a == [a[0]] + a[1..] && b == [b[0]] + b[1..];
      StrLessTotal(a[1..], b[1..]);
    }
  }

  /** A pair of strings: a (subject, agent) or a (loser, winner) group key. */
  type Pair = (string, string)

  /** Python's `<` on a tuple of two strings: by the first, then the second. */
  function PairLess(p: Pair, q: Pair): bool
  {
    StrLess(p.0, q.0) || (p.0 == q.0 && StrLess(p.1, q.1))
  }

  lemma PairLessIrreflexive(p: Pair)
    ensures !PairLess(p, p)
  {
    StrLessIrreflexive(p.0);
    StrLessIrreflexive(p.1);
  }

  lemma PairLessTransitive(p: Pair, q: Pair, r: Pair)
    requires PairLess(p, q) && PairLess(q, r)
    ensures PairLess(p, r)
  {
    if StrLess(p.0, q.0) && StrLess(q.0, r.0) {
      StrLessTransitive(p.0, q.0, r.0);
    } else if p.0 == q.0 && q.0 == r.0 {
      StrLessTransitive(p.1, q.1, r.1);
    }
  }

  lemma PairLessTotal(p: Pair, q: Pair)
    requires p != q
    ensures PairLess(p, q) || PairLess(q, p)
  {
    if p.0 != q.0 {
      StrLessTotal(p.0, q.0);
    } else {
      StrLessTotal(p.1, q.1);
    }
  }

  /** Strictly increasing, hence free of duplicates. */
  ghost predicate StrictlySorted(xs: seq<Pair>)
  {
    forall i, j :: 0 <= i < j < |xs| ==> PairLess(xs[i], xs[j])
  }

  /** Inserts `k` into a strictly sorted list, unless it is already there. */
  function Insert(xs: seq<Pair>, k: Pair): (r: seq<Pair>)
    requires StrictlySorted(xs)
    ensures StrictlySorted(r)
    ensures forall x :: x in r <==> x in xs || x == k
  {
    if |xs| == 0 then [k]
    else if k == xs[0] then xs
    else if PairLess(k, xs[0]) then
      assert forall j :: 0 < j < |xs| ==> PairLess(k, xs[j]) by {
        forall j | 0 < j < |xs| ensures PairLess(k, xs[j]) {
          PairLessTransitive(k, xs[0], xs[j]);
        }
      }
      [k] + xs
    else
      PairLessTotal(k, xs[0]);
      var rest := Insert(xs[1..], k);
      assert forall x :: x in rest ==> PairLess(xs[0], x);
      [xs[0]] + rest
  }

  /** The distinct keys of `xs` in ascending order, as a groupby lists its groups. */
  function SortedKeys(xs: seq<Pair>): (r: seq<Pair>)
    ensures StrictlySorted(r)
    ensures forall x :: x in r <==> x in xs
  {
    if |xs| == 0 then []
    else
      var init := SortedKeys(xs[..|xs| - 1]);
      assert forall x :: x in xs <==> x in xs[..|xs| - 1] || x == xs[|xs| - 1] by {
        assert xs == xs[..|xs| - 1] + [xs[|xs| - 1]];
      }
      Insert(init, xs[|xs| - 1])
  }

  /** The head of a strictly sorted list is below all its other elements. */
  lemma HeadIsLeast(xs: seq<Pair>, x: Pair)
    requires StrictlySorted(xs) && x in xs
    ensures x == xs[0] || PairLess(xs[0], x)
  {
  }

  /** A strictly sorted list is determined by its elements. */
  lemma {:induction false} SortedUnique(a: seq<Pair>, b: seq<Pair>)
    requires StrictlySorted(a) && StrictlySorted(b)
    requires forall x :: x in a <==> x in b
    ensures a == b
  {
    assert |a| > 0 ==> a[0] in b;
    assert |b| > 0 ==> b[0] in a;
    if |a| > 0 && |b| > 0 {
      assert a[0] == b[0] by {
        HeadIsLeast(a, b[0]);
        HeadIsLeast(b, a[0]);
        if a[0] != b[0] {
          PairLessTransitive(a[0], b[0], a[0]);
          PairLessIrreflexive(a[0]);
        }
      }
      forall x ensures x in a[1..] <==> x in b[1..] {
        if x in a[1..] || x in b[1..] {
          HeadIsLeast(a, x);
          HeadIsLeast(b, x);
          if x == a[0] { PairLessIrreflexive(x); }
        }
      }
      SortedUnique(a[1..], b[1..]);
      assert a == [a[0]] + a[1..] && b == [b[0]] + b[1..];
    }
  }
}
