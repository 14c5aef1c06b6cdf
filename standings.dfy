/**
 * The final standings (lines 174-178): the last combined row of every
 * subject, ranked densely within the subject's cage, highest rating first.
 */
module Standings {
  import opened Tables
  import Dedup

  function SubjectOf(r: ScoreRow): string { r.subject }

  /** Line 174: the last row of each subject in the combined table, in table order. */
  function FinalRows(rows: seq<ScoreRow>): (f: seq<ScoreRow>)
    ensures forall j :: 0 <= j < |f| ==> f[j] in rows
    ensures forall j, k :: 0 <= j < k < |f| ==> f[j].subject != f[k].subject
  {
    Dedup.DropDuplicates(rows, SubjectOf, true)
  }

  /** One line of the standings table (line 178). */
  datatype Standing = Standing(subject: string, cage: string, rating: int, rank: nat)

  /** The distinct ratings among the rows `f` of `cage`. */
  function CageRatings(f: seq<ScoreRow>, cage: string): set<int>
  {
    set j | 0 <= j < |f| && f[j].subjectCage == cage :: f[j].rating
  }

  /** The distinct ratings among the rows `f` of `cage` that are above `v`. */
  function Above(f: seq<ScoreRow>, cage: string, v: int): set<int>
  {
    set j | 0 <= j < |f| && f[j].subjectCage == cage && f[j].rating > v :: f[j].rating
  }

  /** Dense descending rank of row `i` in its cage: one more than the number of distinct higher ratings. */
  function DenseRank(f: seq<ScoreRow>, i: nat): (r: nat)
    requires i < |f|
    ensures r >= 1
  {
    1 + |Above(f, f[i].subjectCage, f[i].rating)|
  }

  /** The dense ranks of the first `n` final rows. */
  function Ranks(f: seq<ScoreRow>, n: nat): (r: seq<nat>)
    requires n <= |f|
    ensures |r| == n
    ensures forall i :: 0 <= i < n ==> r[i] >= 1
  {
    if n == 0 then [] else Ranks(f, n - 1) + [DenseRank(f, n - 1)]
  }

  lemma {:induction false} RanksAt(f: seq<ScoreRow>, n: nat, i: nat)
    requires i < n <= |f|
    ensures Ranks(f, n)[i] == DenseRank(f, i)
  {
    if i < n - 1 {
      RanksAt(f, n - 1, i);
    }
  }

  /** Lines 174-178: subject, cage, rating and rank of each final row. */
  function Table(rows: seq<ScoreRow>): (st: seq<Standing>)
    ensures |st| == |FinalRows(rows)|
    ensures forall j :: 0 <= j < |st| ==> st[j].subject == FinalRows(rows)[j].subject && st[j].rank >= 1
  {
    var f := FinalRows(rows);
    var ranks := Ranks(f, |f|);
    seq(|f|, i requires 0 <= i < |f| => Standing(f[i].subject, f[i].subjectCage, f[i].rating, ranks[i]))
  }

  /** Line `j` of the standings is final row `j` with its dense rank. */
  lemma TableLine(rows: seq<ScoreRow>, j: nat)
    requires j < |Table(rows)|
    ensures j < |FinalRows(rows)|
    ensures Table(rows)[j] == Standing(FinalRows(rows)[j].subject, FinalRows(rows)[j].subjectCage,
                                       FinalRows(rows)[j].rating, DenseRank(FinalRows(rows), j))
  {
    RanksAt(FinalRows(rows), |FinalRows(rows)|, j);
  }

  /** Every subject of the combined table has exactly one line in the standings. */
  lemma OneLinePerSubject(rows: seq<ScoreRow>)
    ensures forall i :: 0 <= i < |rows| ==> exists j :: 0 <= j < |Table(rows)| && Table(rows)[j].subject == rows[i].subject
    ensures forall j, k :: 0 <= j < k < |Table(rows)| ==> Table(rows)[j].subject != Table(rows)[k].subject
  {
    var st := Table(rows);
    forall i | 0 <= i < |rows|
      ensures exists j :: 0 <= j < |st| && st[j].subject == rows[i].subject
    {
      var j := FinalRowOf(rows, i);
      TableLine(rows, j);
    }
    forall j, k | 0 <= j < k < |st|
      ensures st[j].subject != st[k].subject
    {
      TableLine(rows, j);
      TableLine(rows, k);
    }
  }

  /** The final row that carries the subject of row `i`. */
  lemma FinalRowOf(rows: seq<ScoreRow>, i: nat) returns (j: nat)
    requires i < |rows|
    ensures j < |FinalRows(rows)| && FinalRows(rows)[j].subject == rows[i].subject
  {
    Dedup.KeyRetainedOnce(rows, SubjectOf, true, i);
    j :| 0 <= j < |FinalRows(rows)| && SubjectOf(FinalRows(rows)[j]) == SubjectOf(rows[i]);
  }

  /** A subject's line carries the cage and rating of the subject's last row in the combined table. */
  lemma LineIsLastRow(rows: seq<ScoreRow>, j: nat)
    requires j < |Table(rows)|
    ensures exists i :: Dedup.IsLast(rows, SubjectOf, i) && Table(rows)[j].subject == rows[i].subject &&
              Table(rows)[j].cage == rows[i].subjectCage && Table(rows)[j].rating == rows[i].rating
  {
    var f := FinalRows(rows);
    TableLine(rows, j);
    assert exists i :: Dedup.Kept(rows, SubjectOf, true, i) && f[j] == rows[i];
  }

  /** A nonempty set of ratings above `v` comes from some row of the cage. */
  lemma AboveWitness(f: seq<ScoreRow>, c: string, v: int) returns (w: nat)
    requires |Above(f, c, v)| > 0
    ensures w < |f| && f[w].subjectCage == c && f[w].rating > v
  {
    w :| w < |f| && f[w].subjectCage == c && f[w].rating > v;
  }

  /** Given one row of the cage above `v`, a row of the cage with the least rating above `v`. */
  lemma LeastAbove(f: seq<ScoreRow>, c: string, v: int, w: nat) returns (j: nat)
    requires w < |f| && f[w].subjectCage == c && f[w].rating > v
    ensures j < |f| && f[j].subjectCage == c && f[j].rating > v
    ensures forall k :: 0 <= k < |f| && f[k].subjectCage == c && f[k].rating > v ==> f[j].rating <= f[k].rating
  {
    j := w;
    var n := 0;
    while n < |f|
      invariant n <= |f|
      invariant j < |f| && f[j].subjectCage == c && f[j].rating > v
      invariant forall k :: 0 <= k < n && f[k].subjectCage == c && f[k].rating > v ==> f[j].rating <= f[k].rating
    {
      if f[n].subjectCage == c && f[n].rating > v && f[n].rating < f[j].rating {
        j := n;
      }
      n := n + 1;
    }
  }

  /** Within a cage, ranks order the lines exactly as ratings do, highest rating first: equal ratings share a rank. */
  lemma RankFollowsRating(rows: seq<ScoreRow>, i: nat, j: nat)
    requires i < |Table(rows)| && j < |Table(rows)|
    requires Table(rows)[i].cage == Table(rows)[j].cage
    ensures Table(rows)[i].rank < Table(rows)[j].rank <==> Table(rows)[i].rating > Table(rows)[j].rating
    ensures Table(rows)[i].rank == Table(rows)[j].rank <==> Table(rows)[i].rating == Table(rows)[j].rating
  {
    var f := FinalRows(rows);
    TableLine(rows, i);
    TableLine(rows, j);
    var c := f[i].subjectCage;
    if f[i].rating > f[j].rating {
      StrictlyMoreAbove(f, c, f[i].rating, f[j].rating, i);
    } else if f[j].rating > f[i].rating {
      StrictlyMoreAbove(f, c, f[j].rating, f[i].rating, j);
    }
  }

  /** More distinct ratings lie above a lower rating than above a higher one present in the cage. */
  lemma StrictlyMoreAbove(f: seq<ScoreRow>, c: string, hi: int, lo: int, w: nat)
    requires lo < hi && w < |f| && f[w].subjectCage == c && f[w].rating == hi
    ensures |Above(f, c, hi)| < |Above(f, c, lo)|
  {
    var a := Above(f, c, hi);
    var b := Above(f, c, lo);
    assert a <= b;
    assert hi in b && hi !in a;
    assert a < b;
    assert |b| == |a| + |b - a|;
    assert hi in b - a;
  }

  /** Ranks start at 1, and a cage has no more ranks than distinct ratings. */
  lemma RankBounds(rows: seq<ScoreRow>, i: nat)
    requires i < |Table(rows)|
    ensures 1 <= Table(rows)[i].rank <= |CageRatings(FinalRows(rows), Table(rows)[i].cage)|
  {
    TableLine(rows, i);
    DenseRankBounds(FinalRows(rows), i);
  }

  /** Rank 1 goes exactly to the lines that hold the top rating of their cage. */
  lemma RankOneIsTop(rows: seq<ScoreRow>, i: nat)
    requires i < |Table(rows)|
    ensures Table(rows)[i].rank == 1 <==>
              forall j :: 0 <= j < |Table(rows)| && Table(rows)[j].cage == Table(rows)[i].cage ==>
                Table(rows)[j].rating <= Table(rows)[i].rating
  {
    var f := FinalRows(rows);
    var st := Table(rows);
    TableLine(rows, i);
    DenseRankBounds(f, i);
    forall j | 0 <= j < |st|
      ensures st[j].cage == f[j].subjectCage && st[j].rating == f[j].rating
    {
      TableLine(rows, j);
    }
  }

  lemma DenseRankBounds(f: seq<ScoreRow>, i: nat)
    requires i < |f|
    ensures 1 <= DenseRank(f, i) <= |CageRatings(f, f[i].subjectCage)|
    ensures DenseRank(f, i) == 1 <==>
              forall j :: 0 <= j < |f| && f[j].subjectCage == f[i].subjectCage ==> f[j].rating <= f[i].rating
  {
    var c := f[i].subjectCage;
    var a := Above(f, c, f[i].rating);
    var all := CageRatings(f, c);
    assert a <= all - {f[i].rating};
    assert all - {f[i].rating} == (all - {f[i].rating}) - a + a;
    assert f[i].rating in all;
    assert |all - {f[i].rating}| == |all| - 1;
    assert forall j :: 0 <= j < |f| && f[j].subjectCage == c && f[j].rating > f[i].rating ==> f[j].rating in a;
    assert (forall j :: 0 <= j < |f| && f[j].subjectCage == c ==> f[j].rating <= f[i].rating) ==> a == {};
  }

  /** Dense ranking leaves no gaps: every rank above 1 has a line of the same cage one rank better. */
  lemma RankHasNoGaps(rows: seq<ScoreRow>, i: nat)
    requires i < |Table(rows)| && Table(rows)[i].rank > 1
    ensures exists j :: 0 <= j < |Table(rows)| && Table(rows)[j].cage == Table(rows)[i].cage &&
              Table(rows)[j].rank == Table(rows)[i].rank - 1
  {
    var f := FinalRows(rows);
    var st := Table(rows);
    TableLine(rows, i);
    var j := DenseRankPredecessor(f, i);
    TableLine(rows, j);
  }

  lemma DenseRankPredecessor(f: seq<ScoreRow>, i: nat) returns (j: nat)
    requires i < |f| && DenseRank(f, i) > 1
    ensures j < |f| && f[j].subjectCage == f[i].subjectCage && DenseRank(f, j) == DenseRank(f, i) - 1
  {
    var c := f[i].subjectCage;
    var a := Above(f, c, f[i].rating);
    var w := AboveWitness(f, c, f[i].rating);
    j := LeastAbove(f, c, f[i].rating, w);
    var m := f[j].rating;
    assert Above(f, c, m) == a - {m};
  }
}
