/**
 * The pairwise summary (lines 194-217): per (subject, agent) pair, the
 * smallest and largest (loser, winner) outcome group, the loser and winner
 * taken from `unique()` of the groups, the number of the pair's rows, the
 * loser-count reset, the draw flag, and the removal of rows that repeat
 * another row's counts.
 */
module Pairwise {
  import opened Tables
  import opened Ordering
  import Dedup

  /** The (subject, agent) pair of a row. */
  function PairOf(r: ScoreRow): Pair { (r.subject, r.agent) }

  /** The (loser, winner) outcome of a row. */
  function OutcomeOf(r: ScoreRow): Pair { (r.loser, r.winner) }

  /** The outcomes of the rows of pair `p`, in table order. */
  function Outcomes(rows: seq<ScoreRow>, p: Pair): (os: seq<Pair>)
    ensures |os| <= |rows|
    ensures forall o :: o in os <==> exists i :: 0 <= i < |rows| && PairOf(rows[i]) == p && OutcomeOf(rows[i]) == o
  {
    if |rows| == 0 then []
    else
      var rest := Outcomes(rows[1..], p);
      assert forall i :: 0 <= i < |rows| - 1 ==> rows[1..][i] == rows[i + 1];
      (if PairOf(rows[0]) == p then [OutcomeOf(rows[0])] else []) + rest
  }

  /** Line 194: the number of rows of pair `p` with outcome `o`. */
  function GroupSize(rows: seq<ScoreRow>, p: Pair, o: Pair): nat
  {
    multiset(Outcomes(rows, p))[o]
  }

  /** Line 194: the outcome groups of pair `p`, in the order groupby sorts them. */
  function Groups(rows: seq<ScoreRow>, p: Pair): seq<Pair>
  {
    SortedKeys(Outcomes(rows, p))
  }

  /** Lines 196 and 205: the (subject, agent) pairs, in the order groupby sorts them. */
  function PairKeys(rows: seq<ScoreRow>): seq<Pair>
  {
    SortedKeys(seq(|rows|, i requires 0 <= i < |rows| => PairOf(rows[i])))
  }

  /** The sum of the counts `m` gives the elements of `g`. */
  function SumCounts(g: seq<Pair>, m: multiset<Pair>): nat
  {
    if |g| == 0 then 0 else m[g[0]] + SumCounts(g[1..], m)
  }

  /** The smallest count `m` gives an element of `g` (line 196, 'min'). */
  function MinCount(g: seq<Pair>, m: multiset<Pair>): (r: nat)
    requires |g| > 0
    ensures exists k :: 0 <= k < |g| && r == m[g[k]]
    ensures forall k :: 0 <= k < |g| ==> r <= m[g[k]]
  {
    if |g| == 1 then m[g[0]]
    else
      var rest := MinCount(g[1..], m);
      assert forall k :: 1 <= k < |g| ==> g[1..][k - 1] == g[k];
      if m[g[0]] <= rest then m[g[0]] else rest
  }

  /** The largest count `m` gives an element of `g` (line 201, 'max'). */
  function MaxCount(g: seq<Pair>, m: multiset<Pair>): (r: nat)
    requires |g| > 0
    ensures exists k :: 0 <= k < |g| && r == m[g[k]]
    ensures forall k :: 0 <= k < |g| ==> m[g[k]] <= r
  {
    if |g| == 1 then m[g[0]]
    else
      var rest := MaxCount(g[1..], m);
      assert forall k :: 1 <= k < |g| ==> g[1..][k - 1] == g[k];
      if m[g[0]] >= rest then m[g[0]] else rest
  }

  /** A row of the pairwise summary. */
  datatype PairRow = PairRow(
    subject: string,
    agent: string,
    loserCount: int,
    loser: string,
    winnerCount: int,
    winner: string,
    totalCount: int,
    draw: bool)

  /** Every key of `PairKeys` has at least one row. */
  lemma PairKeyHasRows(rows: seq<ScoreRow>, p: Pair)
    requires p in PairKeys(rows)
    ensures |Groups(rows, p)| > 0
  {
    var ps := seq(|rows|, i requires 0 <= i < |rows| => PairOf(rows[i]));
    var i :| 0 <= i < |rows| && ps[i] == p;
    assert OutcomeOf(rows[i]) in Outcomes(rows, p);
    assert OutcomeOf(rows[i]) in Groups(rows, p);
  }

  /** An id as its own key. */
  function Self(s: string): string { s }

  /** Lines 196 and 201: `x.unique()`, the distinct ids in order of first appearance. */
  function Unique(ids: seq<string>): seq<string>
  {
    Dedup.DropDuplicates(ids, Self, false)
  }

  /** The first character of an id; an empty id stays empty. */
  function Initial(s: string): (r: string)
    ensures |r| == (if |s| == 0 then 0 else 1) && r <= s
  {
    if |s| == 0 then s else s[..1]
  }

  /**
   * Lines 196-204: the id `x[0]` takes from `x.unique()`. pandas unwraps a
   * one-element result into the id itself, so `[0]` then takes the id's first
   * character; from two or more distinct ids it takes the first.
   */
  function PickId(ids: seq<string>): string
    requires |ids| > 0
  {
    var u := Unique(ids);
    Dedup.HeadRetained(ids, Self);
    if |u| == 1 then Initial(u[0]) else u[0]
  }

  /** `PickId` gives the initial of the id when all ids agree, and the first id otherwise. */
  lemma PickIdSpec(ids: seq<string>)
    requires |ids| > 0
    ensures (forall k :: 0 <= k < |ids| ==> ids[k] == ids[0]) ==> PickId(ids) == Initial(ids[0])
    ensures (exists k :: 0 <= k < |ids| && ids[k] != ids[0]) ==> PickId(ids) == ids[0]
  {
    var u := Unique(ids);
    Dedup.HeadRetained(ids, Self);
    if k :| 0 <= k < |ids| && ids[k] != ids[0] {
      var f := Dedup.FirstOccurrence(ids, Self, k);
      assert Dedup.Kept(ids, Self, false, f);
      assert ids[f] in u;
      assert |u| != 1;
    } else {
      assert forall j :: 0 <= j < |u| ==> u[j] == ids[0];
      assert |u| < 2 || Self(u[0]) != Self(u[1]);
    }
  }

  /** The loser ids of the groups `g`, in group order. */
  function LoserIds(g: seq<Pair>): seq<string>
  {
    seq(|g|, k requires 0 <= k < |g| => g[k].0)
  }

  /** The winner ids of the groups `g`, in group order. */
  function WinnerIds(g: seq<Pair>): seq<string>
  {
    seq(|g|, k requires 0 <= k < |g| => g[k].1)
  }

  /** Every group of a pair has a row, and no group has more rows than the pair. */
  lemma CountsBounded(rows: seq<ScoreRow>, p: Pair)
    requires |Groups(rows, p)| > 0
    ensures var g := Groups(rows, p);
            var m := multiset(Outcomes(rows, p));
            0 < MinCount(g, m) <= MaxCount(g, m) <= |Outcomes(rows, p)|
  {
    var g := Groups(rows, p);
    var m := multiset(Outcomes(rows, p));
    var low := MinCount(g, m);
    var high := MaxCount(g, m);
    var j :| 0 <= j < |g| && low == m[g[j]];
    var k :| 0 <= k < |g| && high == m[g[k]];
    assert g[j] in Outcomes(rows, p);
    SumCountsAtLeast(g, m, k);
    TotalIsSumOfGroupSizes(rows, p);
  }

  /**
   * Lines 194-210 for pair `p`: the smallest group size as loser count, the
   * largest as winner count, the loser and winner `PickId` takes from the
   * groups, the number of the pair's rows, and no draw yet.
   */
  function Merged(rows: seq<ScoreRow>, p: Pair): (r: PairRow)
    requires p in PairKeys(rows)
    ensures r.subject == p.0 && r.agent == p.1 && !r.draw
    ensures r.totalCount == |Outcomes(rows, p)|
    ensures 0 < r.loserCount <= r.winnerCount <= r.totalCount
  {
    PairKeyHasRows(rows, p);
    CountsBounded(rows, p);
    var g := Groups(rows, p);
    var m := multiset(Outcomes(rows, p));
    PairRow(p.0, p.1, MinCount(g, m), PickId(LoserIds(g)), MaxCount(g, m), PickId(WinnerIds(g)), |Outcomes(rows, p)|, false)
  }

  /** Line 212 on one row: a loser count equal to the total becomes 0. */
  function ResetLoser(r: PairRow): (r': PairRow)
    ensures r'.loserCount != r'.totalCount || r'.totalCount == 0
    ensures r'.loserCount == r.loserCount || r'.loserCount == 0
    ensures r' == r.(loserCount := r'.loserCount)
    ensures r.loserCount == r.totalCount ==> r'.loserCount == 0
    ensures r.loserCount != r.totalCount ==> r' == r
  {
    if r.loserCount == r.totalCount then r.(loserCount := 0) else r
  }

  /** Lines 214-215 on one row: the draw flag is set when loser and winner counts agree. */
  function MarkDraw(r: PairRow): (r': PairRow)
    ensures r'.draw <==> r'.loserCount == r'.winnerCount
    ensures r' == r.(draw := r'.draw)
  {
    r.(draw := r.loserCount == r.winnerCount)
  }

  /** The summary rows of every pair, before duplicates are removed (lines 194-215). */
  function Corrected(rows: seq<ScoreRow>): (c: seq<PairRow>)
    ensures |c| == |PairKeys(rows)|
    ensures forall i :: 0 <= i < |c| ==> (c[i].subject, c[i].agent) == PairKeys(rows)[i]
    ensures forall i :: 0 <= i < |c| ==> (c[i].draw <==> c[i].loserCount == c[i].winnerCount)
  {
    var keys := PairKeys(rows);
    seq(|keys|, i requires 0 <= i < |keys| => MarkDraw(ResetLoser(Merged(rows, keys[i]))))
  }

  /** The columns other than subject and agent (line 217). */
  function ContentOf(r: PairRow): (int, string, int, string, int, bool)
  {
    (r.loserCount, r.loser, r.winnerCount, r.winner, r.totalCount, r.draw)
  }

  /** Lines 194-217: the pairwise summary. */
  function Summary(rows: seq<ScoreRow>): (sm: seq<PairRow>)
    ensures forall j :: 0 <= j < |sm| ==> sm[j] in Corrected(rows)
    ensures forall j, k :: 0 <= j < k < |sm| ==> ContentOf(sm[j]) != ContentOf(sm[k])
  {
    Dedup.DropDuplicates(Corrected(rows), ContentOf, false)
  }

  /** Line 212: reset, in place, every loser count equal to its row's total count. */
  method ResetLoserCounts(a: array<PairRow>)
    modifies a
    ensures forall i :: 0 <= i < a.Length ==> a[i] == ResetLoser(old(a[i]))
  {
    var i := 0;
    while i < a.Length
      invariant 0 <= i <= a.Length
      invariant forall k :: 0 <= k < i ==> a[k] == ResetLoser(old(a[k]))
      invariant forall k :: i <= k < a.Length ==> a[k] == old(a[k])
    {
      if a[i].loserCount == a[i].totalCount {
        a[i] := a[i].(loserCount := 0);
      }
      i := i + 1;
    }
  }

  /** Lines 214-215: clear every draw flag, then set it where loser and winner counts agree. */
  method MarkDraws(a: array<PairRow>)
    modifies a
    ensures forall i :: 0 <= i < a.Length ==> a[i] == MarkDraw(old(a[i]))
  {
    var i := 0;
    while i < a.Length
      invariant 0 <= i <= a.Length
      invariant forall k :: 0 <= k < i ==> a[k] == MarkDraw(old(a[k]))
      invariant forall k :: i <= k < a.Length ==> a[k] == old(a[k])
    {
      a[i] := a[i].(draw := false);
      if a[i].loserCount == a[i].winnerCount {
        a[i] := a[i].(draw := true);
      }
      i := i + 1;
    }
  }

  /** Lines 194-217: build the merged table, correct it in place, and drop repeated rows. */
  method Aggregate(rows: seq<ScoreRow>) returns (summary: seq<PairRow>)
    ensures summary == Summary(rows)
  {
    var keys := PairKeys(rows);
    var a := new PairRow[|keys|](i requires 0 <= i < |keys| => Merged(rows, keys[i]));
    ResetLoserCounts(a);
    MarkDraws(a);
    assert a[..] == Corrected(rows);
    summary := Dedup.DropDuplicates(a[..], ContentOf, false);
  }

  // ---- Outcomes count the combined table's rows ----

  /** The positions among the first `n` rows that belong to pair `p`. */
  function PairRowsBelow(rows: seq<ScoreRow>, p: Pair, n: nat): set<nat>
    requires n <= |rows|
  {
    set i: nat | i < n && PairOf(rows[i]) == p
  }

  /** The positions among the first `n` rows that belong to pair `p` with outcome `o`. */
  function GroupRowsBelow(rows: seq<ScoreRow>, p: Pair, o: Pair, n: nat): set<nat>
    requires n <= |rows|
  {
    set i: nat | i < n && PairOf(rows[i]) == p && OutcomeOf(rows[i]) == o
  }

  /** Collecting outcomes works row by row: two blocks of rows give their outcomes in order. */
  lemma {:induction false} OutcomesAppend(a: seq<ScoreRow>, b: seq<ScoreRow>, p: Pair)
    ensures Outcomes(a + b, p) == Outcomes(a, p) + Outcomes(b, p)
  {
    if |a| > 0 {
      assert (a + b)[0] == a[0] && (a + b)[1..] == a[1..] + b;
      OutcomesAppend(a[1..], b, p);
      var h: seq<Pair> := if PairOf(a[0]) == p then [OutcomeOf(a[0])] else [];
      assert Outcomes(a + b, p) == h + Outcomes(a[1..] + b, p);
      assert Outcomes(a, p) == h + Outcomes(a[1..], p);
    } else {
      assert a + b == b;
    }
  }

  /** One more row adds its outcome when it belongs to the pair. */
  lemma OutcomesStep(rows: seq<ScoreRow>, p: Pair, n: nat)
    requires n < |rows|
    ensures Outcomes(rows[..n + 1], p) == Outcomes(rows[..n], p) + (if PairOf(rows[n]) == p then [OutcomeOf(rows[n])] else [])
  {
    assert rows[..n + 1] == rows[..n] + [rows[n]];
    OutcomesAppend(rows[..n], [rows[n]], p);
    assert [rows[n]][1..] == [];
  }

  lemma PairRowsStep(rows: seq<ScoreRow>, p: Pair, m: nat)
    requires m < |rows|
    ensures PairRowsBelow(rows, p, m + 1) == PairRowsBelow(rows, p, m) + (if PairOf(rows[m]) == p then {m} else {})
    ensures m !in PairRowsBelow(rows, p, m)
  {
  }

  lemma GroupRowsStep(rows: seq<ScoreRow>, p: Pair, o: Pair, m: nat)
    requires m < |rows|
    ensures GroupRowsBelow(rows, p, o, m + 1) ==
            GroupRowsBelow(rows, p, o, m) + (if PairOf(rows[m]) == p && OutcomeOf(rows[m]) == o then {m} else {})
    ensures m !in GroupRowsBelow(rows, p, o, m)
  {
  }

  /** Adding a new element to a set adds one to its size. */
  lemma CardStep(a: set<nat>, m: nat, b: bool)
    requires m !in a
    ensures |a + (if b then {m} else {})| == |a| + (if b then 1 else 0)
  {
  }

  lemma {:induction false} PairCountBelow(rows: seq<ScoreRow>, p: Pair, n: nat)
    requires n <= |rows|
    ensures |Outcomes(rows[..n], p)| == |PairRowsBelow(rows, p, n)|
  {
    if n == 0 {
      assert PairRowsBelow(rows, p, 0) == {};
    } else {
      var m := n - 1;
      PairCountBelow(rows, p, m);
      OutcomesStep(rows, p, m);
      var inPair := PairOf(rows[m]) == p;
      PairRowsStep(rows, p, m);
      CardStep(PairRowsBelow(rows, p, m), m, inPair);
    }
  }

  lemma {:induction false} GroupCountBelow(rows: seq<ScoreRow>, p: Pair, o: Pair, n: nat)
    requires n <= |rows|
    ensures multiset(Outcomes(rows[..n], p))[o] == |GroupRowsBelow(rows, p, o, n)|
  {
    if n == 0 {
      assert GroupRowsBelow(rows, p, o, 0) == {};
    } else {
      var m := n - 1;
      GroupCountBelow(rows, p, o, m);
      OutcomesStep(rows, p, m);
      var inPair := PairOf(rows[m]) == p;
      var inGroup := inPair && OutcomeOf(rows[m]) == o;
      var added: seq<Pair> := if inPair then [OutcomeOf(rows[m])] else [];
      assert multiset(Outcomes(rows[..n], p)) == multiset(Outcomes(rows[..m], p)) + multiset(added);
      assert multiset(added)[o] == if inGroup then 1 else 0;
      GroupRowsStep(rows, p, o, m);
      CardStep(GroupRowsBelow(rows, p, o, m), m, inGroup);
    }
  }

  /**
   * Lines 194 and 208: a pair has one outcome per row of the combined table
   * that belongs to it, and the size of an outcome group is the number of
   * the pair's rows with that outcome.
   */
  lemma OutcomesCount(rows: seq<ScoreRow>, p: Pair, o: Pair)
    ensures |Outcomes(rows, p)| == |set i: nat | i < |rows| && PairOf(rows[i]) == p|
    ensures GroupSize(rows, p, o) == |set i: nat | i < |rows| && PairOf(rows[i]) == p && OutcomeOf(rows[i]) == o|
  {
    PairCountBelow(rows, p, |rows|);
    GroupCountBelow(rows, p, o, |rows|);
    assert rows[..|rows|] == rows;
  }

  // ---- Group sizes add up to the pair's total ----

  lemma {:induction false} SumCountsEmpty(g: seq<Pair>)
    ensures SumCounts(g, multiset{}) == 0
  {
    if |g| > 0 {
      SumCountsEmpty(g[1..]);
    }
  }

  /** One more occurrence of `x` adds one to the sum when `x` is among the distinct keys `g`. */
  lemma {:induction false} SumCountsAdd(g: seq<Pair>, m: multiset<Pair>, x: Pair)
    requires StrictlySorted(g)
    ensures SumCounts(g, m + multiset{x}) == SumCounts(g, m) + (if x in g then 1 else 0)
  {
    if |g| > 0 {
      assert StrictlySorted(g[1..]) by {
        assert forall i :: 0 <= i < |g| - 1 ==> g[1..][i] == g[i + 1];
      }
      SumCountsAdd(g[1..], m, x);
      if g[0] == x {
        PairLessIrreflexive(x);
        assert x !in g[1..];
      }
      assert x in g <==> x == g[0] || x in g[1..];
    }
  }

  /** Counting the elements of `xs` group by group, over groups that cover them, gives `|xs|`. */
  lemma {:induction false} SumCountsCovers(g: seq<Pair>, xs: seq<Pair>)
    requires StrictlySorted(g)
    requires forall x :: x in xs ==> x in g
    ensures SumCounts(g, multiset(xs)) == |xs|
    decreases |xs|
  {
    if |xs| == 0 {
      SumCountsEmpty(g);
    } else {
      var init := xs[..|xs| - 1];
      var x := xs[|xs| - 1];
      assert xs == init + [x];
      assert multiset(xs) == multiset(init) + multiset{x};
      SumCountsCovers(g, init);
      SumCountsAdd(g, multiset(init), x);
    }
  }

  lemma {:induction false} SumCountsAtLeast(g: seq<Pair>, m: multiset<Pair>, k: nat)
    requires k < |g|
    ensures m[g[k]] <= SumCounts(g, m)
  {
    if k > 0 {
      SumCountsAtLeast(g[1..], m, k - 1);
    }
  }

  lemma {:induction false} SumCountsAtLeastTwo(g: seq<Pair>, m: multiset<Pair>, k1: nat, k2: nat)
    requires k1 < k2 < |g|
    ensures m[g[k1]] + m[g[k2]] <= SumCounts(g, m)
  {
    if k1 == 0 {
      SumCountsAtLeast(g[1..], m, k2 - 1);
    } else {
      SumCountsAtLeastTwo(g[1..], m, k1 - 1, k2 - 1);
    }
  }

  /** Lines 194 and 208: every row of the pair falls in exactly one outcome group, so the group sizes add up to the total. */
  lemma TotalIsSumOfGroupSizes(rows: seq<ScoreRow>, p: Pair)
    ensures |Outcomes(rows, p)| == SumCounts(Groups(rows, p), multiset(Outcomes(rows, p)))
  {
    SumCountsCovers(Groups(rows, p), Outcomes(rows, p));
  }

  // ---- The summary row of one pair ----

  /** All rows of the pair have the same outcome. */
  predicate SingleOutcome(rows: seq<ScoreRow>, p: Pair)
  {
    forall o1, o2 :: o1 in Outcomes(rows, p) && o2 in Outcomes(rows, p) ==> o1 == o2
  }

  /** The pair has one outcome group exactly when all its rows have the same outcome. */
  lemma OneGroupIffSingleOutcome(rows: seq<ScoreRow>, p: Pair)
    requires p in PairKeys(rows)
    ensures |Groups(rows, p)| == 1 <==> SingleOutcome(rows, p)
  {
    PairKeyHasRows(rows, p);
    var g := Groups(rows, p);
    if |g| > 1 {
      PairLessIrreflexive(g[0]);
      assert g[0] in Outcomes(rows, p) && g[1] in Outcomes(rows, p);
    } else {
      assert forall o :: o in Outcomes(rows, p) ==> o in g;
    }
  }

  /** Line 212: the loser count equals the total exactly when all the pair's rows have the same outcome. */
  lemma ResetIffSingleOutcome(rows: seq<ScoreRow>, p: Pair)
    requires p in PairKeys(rows)
    ensures Merged(rows, p).loserCount == Merged(rows, p).totalCount <==> SingleOutcome(rows, p)
    ensures !SingleOutcome(rows, p) ==> 0 < Merged(rows, p).loserCount < Merged(rows, p).totalCount
  {
    PairKeyHasRows(rows, p);
    var g := Groups(rows, p);
    var m := multiset(Outcomes(rows, p));
    assert |g| == 1 <==> SingleOutcome(rows, p) by {
      OneGroupIffSingleOutcome(rows, p);
    }
    MergedAgainstGroups(rows, p);
  }

  /** The merged loser count equals the total exactly when the pair has one group, and is below it otherwise. */
  lemma {:induction false} MergedAgainstGroups(rows: seq<ScoreRow>, p: Pair)
    requires p in PairKeys(rows) && |Groups(rows, p)| > 0
    ensures Merged(rows, p).loserCount == Merged(rows, p).totalCount <==> |Groups(rows, p)| == 1
    ensures |Groups(rows, p)| > 1 ==> Merged(rows, p).loserCount < Merged(rows, p).totalCount
  {
    var g := Groups(rows, p);
    var m := multiset(Outcomes(rows, p));
    assert Merged(rows, p).totalCount == SumCounts(g, m) by {
      TotalIsSumOfGroupSizes(rows, p);
    }
    assert Merged(rows, p).loserCount == MinCount(g, m) by {
      MergedCounts(rows, p);
    }
    assert forall j :: 0 <= j < |g| ==> m[g[j]] >= 1 by {
      forall j | 0 <= j < |g|
        ensures m[g[j]] >= 1
      {
        assert g[j] in Outcomes(rows, p);
      }
    }
    MinIsSumIffOneGroup(g, m);
  }

  /** When every group has a row, the smallest group holds all of them exactly when there is one group. */
  lemma MinIsSumIffOneGroup(g: seq<Pair>, m: multiset<Pair>)
    requires |g| > 0
    requires forall j :: 0 <= j < |g| ==> m[g[j]] >= 1
    ensures MinCount(g, m) == SumCounts(g, m) <==> |g| == 1
    ensures |g| > 1 ==> MinCount(g, m) < SumCounts(g, m)
  {
    if |g| > 1 {
      MinBelowSum(g, m);
    } else {
      assert SumCounts(g[1..], m) == 0;
    }
  }

  /** With two or more groups, each with a row, the smallest group is smaller than the total. */
  lemma MinBelowSum(g: seq<Pair>, m: multiset<Pair>)
    requires |g| > 1
    requires forall j :: 0 <= j < |g| ==> m[g[j]] >= 1
    ensures MinCount(g, m) < SumCounts(g, m)
  {
    var k :| 0 <= k < |g| && MinCount(g, m) == m[g[k]];
    var other := if k == 0 then 1 else 0;
    if k < other {
      SumCountsAtLeastTwo(g, m, k, other);
    } else {
      SumCountsAtLeastTwo(g, m, other, k);
    }
  }

  /** All rows of the pair have the same loser. */
  predicate SharedLoser(rows: seq<ScoreRow>, p: Pair)
  {
    forall o1, o2 :: o1 in Outcomes(rows, p) && o2 in Outcomes(rows, p) ==> o1.0 == o2.0
  }

  /** All rows of the pair have the same winner. */
  predicate SharedWinner(rows: seq<ScoreRow>, p: Pair)
  {
    forall o1, o2 :: o1 in Outcomes(rows, p) && o2 in Outcomes(rows, p) ==> o1.1 == o2.1
  }

  /**
   * Lines 196-204: the recorded loser and winner come from `o`, the least
   * outcome of the pair in tuple order. When several losers occur the loser
   * is `o`'s; when one loser occurs, only its first character is recorded.
   * The same holds for the winner.
   */
  lemma RecordedOutcomeIsLeast(rows: seq<ScoreRow>, p: Pair) returns (o: Pair)
    requires p in PairKeys(rows)
    ensures o in Outcomes(rows, p)
    ensures forall o' :: o' in Outcomes(rows, p) ==> o' == o || PairLess(o, o')
    ensures var r := MarkDraw(ResetLoser(Merged(rows, p)));
            && r.subject == p.0 && r.agent == p.1
            && r.loser == (if SharedLoser(rows, p) then Initial(o.0) else o.0)
            && r.winner == (if SharedWinner(rows, p) then Initial(o.1) else o.1)
  {
    PairKeyHasRows(rows, p);
    var g := Groups(rows, p);
    o := g[0];
    forall o' | o' in Outcomes(rows, p)
      ensures o' == o || PairLess(o, o')
    {
      HeadIsLeast(g, o');
    }
    MergedIds(rows, p);
  }

  /** The loser and winner of `Merged`, in terms of the groups' ids. */
  lemma MergedIds(rows: seq<ScoreRow>, p: Pair)
    requires p in PairKeys(rows) && |Groups(rows, p)| > 0
    ensures Merged(rows, p).loser == (if SharedLoser(rows, p) then Initial(Groups(rows, p)[0].0) else Groups(rows, p)[0].0)
    ensures Merged(rows, p).winner == (if SharedWinner(rows, p) then Initial(Groups(rows, p)[0].1) else Groups(rows, p)[0].1)
  {
    var g := Groups(rows, p);
    assert Merged(rows, p).loser == PickId(LoserIds(g)) && Merged(rows, p).winner == PickId(WinnerIds(g));
    SharedLoserIds(rows, p);
    SharedWinnerIds(rows, p);
    PickIdSpec(LoserIds(g));
    PickIdSpec(WinnerIds(g));
  }

  /** All rows of a pair share the loser exactly when all its groups do. */
  lemma SharedLoserIds(rows: seq<ScoreRow>, p: Pair)
    requires |Groups(rows, p)| > 0
    ensures var ls := LoserIds(Groups(rows, p));
            && (SharedLoser(rows, p) ==> forall k :: 0 <= k < |ls| ==> ls[k] == ls[0])
            && (!SharedLoser(rows, p) ==> exists k :: 0 <= k < |ls| && ls[k] != ls[0])
  {
    SharedLoserKeys(Outcomes(rows, p));
  }

  lemma SharedLoserKeys(os: seq<Pair>)
    requires |SortedKeys(os)| > 0
    ensures var ls := LoserIds(SortedKeys(os));
            && ((forall o1, o2 :: o1 in os && o2 in os ==> o1.0 == o2.0) ==> forall k :: 0 <= k < |ls| ==> ls[k] == ls[0])
            && (!(forall o1, o2 :: o1 in os && o2 in os ==> o1.0 == o2.0) ==> exists k :: 0 <= k < |ls| && ls[k] != ls[0])
  {
    var g := SortedKeys(os);
    var ls := LoserIds(g);
    assert forall j :: 0 <= j < |g| ==> g[j] in os;
    if !(forall o1, o2 :: o1 in os && o2 in os ==> o1.0 == o2.0) {
      var o1, o2 :| o1 in os && o2 in os && o1.0 != o2.0;
      var k1 :| 0 <= k1 < |g| && g[k1] == o1;
      var k2 :| 0 <= k2 < |g| && g[k2] == o2;
      assert ls[k1] != ls[0] || ls[k2] != ls[0];
    }
  }

  /** All rows of a pair share the winner exactly when all its groups do. */
  lemma SharedWinnerIds(rows: seq<ScoreRow>, p: Pair)
    requires |Groups(rows, p)| > 0
    ensures var ws := WinnerIds(Groups(rows, p));
            && (SharedWinner(rows, p) ==> forall k :: 0 <= k < |ws| ==> ws[k] == ws[0])
            && (!SharedWinner(rows, p) ==> exists k :: 0 <= k < |ws| && ws[k] != ws[0])
  {
    SharedWinnerKeys(Outcomes(rows, p));
  }

  lemma SharedWinnerKeys(os: seq<Pair>)
    requires |SortedKeys(os)| > 0
    ensures var ws := WinnerIds(SortedKeys(os));
            && ((forall o1, o2 :: o1 in os && o2 in os ==> o1.1 == o2.1) ==> forall k :: 0 <= k < |ws| ==> ws[k] == ws[0])
            && (!(forall o1, o2 :: o1 in os && o2 in os ==> o1.1 == o2.1) ==> exists k :: 0 <= k < |ws| && ws[k] != ws[0])
  {
    var g := SortedKeys(os);
    var ws := WinnerIds(g);
    assert forall j :: 0 <= j < |g| ==> g[j] in os;
    if !(forall o1, o2 :: o1 in os && o2 in os ==> o1.1 == o2.1) {
      var o1, o2 :| o1 in os && o2 in os && o1.1 != o2.1;
      var k1 :| 0 <= k1 < |g| && g[k1] == o1;
      var k2 :| 0 <= k2 < |g| && g[k2] == o2;
      assert ws[k1] != ws[0] || ws[k2] != ws[0];
    }
  }

  /** Lines 199-210: the winner count is the size of the largest group and the total is the pair's row count. */
  lemma WinnerCountIsLargestGroup(rows: seq<ScoreRow>, p: Pair)
    requires p in PairKeys(rows)
    ensures var r := MarkDraw(ResetLoser(Merged(rows, p)));
            && r.totalCount == |Outcomes(rows, p)|
            && (forall o :: o in Outcomes(rows, p) ==> GroupSize(rows, p, o) <= r.winnerCount)
            && (exists o :: o in Outcomes(rows, p) && GroupSize(rows, p, o) == r.winnerCount)
  {
    PairKeyHasRows(rows, p);
    var g := Groups(rows, p);
    var m := multiset(Outcomes(rows, p));
    var high := MaxCount(g, m);
    var k :| 0 <= k < |g| && high == m[g[k]];
    assert g[k] in Outcomes(rows, p);
    forall o | o in Outcomes(rows, p)
      ensures GroupSize(rows, p, o) <= high
    {
      var j :| 0 <= j < |g| && g[j] == o;
    }
  }

  /**
   * Lines 212-215 for a pair whose rows all have one outcome: loser count 0,
   * winner count the total, and no draw.
   */
  lemma SingleOutcomeRow(rows: seq<ScoreRow>, p: Pair)
    requires p in PairKeys(rows) && SingleOutcome(rows, p)
    ensures var r := MarkDraw(ResetLoser(Merged(rows, p)));
            r.loserCount == 0 && r.winnerCount == r.totalCount && !r.draw
  {
    ResetIffSingleOutcome(rows, p);
    OneGroupIffSingleOutcome(rows, p);
    TotalIsSumOfGroupSizes(rows, p);
    var g := Groups(rows, p);
    assert Outcomes(rows, p) != [];
  }

  /**
   * Lines 194-215 for a pair with more than one outcome: the loser count is
   * the size of the smallest group, and the row is a draw exactly when the
   * smallest and largest groups have the same size.
   */
  lemma MixedOutcomeRow(rows: seq<ScoreRow>, p: Pair)
    requires p in PairKeys(rows) && !SingleOutcome(rows, p)
    ensures var r := MarkDraw(ResetLoser(Merged(rows, p)));
            && 0 < r.loserCount < r.totalCount
            && (forall o :: o in Outcomes(rows, p) ==> r.loserCount <= GroupSize(rows, p, o))
            && (exists o :: o in Outcomes(rows, p) && GroupSize(rows, p, o) == r.loserCount)
            && (r.draw <==> r.loserCount == r.winnerCount)
  {
    ResetIffSingleOutcome(rows, p);
    PairKeyHasRows(rows, p);
    var g := Groups(rows, p);
    var m := multiset(Outcomes(rows, p));
    var low := MinCount(g, m);
    var k :| 0 <= k < |g| && low == m[g[k]];
    assert g[k] in Outcomes(rows, p);
    forall o | o in Outcomes(rows, p)
      ensures low <= GroupSize(rows, p, o)
    {
      var j :| 0 <= j < |g| && g[j] == o;
    }
  }

  // ---- Removing repeated rows (line 217) ----

  /** The corrected row of the `i`-th pair. */
  lemma CorrectedAt(rows: seq<ScoreRow>, i: nat)
    requires i < |Corrected(rows)|
    ensures i < |PairKeys(rows)|
    ensures Corrected(rows)[i] == MarkDraw(ResetLoser(Merged(rows, PairKeys(rows)[i])))
    ensures (Corrected(rows)[i].subject, Corrected(rows)[i].agent) == PairKeys(rows)[i]
  {
  }

  /** Outcome lists with the same multiset have the same sorted groups. */
  lemma SameGroups(op: seq<Pair>, oq: seq<Pair>)
    requires multiset(op) == multiset(oq)
    ensures SortedKeys(op) == SortedKeys(oq)
  {
    forall o ensures o in SortedKeys(op) <==> o in SortedKeys(oq) {
      assert o in op <==> o in multiset(op);
      assert o in oq <==> o in multiset(oq);
    }
    SortedUnique(SortedKeys(op), SortedKeys(oq));
  }

  /**
   * Pairs whose rows show the same outcomes, each as often, get rows with the
   * same counts, loser, winner and draw flag. The rating engine reports every
   * contest once from each side, so a pair and its mirror are such pairs.
   */
  lemma SameOutcomesSameContent(rows: seq<ScoreRow>, p: Pair, q: Pair)
    requires p in PairKeys(rows) && q in PairKeys(rows)
    requires multiset(Outcomes(rows, p)) == multiset(Outcomes(rows, q))
    ensures ContentOf(MarkDraw(ResetLoser(Merged(rows, p)))) == ContentOf(MarkDraw(ResetLoser(Merged(rows, q))))
  {
    var op := Outcomes(rows, p);
    var oq := Outcomes(rows, q);
    var m := multiset(op);
    SameGroups(op, oq);
    assert Groups(rows, p) == Groups(rows, q);
    assert |op| == |oq| by {
      assert |op| == |multiset(op)| && |oq| == |multiset(oq)|;
    }
    PairKeyHasRows(rows, p);
    PairKeyHasRows(rows, q);
    MergedIs(rows, p);
    MergedIs(rows, q);
  }

  /** The counts of `Merged`, unfolded once. */
  lemma MergedCounts(rows: seq<ScoreRow>, p: Pair)
    requires p in PairKeys(rows) && |Groups(rows, p)| > 0
    ensures var g := Groups(rows, p);
            var m := multiset(Outcomes(rows, p));
            && Merged(rows, p).loserCount == MinCount(g, m)
            && Merged(rows, p).winnerCount == MaxCount(g, m)
  {
  }

  /** `Merged` unfolded once. */
  lemma MergedIs(rows: seq<ScoreRow>, p: Pair)
    requires p in PairKeys(rows) && |Groups(rows, p)| > 0
    ensures var g := Groups(rows, p);
            var m := multiset(Outcomes(rows, p));
            Merged(rows, p) == PairRow(p.0, p.1, MinCount(g, m), PickId(LoserIds(g)), MaxCount(g, m), PickId(WinnerIds(g)),
                                       |Outcomes(rows, p)|, false)
  {
  }

  /**
   * Lines 199-217: two pairs whose rows each show a single outcome, equally
   * often, where the losers share their first character and so do the
   * winners, get the same content, so at most one of them keeps a summary row.
   */
  lemma OneSidedPairsShareContent(rows: seq<ScoreRow>, p: Pair, q: Pair)
    requires p in PairKeys(rows) && q in PairKeys(rows)
    requires SingleOutcome(rows, p) && SingleOutcome(rows, q)
    requires |Outcomes(rows, p)| == |Outcomes(rows, q)|
    requires forall o1, o2 :: o1 in Outcomes(rows, p) && o2 in Outcomes(rows, q) ==>
               Initial(o1.0) == Initial(o2.0) && Initial(o1.1) == Initial(o2.1)
    ensures ContentOf(MarkDraw(ResetLoser(Merged(rows, p)))) == ContentOf(MarkDraw(ResetLoser(Merged(rows, q))))
  {
    var op := RecordedOutcomeIsLeast(rows, p);
    var oq := RecordedOutcomeIsLeast(rows, q);
    SingleOutcomeRow(rows, p);
    SingleOutcomeRow(rows, q);
  }

  /** Line 217: every pair's content appears in the summary, and no content appears twice. */
  lemma SummaryContents(rows: seq<ScoreRow>)
    ensures forall i :: 0 <= i < |Corrected(rows)| ==>
              exists j :: 0 <= j < |Summary(rows)| && ContentOf(Summary(rows)[j]) == ContentOf(Corrected(rows)[i])
    ensures forall j, k :: 0 <= j < k < |Summary(rows)| ==> ContentOf(Summary(rows)[j]) != ContentOf(Summary(rows)[k])
  {
    var c := Corrected(rows);
    var sm := Summary(rows);
    forall i | 0 <= i < |c|
      ensures exists j :: 0 <= j < |sm| && ContentOf(sm[j]) == ContentOf(c[i])
    {
      Dedup.KeyRetainedOnce(c, ContentOf, false, i);
    }
  }

  /**
   * Line 217: each summary row is the row of the least pair, in
   * (subject, agent) order, among the pairs with its content.
   */
  lemma SummaryKeepsLeastPair(rows: seq<ScoreRow>, j: nat) returns (i: nat)
    requires j < |Summary(rows)|
    ensures i < |Corrected(rows)| && Summary(rows)[j] == Corrected(rows)[i]
    ensures forall i' :: 0 <= i' < |Corrected(rows)| && ContentOf(Corrected(rows)[i']) == ContentOf(Corrected(rows)[i]) ==>
              PairKeys(rows)[i] == PairKeys(rows)[i'] || PairLess(PairKeys(rows)[i], PairKeys(rows)[i'])
  {
    var c := Corrected(rows);
    var keys := PairKeys(rows);
    i :| Dedup.Kept(c, ContentOf, false, i) && Summary(rows)[j] == c[i];
    assert StrictlySorted(keys) && |c| == |keys|;
    FirstHasLeastKey(c, keys, i);
  }

  /** Among rows listed under strictly increasing keys, a first occurrence has the least key of its content. */
  lemma FirstHasLeastKey(c: seq<PairRow>, keys: seq<Pair>, i: nat)
    requires StrictlySorted(keys) && |c| == |keys|
    requires Dedup.IsFirst(c, ContentOf, i)
    ensures forall i' :: 0 <= i' < |c| && ContentOf(c[i']) == ContentOf(c[i]) ==> keys[i] == keys[i'] || PairLess(keys[i], keys[i'])
  {
    forall i' | 0 <= i' < |c| && ContentOf(c[i']) == ContentOf(c[i])
      ensures keys[i] == keys[i'] || PairLess(keys[i], keys[i'])
    {
      assert !(i' < i);
    }
  }

  /** A pair and another with the same outcomes (such as its mirror) never both have a summary row. */
  lemma SameOutcomesSummarisedOnce(rows: seq<ScoreRow>, p: Pair, q: Pair, j: nat, k: nat)
    requires p in PairKeys(rows) && q in PairKeys(rows)
    requires multiset(Outcomes(rows, p)) == multiset(Outcomes(rows, q))
    requires j < |Summary(rows)| && k < |Summary(rows)|
    requires (Summary(rows)[j].subject, Summary(rows)[j].agent) == p
    requires (Summary(rows)[k].subject, Summary(rows)[k].agent) == q
    ensures j == k
  {
    var c := Corrected(rows);
    var sm := Summary(rows);
    var ij :| Dedup.Kept(c, ContentOf, false, ij) && sm[j] == c[ij];
    var ik :| Dedup.Kept(c, ContentOf, false, ik) && sm[k] == c[ik];
    CorrectedAt(rows, ij);
    CorrectedAt(rows, ik);
    SameOutcomesSameContent(rows, p, q);
    SummaryContents(rows);
  }
}
