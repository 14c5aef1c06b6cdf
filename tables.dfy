/**
 * The tables the script builds: a sheet as read, the cleaned sheet handed to
 * the rating engine, the engine's rows and the rows of the combined table;
 * and the per-sheet cleaning (lines 86-132), cage resolution (lines 151-154)
 * and strain columns (lines 167-171).
 */
module Tables {
  import opened Wrappers
  import Tokens
  import Columns

  /** One spreadsheet row as read, before cleaning; a missing cell is `None`. */
  datatype RawRow = RawRow(
    winner: Option<string>,
    loser: Option<string>,
    date: Option<int>,
    runner: Option<string>,
    ties: Option<Columns.Cell>)

  /** A sheet as read: its rows, and which of the optional columns the sheet has. */
  datatype RawSheet = RawSheet(rows: seq<RawRow>, hasDate: bool, hasRunner: bool, hasTies: bool)

  /** A cleaned contest row: identity tokens, filled columns, session marker, resolved cages. */
  datatype CleanRow = CleanRow(
    winner: string,
    loser: string,
    date: Option<int>,
    runner: Option<string>,
    tie: bool,
    session: int,
    winnerCage: string,
    loserCage: string)

  /** A cleaned sheet: `cage` is the sheet name (lines 89 and 92). */
  datatype CleanSheet = CleanSheet(cage: string, rows: seq<CleanRow>, hasRunner: bool, hasTies: bool)

  /** A row of the rating engine's output, seen from `subject` against `agent`. */
  datatype EngineRow = EngineRow(subject: string, agent: string, winner: string, loser: string, rating: int)

  /** A row of the combined table; the strain columns exist only when a strain mapping is given. */
  datatype ScoreRow = ScoreRow(
    subject: string,
    agent: string,
    winner: string,
    loser: string,
    rating: int,
    subjectCage: string,
    agentCage: string,
    subjectStrain: Option<string>,
    agentStrain: Option<string>)

  /** The ways the script stops with an exception. */
  datatype Failure =
    | UnknownSheet(name: string)          // read_excel of a sheet the file does not have
    | MissingSessionColumn(name: string)  // the session column lookup at line 126
    | NoScoredRows(name: string)          // the "cage" column lookup at line 151 on an empty table
    | NothingToCombine                    // pd.concat of no tables at line 161

  predicate IsContest(r: RawRow) { r.winner.Some? && r.loser.Some? }

  /** `dropna(subset=['winner', 'loser'])` (line 88): the rows with both identities, in order. */
  function Contests(rows: seq<RawRow>): (r: seq<RawRow>)
    ensures forall x :: x in r <==> x in rows && IsContest(x)
    ensures |r| <= |rows|
  {
    if |rows| == 0 then []
    else (if IsContest(rows[0]) then [rows[0]] else []) + Contests(rows[1..])
  }

  /** Line 88: a contest row is kept as often as it occurs, any other row never. */
  lemma {:induction false} ContestsCount(rows: seq<RawRow>)
    ensures forall x :: multiset(Contests(rows))[x] == if IsContest(x) then multiset(rows)[x] else 0
  {
    if |rows| > 0 {
      ContestsCount(rows[1..]);
      assert rows == [rows[0]] + rows[1..];
      assert multiset(rows) == multiset{rows[0]} + multiset(rows[1..]);
    }
  }

  /** The filter works row by row: filtering two blocks of rows filters each, in order. */
  lemma {:induction false} ContestsAppend(a: seq<RawRow>, b: seq<RawRow>)
    ensures Contests(a + b) == Contests(a) + Contests(b)
  {
    if |a| > 0 {
      assert (a + b)[0] == a[0] && (a + b)[1..] == a[1..] + b;
      ContestsAppend(a[1..], b);
      var h: seq<RawRow> := if IsContest(a[0]) then [a[0]] else [];
      assert Contests(a + b) == h + Contests(a[1..] + b);
      assert Contests(a) == h + Contests(a[1..]);
    } else {
      assert a + b == b;
    }
  }

  /**
   * Lines 86-132 on one sheet: keep the contests, reduce winner and loser to
   * identity tokens, forward-fill the date and runner columns, fill the tie
   * column with False, mark session boundaries on the filled dates, and look
   * up the winner's and loser's cages. A sheet without the date column makes
   * the session step fail.
   */
  function Clean(name: string, raw: RawSheet, idToCage: map<string, string>): (r: Result<CleanSheet, Failure>)
    ensures r.Failure? <==> !raw.hasDate
    ensures r.Failure? ==> r.error == MissingSessionColumn(name)
    ensures r.Success? ==> r.value.cage == name && |r.value.rows| == |Contests(raw.rows)|
  {
    if !raw.hasDate then Failure(MissingSessionColumn(name))
    else
      var kept := Contests(raw.rows);
      var n := |kept|;
      assert forall i :: 0 <= i < n ==> IsContest(kept[i]) by {
        assert forall i :: 0 <= i < n ==> kept[i] in kept;
      }
      var winners := seq(n, i requires 0 <= i < n => Tokens.Token(kept[i].winner.value));
      var losers := seq(n, i requires 0 <= i < n => Tokens.Token(kept[i].loser.value));
      var dates := Columns.ForwardFill(seq(n, i requires 0 <= i < n => kept[i].date));
      var rawRunners := seq(n, i requires 0 <= i < n => kept[i].runner);
      var runners := if raw.hasRunner then Columns.ForwardFill(rawRunners) else seq(n, i => None);
      var ties := if raw.hasTies then Columns.TieColumn(seq(n, i requires 0 <= i < n => kept[i].ties))
                  else seq(n, i => false);
      var marks := Columns.SessionMarkers(dates);
      Success(CleanSheet(name,
        seq(n, i requires 0 <= i < n =>
          CleanRow(winners[i], losers[i], dates[i], runners[i], ties[i], marks[i],
                   Columns.CageOf(idToCage, name, winners[i]),
                   Columns.CageOf(idToCage, name, losers[i]))),
        raw.hasRunner, raw.hasTies))
  }

  /** The date column of the contests, as read. */
  function DateCells(raw: RawSheet): seq<Option<int>>
  {
    var kept := Contests(raw.rows);
    seq(|kept|, i requires 0 <= i < |kept| => kept[i].date)
  }

  /** The runner column of the contests, as read. */
  function RunnerCells(raw: RawSheet): seq<Option<string>>
  {
    var kept := Contests(raw.rows);
    seq(|kept|, i requires 0 <= i < |kept| => kept[i].runner)
  }

  /**
   * What a cleaned row holds: the tokens of its contest's cells, the filled
   * date, the filled runner when the sheet has that column, the truthiness
   * of its tie cell (False for a missing cell or column), and the cages from
   * the override map with the sheet name as the fallback.
   */
  lemma CleanRowSpec(name: string, raw: RawSheet, idToCage: map<string, string>, i: nat)
    requires raw.hasDate && i < |Contests(raw.rows)|
    ensures var c := Clean(name, raw, idToCage).value.rows[i];
            var x := Contests(raw.rows)[i];
            && x.winner.Some? && x.loser.Some?
            && c.winner == Tokens.Token(x.winner.value)
            && c.loser == Tokens.Token(x.loser.value)
            && c.date == Columns.ForwardFill(DateCells(raw))[i]
            && (x.date.Some? ==> c.date == x.date)
            && c.runner == (if raw.hasRunner then Columns.ForwardFill(RunnerCells(raw))[i] else None)
            && (raw.hasTies && x.ties.None? ==> !c.tie)
            && c.tie == (raw.hasTies && Columns.TieFlag(x.ties))
            && c.winnerCage == (if c.winner in idToCage then idToCage[c.winner] else name)
            && c.loserCage == (if c.loser in idToCage then idToCage[c.loser] else name)
  {
    var kept := Contests(raw.rows);
    assert kept[i] in kept;
    Columns.ForwardFillSpec(DateCells(raw), i);
  }

  /**
   * The session marker of a cleaned row is the marker of the filled dates:
   * 1 on the first row, and 0 exactly when the row's date repeats the
   * previous row's.
   */
  lemma CleanRowSession(name: string, raw: RawSheet, idToCage: map<string, string>, i: nat)
    requires raw.hasDate && i < |Contests(raw.rows)|
    ensures var rows := Clean(name, raw, idToCage).value.rows;
            && rows[i].session == Columns.SessionMarkers(Columns.ForwardFill(DateCells(raw)))[i]
            && (i == 0 ==> rows[i].session == 1)
            && (i > 0 ==> (rows[i].session == 0 <==> rows[i].date == rows[i - 1].date))
  {
    var dates := Columns.ForwardFill(DateCells(raw));
    var rows := Clean(name, raw, idToCage).value.rows;
    assert rows[i].date == dates[i] && rows[i].session == Columns.SessionMarkers(dates)[i];
    if i > 0 {
      assert rows[i - 1].date == dates[i - 1];
      Columns.MarkerZeroIffRepeat(dates, i);
    }
  }

  /** Lines 151-154: the engine's rows with the subject's and agent's cages resolved. */
  function ResolveCages(sheet: string, idToCage: map<string, string>, rows: seq<EngineRow>): (r: seq<ScoreRow>)
    ensures |r| == |rows|
    ensures forall i :: 0 <= i < |rows| ==>
              && r[i].subject == rows[i].subject && r[i].agent == rows[i].agent
              && r[i].winner == rows[i].winner && r[i].loser == rows[i].loser
              && r[i].rating == rows[i].rating
              && r[i].subjectCage == (if rows[i].subject in idToCage then idToCage[rows[i].subject] else sheet)
              && r[i].agentCage == (if rows[i].agent in idToCage then idToCage[rows[i].agent] else sheet)
              && r[i].subjectStrain.None? && r[i].agentStrain.None?
  {
    seq(|rows|, i requires 0 <= i < |rows| =>
      var e := rows[i];
      ScoreRow(e.subject, e.agent, e.winner, e.loser, e.rating,
               Columns.CageOf(idToCage, sheet, e.subject), Columns.CageOf(idToCage, sheet, e.agent),
               None, None))
  }

  /**
   * Lines 167-171: with a non-empty mapping every row gets the strains of its
   * subject and agent (the mapped value, else the id itself); with an empty
   * mapping the table is left without strain columns.
   */
  function AddStrains(rows: seq<ScoreRow>, cageToStrain: map<string, string>): (r: seq<ScoreRow>)
    ensures |cageToStrain| == 0 ==> r == rows
    ensures |r| == |rows|
    ensures |cageToStrain| > 0 ==> forall i :: 0 <= i < |rows| ==>
              && r[i] == rows[i].(subjectStrain := r[i].subjectStrain, agentStrain := r[i].agentStrain)
              && r[i].subjectStrain == Some(if rows[i].subject in cageToStrain then cageToStrain[rows[i].subject] else rows[i].subject)
              && r[i].agentStrain == Some(if rows[i].agent in cageToStrain then cageToStrain[rows[i].agent] else rows[i].agent)
  {
    if |cageToStrain| == 0 then rows
    else
      seq(|rows|, i requires 0 <= i < |rows| =>
        rows[i].(subjectStrain := Some(Columns.StrainOf(cageToStrain, rows[i].subject)),
                 agentStrain := Some(Columns.StrainOf(cageToStrain, rows[i].agent))))
  }
}
