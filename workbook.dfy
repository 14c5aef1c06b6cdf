/**
 * The loop over the selected sheets (lines 74-154), the two tables it fills,
 * keyed by sheet name in insertion order, and what is computed from their
 * concatenation (lines 161-217).
 */
module Workbook {
  import opened Wrappers
  import opened Tables
  import Standings
  import Pairwise
  import Dedup

  /** A sheet of the Excel file, under its name. */
  datatype NamedSheet = NamedSheet(name: string, sheet: RawSheet)

  /** The first sheet of the file named `name`, if there is one. */
  function Lookup(file: seq<NamedSheet>, name: string): (r: Option<RawSheet>)
    ensures r.Some? <==> exists k :: 0 <= k < |file| && file[k].name == name
    ensures r.Some? ==> exists k :: 0 <= k < |file| && file[k].name == name && file[k].sheet == r.value
  {
    if |file| == 0 then None
    else if file[0].name == name then Some(file[0].sheet)
    else
      var r := Lookup(file[1..], name);
      assert forall k :: 1 <= k < |file| ==> file[1..][k - 1] == file[k];
      r
  }

  /** Lines 74-77: the requested sheet names, or every sheet of the file when none are requested. */
  function Selected(file: seq<NamedSheet>, requested: seq<string>): (names: seq<string>)
    ensures |requested| > 0 ==> names == requested
    ensures |requested| == 0 ==> |names| == |file| && forall k :: 0 <= k < |file| ==> names[k] == file[k].name
    ensures |requested| == 0 ==> forall n :: n in names ==> Lookup(file, n).Some?
  {
    if |requested| > 0 then requested
    else seq(|file|, k requires 0 <= k < |file| => file[k].name)
  }

  /** The rows of the tables `order` names, concatenated in that order. */
  function ConcatIn(order: seq<string>, tables: map<string, seq<ScoreRow>>): (r: seq<ScoreRow>)
    requires forall n :: n in order ==> n in tables
    ensures forall x :: x in r <==> exists k :: 0 <= k < |order| && x in tables[order[k]]
  {
    if |order| == 0 then []
    else
      var rest := ConcatIn(order[1..], tables);
      assert forall k :: 1 <= k < |order| ==> order[1..][k - 1] == order[k];
      tables[order[0]] + rest
  }

  /**
   * Lines 86-154 for one sheet: read it, clean it, rate it, and resolve the
   * cages of the rated rows. A sheet the file lacks, a sheet without the
   * session column and a sheet the engine rates no rows of each stop the
   * script with their own error.
   */
  function ScoreSheet(file: seq<NamedSheet>, name: string, idToCage: map<string, string>,
                      engine: CleanSheet -> seq<EngineRow>): (r: Result<(CleanSheet, seq<ScoreRow>), Failure>)
    ensures r == Failure(UnknownSheet(name)) <==> Lookup(file, name).None?
    ensures Lookup(file, name).Some? ==>
              (r == Failure(MissingSessionColumn(name)) <==> !Lookup(file, name).value.hasDate)
    ensures r.Success? <==>
              (Lookup(file, name).Some? && Lookup(file, name).value.hasDate &&
               |engine(Clean(name, Lookup(file, name).value, idToCage).value)| > 0)
    ensures Lookup(file, name).Some? && Lookup(file, name).value.hasDate ==>
              (r == Failure(NoScoredRows(name)) <==> |engine(Clean(name, Lookup(file, name).value, idToCage).value)| == 0)
    ensures r.Success? ==>
              (Lookup(file, name).Some? && Lookup(file, name).value.hasDate &&
               Clean(name, Lookup(file, name).value, idToCage) == Success(r.value.0) &&
               |engine(r.value.0)| > 0 && r.value.1 == ResolveCages(name, idToCage, engine(r.value.0)))
  {
    match Lookup(file, name)
    case None => Failure(UnknownSheet(name))
    case Some(raw) =>
      match Clean(name, raw, idToCage)
      case Failure(e) => Failure(e)
      case Success(c) =>
        var out := engine(c);
        if |out| == 0 then Failure(NoScoredRows(name))
        else Success((c, ResolveCages(name, idToCage, out)))
  }

  /** What processing one named sheet yields. */
  type Scorer = string -> Result<(CleanSheet, seq<ScoreRow>), Failure>

  /** The processing of the sheets of `file`. */
  function SheetScorer(file: seq<NamedSheet>, idToCage: map<string, string>, engine: CleanSheet -> seq<EngineRow>): Scorer
  {
    name => ScoreSheet(file, name, idToCage, engine)
  }

  /** The two dictionaries of the loop, as values. */
  datatype Stored = Stored(cleaned: map<string, CleanSheet>, scored: map<string, seq<ScoreRow>>, order: seq<string>)

  /** No name appears twice. */
  predicate Distinct(names: seq<string>)
  {
    forall i, j :: 0 <= i < j < |names| ==> names[i] != names[j]
  }

  /** Both dictionaries have the keys `order` lists, once each. */
  ghost predicate WellKeyed(t: Stored)
  {
    && (forall n :: n in t.order <==> n in t.scored)
    && (forall n :: n in t.order <==> n in t.cleaned)
    && Distinct(t.order)
  }

  /** A Python dict assignment on both dictionaries: a new key goes last, an old key keeps its place. */
  function StoreIn(t: Stored, name: string, c: CleanSheet, s: seq<ScoreRow>): Stored
  {
    Stored(t.cleaned[name := c], t.scored[name := s], if name in t.order then t.order else t.order + [name])
  }

  /** Lines 84-154 over `names`, stopping at the first sheet that fails. */
  function ProcessSheets(names: seq<string>, score: Scorer): (r: Result<Stored, Failure>)
    ensures r.Success? ==> forall n :: n in r.value.order ==> n in names
    ensures r.Success? ==> |r.value.order| <= |names|
    decreases |names|
  {
    if |names| == 0 then Success(Stored(map[], map[], []))
    else
      match ProcessSheets(names[..|names| - 1], score)
      case Failure(e) => Failure(e)
      case Success(t) =>
        var name := names[|names| - 1];
        match score(name)
        case Failure(e) => Failure(e)
        case Success(v) => Success(StoreIn(t, name, v.0, v.1))
  }

  /** What the script writes: the combined table, the standings and the pairwise summary. */
  datatype Outputs = Outputs(combined: seq<ScoreRow>, standings: seq<Standings.Standing>, pairwise: seq<Pairwise.PairRow>)

  /** Lines 74-217 as a value. */
  function Pipeline(file: seq<NamedSheet>, requested: seq<string>, idToCage: map<string, string>,
                    cageToStrain: map<string, string>, engine: CleanSheet -> seq<EngineRow>): (r: Result<Outputs, Failure>)
    ensures |Selected(file, requested)| == 0 ==> r == Failure(NothingToCombine)
  {
    var names := Selected(file, requested);
    var score := SheetScorer(file, idToCage, engine);
    match ProcessSheets(names, score)
    case Failure(e) => Failure(e)
    case Success(t) =>
      ProcessedWellKeyed(names, score);
      if |t.order| == 0 then Failure(NothingToCombine)
      else
        var all := AddStrains(ConcatIn(t.order, t.scored), cageToStrain);
        Success(Outputs(all, Standings.Table(all), Pairwise.Summary(all)))
  }

  /** The sheet tables the loop fills: `sheet_df_dict` and `elo_df_dict`, with their shared key order. */
  class SheetTables {
    var cleaned: map<string, CleanSheet>
    var scored: map<string, seq<ScoreRow>>
    var order: seq<string>

    ghost predicate Valid()
      reads this
    {
      WellKeyed(Stored(cleaned, scored, order))
    }

    constructor ()
      ensures Valid()
      ensures cleaned == map[] && scored == map[] && order == []
    {
      cleaned := map[];
      scored := map[];
      order := [];
    }

    /** Lines 88 and 148: store a sheet's tables under its name. */
    method Store(name: string, c: CleanSheet, s: seq<ScoreRow>)
      requires Valid()
      modifies this
      ensures Valid()
      ensures Stored(cleaned, scored, order) == StoreIn(Stored(old(cleaned), old(scored), old(order)), name, c, s)
    {
      cleaned := cleaned[name := c];
      scored := scored[name := s];
      if name !in order {
        order := order + [name];
      }
    }

    /** Line 161: the rated tables, concatenated in insertion order. */
    function Combined(): (r: seq<ScoreRow>)
      reads this
      requires Valid()
      ensures forall x :: x in r <==> exists k :: 0 <= k < |order| && x in scored[order[k]]
    {
      ConcatIn(order, scored)
    }
  }

  /** The loop leaves both dictionaries with the keys of the order list, once each. */
  lemma {:induction false} ProcessedWellKeyed(names: seq<string>, score: Scorer)
    requires ProcessSheets(names, score).Success?
    ensures WellKeyed(ProcessSheets(names, score).value)
    decreases |names|
  {
    if |names| > 0 {
      ProcessedWellKeyed(names[..|names| - 1], score);
    }
  }

  /** A failure ends the loop: every longer prefix fails with the same error. */
  lemma {:induction false} FailureStops(names: seq<string>, score: Scorer, i: nat)
    requires i <= |names| && ProcessSheets(names[..i], score).Failure?
    ensures ProcessSheets(names, score) == ProcessSheets(names[..i], score)
    decreases |names| - i
  {
    if i < |names| {
      assert names[..i + 1][..i] == names[..i];
      FailureStops(names, score, i + 1);
    } else {
      assert names[..i] == names;
    }
  }

  /** One more sheet: the loop over one more name stops on its failure or stores its tables. */
  lemma ProcessStep(names: seq<string>, score: Scorer, i: nat)
    requires i < |names| && ProcessSheets(names[..i], score).Success?
    ensures var t := ProcessSheets(names[..i], score).value;
            ProcessSheets(names[..i + 1], score) ==
              match score(names[i])
              case Failure(e) => Failure(e)
              case Success(v) => Success(StoreIn(t, names[i], v.0, v.1))
  {
    assert names[..i + 1][..i] == names[..i];
  }

  /** Lines 84-154: process the sheets `names` one by one into fresh tables, stopping at the first failure. */
  method Collect(names: seq<string>, score: Scorer) returns (result: Result<SheetTables, Failure>)
    ensures result.Failure? <==> ProcessSheets(names, score).Failure?
    ensures result.Failure? ==> result.error == ProcessSheets(names, score).error
    ensures result.Success? ==>
              (result.value.Valid() &&
               Stored(result.value.cleaned, result.value.scored, result.value.order) == ProcessSheets(names, score).value)
  {
    var tables := new SheetTables();
    var i := 0;
    while i < |names|
      invariant 0 <= i <= |names|
      invariant tables.Valid()
      invariant ProcessSheets(names[..i], score) == Success(Stored(tables.cleaned, tables.scored, tables.order))
    {
      var step := score(names[i]);
      ProcessStep(names, score, i);
      if step.Failure? {
        FailureStops(names, score, i + 1);
        return Failure(step.error);
      }
      tables.Store(names[i], step.value.0, step.value.1);
      i := i + 1;
    }
    assert names[..i] == names;
    result := Success(tables);
  }

  /** Lines 74-217: process the selected sheets, then combine, rank and summarise. */
  method Run(file: seq<NamedSheet>, requested: seq<string>, idToCage: map<string, string>,
             cageToStrain: map<string, string>, engine: CleanSheet -> seq<EngineRow>) returns (result: Result<Outputs, Failure>)
    ensures result == Pipeline(file, requested, idToCage, cageToStrain, engine)
  {
    var names := Selected(file, requested);
    var collected := Collect(names, SheetScorer(file, idToCage, engine));
    if collected.Failure? {
      return Failure(collected.error);
    }
    var tables := collected.value;
    if |tables.order| == 0 {
      return Failure(NothingToCombine);
    }
    var combined := AddStrains(tables.Combined(), cageToStrain);
    var summary := Pairwise.Aggregate(combined);
    result := Success(Outputs(combined, Standings.Table(combined), summary));
  }

  // ---- What the loop computes ----

  function Name(n: string): string { n }

  /** Keeping first occurrences of names keeps exactly the names. */
  lemma FirstNamesMembers(names: seq<string>)
    ensures forall n :: n in Dedup.DropDuplicates(names, Name, false) <==> n in names
  {
    var r := Dedup.DropDuplicates(names, Name, false);
    forall n | n in names
      ensures n in r
    {
      var i :| 0 <= i < |names| && names[i] == n;
      Dedup.KeyRetainedOnce(names, Name, false, i);
    }
  }

  /**
   * Lines 84-154: after the loop the dictionaries list each selected sheet
   * once, in the order the sheets were first named; a sheet named twice is
   * processed twice but keeps its first place.
   */
  lemma {:induction false} ProcessedOrder(names: seq<string>, score: Scorer)
    requires ProcessSheets(names, score).Success?
    ensures ProcessSheets(names, score).value.order == Dedup.DropDuplicates(names, Name, false)
    decreases |names|
  {
    if |names| == 0 {
      assert Dedup.DropDuplicates(names, Name, false) == [];
    } else {
      var init := names[..|names| - 1];
      var x := names[|names| - 1];
      assert names == init + [x];
      ProcessedOrder(init, score);
      FirstNamesMembers(init);
      Dedup.AppendKeepFirst(init, Name, x);
      assert (exists i :: 0 <= i < |init| && Name(init[i]) == Name(x)) <==> x in init by {
        assert x in init <==> exists i :: 0 <= i < |init| && init[i] == x;
      }
    }
  }

  /** Lines 86-154: each stored sheet holds the tables that sheet produces. */
  lemma {:induction false} ProcessedContents(names: seq<string>, score: Scorer)
    requires ProcessSheets(names, score).Success?
    ensures var t := ProcessSheets(names, score).value;
            forall n :: n in t.order ==>
              (n in t.cleaned && n in t.scored && score(n) == Success((t.cleaned[n], t.scored[n])))
    decreases |names|
  {
    if |names| > 0 {
      ProcessedContents(names[..|names| - 1], score);
      ProcessedWellKeyed(names[..|names| - 1], score);
    }
  }

  /** Lines 84-154: the loop completes exactly when every selected sheet can be processed. */
  lemma {:induction false} ProcessSucceedsIffEverySheet(names: seq<string>, score: Scorer)
    ensures ProcessSheets(names, score).Success? <==> forall k :: 0 <= k < |names| ==> score(names[k]).Success?
    decreases |names|
  {
    if |names| > 0 {
      var init := names[..|names| - 1];
      ProcessSucceedsIffEverySheet(init, score);
      assert forall k :: 0 <= k < |init| ==> init[k] == names[k];
    }
  }

  /** Lines 84-154: when the loop stops, it reports the error of the first selected sheet that fails. */
  lemma {:induction false} FirstFailureReported(names: seq<string>, score: Scorer) returns (k: nat)
    requires ProcessSheets(names, score).Failure?
    ensures k < |names| && score(names[k]) == Failure(ProcessSheets(names, score).error)
    ensures forall j :: 0 <= j < k ==> score(names[j]).Success?
    decreases |names|
  {
    var init := names[..|names| - 1];
    assert forall j :: 0 <= j < |init| ==> init[j] == names[j];
    if ProcessSheets(init, score).Failure? {
      k := FirstFailureReported(init, score);
    } else {
      ProcessSucceedsIffEverySheet(init, score);
      k := |names| - 1;
    }
  }

  /** The rated rows of the sheets `order` names, concatenated in that order. */
  function SheetRows(order: seq<string>, score: Scorer): seq<ScoreRow>
    requires forall n :: n in order ==> score(n).Success?
  {
    if |order| == 0 then [] else score(order[0]).value.1 + SheetRows(order[1..], score)
  }

  lemma {:induction false} ConcatStored(order: seq<string>, scored: map<string, seq<ScoreRow>>, score: Scorer)
    requires forall n :: n in order ==> (n in scored && score(n).Success? && score(n).value.1 == scored[n])
    ensures ConcatIn(order, scored) == SheetRows(order, score)
  {
    if |order| > 0 {
      ConcatStored(order[1..], scored, score);
    }
  }

  /** Lines 74-161: the script stops with an error exactly when a selected sheet fails or no sheet is selected. */
  lemma PipelineSucceeds(file: seq<NamedSheet>, requested: seq<string>, idToCage: map<string, string>,
                         cageToStrain: map<string, string>, engine: CleanSheet -> seq<EngineRow>)
    ensures var names := Selected(file, requested);
            Pipeline(file, requested, idToCage, cageToStrain, engine).Success? <==>
            |names| > 0 && forall k :: 0 <= k < |names| ==> ScoreSheet(file, names[k], idToCage, engine).Success?
  {
    var names := Selected(file, requested);
    var score := SheetScorer(file, idToCage, engine);
    ProcessSucceedsIffEverySheet(names, score);
    if ProcessSheets(names, score).Success? {
      ProcessedOrder(names, score);
      FirstNamesMembers(names);
      assert |names| > 0 ==> names[0] in ProcessSheets(names, score).value.order;
    }
  }

  /**
   * Lines 161-217: the combined table is the rated rows of each selected
   * sheet once, in the order first named, with the strain columns, and the
   * standings and summary are computed from it.
   */
  lemma PipelineOutputs(file: seq<NamedSheet>, requested: seq<string>, idToCage: map<string, string>,
                        cageToStrain: map<string, string>, engine: CleanSheet -> seq<EngineRow>)
    requires Pipeline(file, requested, idToCage, cageToStrain, engine).Success?
    ensures var score := SheetScorer(file, idToCage, engine);
            var order := Dedup.DropDuplicates(Selected(file, requested), Name, false);
            var r := Pipeline(file, requested, idToCage, cageToStrain, engine).value;
            && (forall n :: n in order ==> score(n).Success?)
            && r.combined == AddStrains(SheetRows(order, score), cageToStrain)
            && r.standings == Standings.Table(r.combined)
            && r.pairwise == Pairwise.Summary(r.combined)
  {
    var names := Selected(file, requested);
    var score := SheetScorer(file, idToCage, engine);
    var t := ProcessSheets(names, score).value;
    ProcessedOrder(names, score);
    ProcessedContents(names, score);
    ConcatStored(t.order, t.scored, score);
  }
}
