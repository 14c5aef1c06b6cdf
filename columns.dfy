/**
 * Column operations of the per-sheet cleaning: forward fill, the tie flag,
 * the session-boundary marker and the cage and strain lookups.
 */
module Columns {
  import opened Wrappers

  // ---------------------------------------------------------------- forward fill

  /** Reference definition: the nearest present cell at or before `i`, found scanning backwards. */
  function NearestPresent<T>(col: seq<Option<T>>, i: nat): (r: Option<nat>)
    requires i < |col|
    ensures r.Some? ==> r.value <= i && col[r.value].Some? && forall k :: r.value < k <= i ==> col[k].None?
    ensures r.None? ==> forall k :: 0 <= k <= i ==> col[k].None?
  {
    if col[i].Some? then Some(i)
    else if i == 0 then None
    else NearestPresent(col, i - 1)
  }

  /** The value forward fill should leave at `i`. */
  function Carried<T>(col: seq<Option<T>>, i: nat): Option<T>
    requires i < |col|
  {
    match NearestPresent(col, i)
    case Some(j) => col[j]
    case None => None
  }

  /** Forward fill from `i` on, carrying the value last seen (`fillna(method='ffill')` runs front to back). */
  function FillFrom<T>(col: seq<Option<T>>, i: nat, seen: Option<T>): (r: seq<Option<T>>)
    requires i <= |col|
    requires i == 0 ==> seen.None?
    requires i > 0 ==> seen == Carried(col, i - 1)
    ensures |r| == |col| - i
    ensures forall k :: i <= k < |col| ==> r[k - i] == Carried(col, k)
    decreases |col| - i
  {
    if i == |col| then []
    else
      var v := if col[i].Some? then col[i] else seen;
      [v] + FillFrom(col, i + 1, v)
  }

  /** `Series.fillna(method='ffill')` (lines 104 and 111). */
  function ForwardFill<T>(col: seq<Option<T>>): (r: seq<Option<T>>)
    ensures |r| == |col|
    ensures forall i :: 0 <= i < |col| ==> r[i] == Carried(col, i)
  {
    FillFrom(col, 0, None)
  }

  /**
   * Forward fill keeps every present cell, gives a missing cell the nearest
   * earlier present value, and leaves a cell missing exactly when it and all
   * cells before it are missing.
   */
  lemma ForwardFillSpec<T>(col: seq<Option<T>>, i: nat)
    requires i < |col|
    ensures col[i].Some? ==> ForwardFill(col)[i] == col[i]
    ensures ForwardFill(col)[i].None? <==> forall k :: 0 <= k <= i ==> col[k].None?
    ensures col[i].None? && ForwardFill(col)[i].Some? ==>
              exists j :: 0 <= j < i && col[j] == ForwardFill(col)[i] && forall k :: j < k <= i ==> col[k].None?
  {
    var r := ForwardFill(col);
    match NearestPresent(col, i)
    case Some(j) =>
      assert r[i] == col[j];
    case None =>
  }

  /** A column with no missing cell is left as it is. */
  lemma ForwardFillComplete<T>(col: seq<Option<T>>)
    requires forall i :: 0 <= i < |col| ==> col[i].Some?
    ensures ForwardFill(col) == col
  {
    var r := ForwardFill(col);
    forall i | 0 <= i < |col| ensures r[i] == col[i] {
      ForwardFillSpec(col, i);
    }
  }

  // ---------------------------------------------------------------- tie flag

  /** A spreadsheet cell of the `ties` column. */
  datatype Cell = Number(n: int) | Text(t: string) | Flag(b: bool)

  /** `fillna(0).astype(bool)` on one cell: a missing cell is `False`, otherwise Python truthiness. */
  function TieFlag(c: Option<Cell>): (b: bool)
    ensures c.None? ==> !b
    ensures c.Some? && c.value.Flag? ==> b == c.value.b
    ensures c.Some? && c.value.Number? ==> (b <==> c.value.n != 0)
    ensures c.Some? && c.value.Text? ==> (b <==> c.value.t != "")
  {
    match c
    case None => false
    case Some(Number(n)) => n != 0
    case Some(Text(t)) => |t| > 0
    case Some(Flag(b)) => b
  }

  /** The `ties` column after line 119. */
  function TieColumn(col: seq<Option<Cell>>): (r: seq<bool>)
    ensures |r| == |col|
    ensures forall i :: 0 <= i < |col| && col[i].None? ==> !r[i]
    ensures forall i :: 0 <= i < |col| && col[i].Some? && col[i].value.Flag? ==> r[i] == col[i].value.b
  {
    seq(|col|, i requires 0 <= i < |col| => TieFlag(col[i]))
  }

  // ---------------------------------------------------------------- session markers

  /** The distinct present session keys. */
  function Present(keys: seq<Option<int>>): set<int>
  {
    set j | 0 <= j < |keys| && keys[j].Some? :: keys[j].value
  }

  /** The present session keys below `x`. */
  function Below(keys: seq<Option<int>>, x: int): set<int>
  {
    set j | 0 <= j < |keys| && keys[j].Some? && keys[j].value < x :: keys[j].value
  }

  /**
   * `astype('category').cat.codes`: the position of a key among the sorted
   * distinct present keys, and -1 for a missing key.
   */
  function Code(keys: seq<Option<int>>, k: Option<int>): int
  {
    match k
    case None => -1
    case Some(x) => |Below(keys, x)|
  }

  /** The code column of the session keys. */
  function Codes(keys: seq<Option<int>>): (c: seq<int>)
    ensures |c| == |keys| && forall i :: 0 <= i < |keys| ==> c[i] == Code(keys, keys[i])
  {
    seq(|keys|, i requires 0 <= i < |keys| => Code(keys, keys[i]))
  }

  /** `diff().fillna(1)`: the difference from the previous row, and 1 for the first row. */
  function Diff(c: seq<int>): (d: seq<int>)
    ensures |d| == |c|
    ensures |c| > 0 ==> d[0] == 1
    ensures forall i :: 0 < i < |c| ==> d[i] == c[i] - c[i - 1]
  {
    seq(|c|, i requires 0 <= i < |c| => if i == 0 then 1 else c[i] - c[i - 1])
  }

  /** Lines 126-127: the session-boundary marker column. */
  function SessionMarkers(keys: seq<Option<int>>): (m: seq<int>)
    ensures |m| == |keys|
    ensures |keys| > 0 ==> m[0] == 1
  {
    Diff(Codes(keys))
  }

  /** `a <= b` on session keys, a missing key first (as its code -1 sorts). */
  predicate KeyLe(a: Option<int>, b: Option<int>)
  {
    a.None? || (b.Some? && a.value <= b.value)
  }

  ghost predicate NonDecreasing(keys: seq<Option<int>>)
  {
    forall i, j :: 0 <= i < j < |keys| ==> KeyLe(keys[i], keys[j])
  }

  /** Codes respect the order of present keys. */
  lemma CodeMonotone(keys: seq<Option<int>>, x: int, y: int)
    requires Some(x) in keys && x < y
    ensures Code(keys, Some(x)) < Code(keys, Some(y))
  {
    var j :| 0 <= j < |keys| && keys[j] == Some(x);
    var lo, hi := Below(keys, x), Below(keys, y);
    assert lo <= hi;
    assert x in hi - lo;
    assert hi == lo + (hi - lo);
    assert |hi| == |lo| + |hi - lo|;
  }

  /** A marker is 0 exactly when the row repeats the previous row's key. */
  lemma MarkerZeroIffRepeat(keys: seq<Option<int>>, i: nat)
    requires 0 < i < |keys|
    ensures SessionMarkers(keys)[i] == 0 <==> keys[i] == keys[i - 1]
  {
    var a, b := keys[i - 1], keys[i];
    if a != b && a.Some? && b.Some? {
      if a.value < b.value {
        CodeMonotone(keys, a.value, b.value);
      } else {
        CodeMonotone(keys, b.value, a.value);
      }
    }
  }

  /** A key smaller than the previous one gives a negative marker, not a boundary flag. */
  lemma MarkerNegativeOnDrop(keys: seq<Option<int>>, i: nat)
    requires 0 < i < |keys| && keys[i].Some? && keys[i - 1].Some? && keys[i].value < keys[i - 1].value
    ensures SessionMarkers(keys)[i] < 0
  {
    CodeMonotone(keys, keys[i].value, keys[i - 1].value);
  }

  /** On non-decreasing keys, consecutive distinct keys have consecutive codes. */
  lemma SortedStep(keys: seq<Option<int>>, i: nat)
    requires NonDecreasing(keys) && 0 < i < |keys| && keys[i] != keys[i - 1]
    ensures Code(keys, keys[i]) == Code(keys, keys[i - 1]) + 1
  {
    var y := keys[i].value;
    assert keys[i].Some?;
    if keys[i - 1].None? {
      assert Below(keys, y) == {} by {
        forall v | v in Below(keys, y) ensures false {
        }
      }
    } else {
      var x := keys[i - 1].value;
      BelowNext(keys, i);
      assert x !in Below(keys, x);
    }
  }

  /** On non-decreasing keys, the keys below a new key are those below the previous key, and that key. */
  lemma BelowNext(keys: seq<Option<int>>, i: nat)
    requires NonDecreasing(keys) && 0 < i < |keys| && keys[i] != keys[i - 1] && keys[i - 1].Some?
    ensures keys[i].Some? && keys[i - 1].value < keys[i].value
    ensures Below(keys, keys[i].value) == Below(keys, keys[i - 1].value) + {keys[i - 1].value}
  {
    assert KeyLe(keys[i - 1], keys[i]);
    var x, y := keys[i - 1].value, keys[i].value;
    forall v | v in Below(keys, y) ensures v in Below(keys, x) + {x} {
      var j :| 0 <= j < |keys| && keys[j].Some? && keys[j].value < y && keys[j].value == v;
      if j < i {
        assert j == i - 1 || KeyLe(keys[j], keys[i - 1]);
      }
    }
    assert x in Below(keys, y);
  }

  /** On non-decreasing keys every marker is 1 at a session start and 0 elsewhere. */
  lemma SortedMarkersAreFlags(keys: seq<Option<int>>, i: nat)
    requires NonDecreasing(keys) && i < |keys|
    ensures SessionMarkers(keys)[i] == if i == 0 || keys[i] != keys[i - 1] then 1 else 0
  {
    if i > 0 && keys[i] != keys[i - 1] {
      SortedStep(keys, i);
    }
  }

  /** The number of ones in a column of markers. */
  function Ones(m: seq<int>): nat
  {
    if |m| == 0 then 0 else Ones(m[..|m| - 1]) + (if m[|m| - 1] == 1 then 1 else 0)
  }

  /** When every step of `c` is 0 or 1, the ones of its differences add up to its rise. */
  lemma {:induction false} OnesOfDiff(c: seq<int>, n: nat)
    requires 0 < n <= |c|
    requires forall i :: 0 < i < |c| ==> c[i] - c[i - 1] in {0, 1}
    ensures Ones(Diff(c)[..n]) == 1 + c[n - 1] - c[0]
  {
    var d := Diff(c);
    if n > 1 {
      OnesOfDiff(c, n - 1);
      assert d[..n][..n - 1] == d[..n - 1];
      assert c[n - 1] - c[n - 2] in {0, 1};
    } else {
      assert d[..1][..0] == [];
    }
  }

  /** The least key of a non-decreasing sequence has code -1 or 0. */
  lemma FirstCode(keys: seq<Option<int>>)
    requires NonDecreasing(keys) && |keys| > 0
    ensures Code(keys, keys[0]) == if keys[0].Some? then 0 else -1
    ensures keys[0].Some? ==> None !in keys
  {
    var first := keys[0];
    if first.Some? {
      assert Below(keys, first.value) == {} by {
        forall v | v in Below(keys, first.value) ensures false {
          var j :| 0 <= j < |keys| && keys[j].Some? && keys[j].value < first.value && keys[j].value == v;
        }
      }
      assert forall j :: 0 <= j < |keys| ==> keys[j] != None;
    }
  }

  /** The greatest key of a non-decreasing sequence has the highest code. */
  lemma LastCode(keys: seq<Option<int>>)
    requires NonDecreasing(keys) && |keys| > 0
    ensures Code(keys, keys[|keys| - 1]) == |Present(keys)| - 1
    ensures keys[|keys| - 1].None? ==> None in keys
  {
    var n := |keys|;
    var last := keys[n - 1];
    if last.Some? {
      var y := last.value;
      assert Below(keys, y) == Present(keys) - {y} by {
        forall v | v in Present(keys) ensures v <= y {
          var j :| 0 <= j < n && keys[j].Some? && keys[j].value == v;
          assert j == n - 1 || KeyLe(keys[j], keys[n - 1]);
        }
      }
      assert y in Present(keys);
    } else {
      assert Present(keys) == {} by {
        forall v | v in Present(keys) ensures false {
        }
      }
    }
  }

  /**
   * On non-decreasing keys the markers flag exactly one row per session: the
   * number of ones is the number of distinct keys (a missing key counting
   * as one more session).
   */
  lemma SortedMarkerCount(keys: seq<Option<int>>)
    requires NonDecreasing(keys)
    ensures Ones(SessionMarkers(keys)) == |Present(keys)| + (if None in keys then 1 else 0)
  {
    var c := Codes(keys);
    var n := |keys|;
    if n > 0 {
      forall i | 0 < i < n ensures c[i] - c[i - 1] in {0, 1} {
        SortedMarkersAreFlags(keys, i);
      }
      OnesOfDiff(c, n);
      assert Diff(c)[..n] == Diff(c);
      FirstCode(keys);
      LastCode(keys);
    } else {
      assert Present(keys) == {};
    }
  }

  // ---------------------------------------------------------------- cage and strain lookups

  /** `id_to_cage.get(id, sheet_name)` (lines 131-132 and 153-154). */
  function CageOf(idToCage: map<string, string>, sheet: string, id: string): (cage: string)
    ensures id in idToCage ==> cage == idToCage[id]
    ensures id !in idToCage ==> cage == sheet
  {
    if id in idToCage then idToCage[id] else sheet
  }

  /** `Series.replace(cage_to_strain)` on one cell (lines 170-171): the mapped value, else the id. */
  function StrainOf(cageToStrain: map<string, string>, id: string): (strain: string)
    ensures id in cageToStrain ==> strain == cageToStrain[id]
    ensures id !in cageToStrain ==> strain == id
  {
    if id in cageToStrain then cageToStrain[id] else id
  }
}
