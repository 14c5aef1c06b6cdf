/**
 * Identity-token extraction from a winner or loser cell: the first item of
 * Python's `re.findall(r"[-+]?(?:\d*\.\d+|\d+)", cell)`, or the cell itself
 * when nothing matches.
 */
module Tokens {
  import opened Wrappers

  predicate IsDigit(c: char) { '0' <= c <= '9' }

  predicate IsSign(c: char) { c == '+' || c == '-' }

  predicate AllDigits(s: string) { forall i :: 0 <= i < |s| ==> IsDigit(s[i]) }

  /** The strings matched by `\d*\.\d+|\d+`. */
  predicate IsUnsignedNumeral(u: string)
  {
    (|u| > 0 && AllDigits(u)) ||
    (exists i :: 0 <= i < |u| - 1 && u[i] == '.' && AllDigits(u[..i]) && AllDigits(u[i + 1..]))
  }

  /** The strings matched by the whole pattern `[-+]?(?:\d*\.\d+|\d+)`. */
  predicate IsNumeral(t: string)
  {
    IsUnsignedNumeral(t) || (|t| > 0 && IsSign(t[0]) && IsUnsignedNumeral(t[1..]))
  }

  /** Length of the run of digits that starts at `j` (what a greedy `\d*` takes). */
  function DigitRun(s: string, j: nat): (n: nat)
    requires j <= |s|
    ensures j + n <= |s| && AllDigits(s[j..j + n])
    ensures j + n < |s| ==> !IsDigit(s[j + n])
    decreases |s| - j
  {
    if j < |s| && IsDigit(s[j]) then
      var n := DigitRun(s, j + 1);
      assert s[j..j + 1 + n] == [s[j]] + s[j + 1..j + 1 + n];
      1 + n
    else 0
  }

  /**
   * The length of Python's match of `\d*\.\d+|\d+` at `j`: the first
   * alternative is tried first, every repetition is greedy.
   */
  function UnsignedAt(s: string, j: nat): (m: Option<nat>)
    requires j <= |s|
    ensures m.Some? ==> j + m.value <= |s| && IsUnsignedNumeral(s[j..j + m.value])
  {
    var d := DigitRun(s, j);
    if j + d + 1 < |s| && s[j + d] == '.' && IsDigit(s[j + d + 1]) then
      var e := DigitRun(s, j + d + 1);
      var u := s[j..j + d + 1 + e];
      Slices(s, j, j + d, j + d + 1 + e);
      Slices(s, j, j + d + 1, j + d + 1 + e);
      assert 0 <= d < |u| - 1 && u[d] == '.' && AllDigits(u[..d]) && AllDigits(u[d + 1..]);
      Some(d + 1 + e)
    else if d > 0 then Some(d)
    else None
  }

  /** A piece of a slice is the slice of the corresponding piece. */
  lemma Slices(s: string, a: nat, b: nat, c: nat)
    requires a <= b <= c <= |s|
    ensures s[a..c][..b - a] == s[a..b] && s[a..c][b - a..] == s[b..c]
  {
  }

  /** The length of Python's match of the whole pattern at `p`: an optional sign is tried first. */
  function MatchAt(s: string, p: nat): (m: Option<nat>)
    requires p <= |s|
    ensures m.Some? ==> p + m.value <= |s| && IsNumeral(s[p..p + m.value])
  {
    if p < |s| && IsSign(s[p]) then
      match UnsignedAt(s, p + 1)
      case Some(n) =>
        var t := s[p..p + n + 1];
        assert t[0] == s[p] && t[1..] == s[p + 1..p + 1 + n];
        assert IsUnsignedNumeral(t[1..]);
        Some(n + 1)
      case None => None
    else UnsignedAt(s, p)
  }

  /** Start and length of the leftmost match at or after `p`, scanning as `re.findall` does. */
  function SearchFrom(s: string, p: nat): (r: Option<(nat, nat)>)
    requires p <= |s|
    ensures r.None? ==> forall q :: p <= q < |s| ==> MatchAt(s, q).None?
    ensures r.Some? ==> p <= r.value.0 < |s| && MatchAt(s, r.value.0) == Some(r.value.1)
    ensures r.Some? ==> forall q :: p <= q < r.value.0 ==> MatchAt(s, q).None?
    decreases |s| - p
  {
    if p == |s| then None
    else match MatchAt(s, p)
      case Some(n) => Some((p, n))
      case None => SearchFrom(s, p + 1)
  }

  /** The cleaned identity of a winner or loser cell (lines 96-97). */
  function Token(cell: string): (t: string)
    ensures |t| <= |cell|
    ensures t != cell ==> IsNumeral(t)
  {
    match SearchFrom(cell, 0)
    case Some((p, n)) => cell[p..p + n]
    case None => cell
  }

  /** An unsigned numeral starts with a digit or the point. */
  lemma UnsignedStart(u: string)
    requires IsUnsignedNumeral(u)
    ensures |u| > 0 && (IsDigit(u[0]) || u[0] == '.')
  {
    if !(|u| > 0 && AllDigits(u)) {
      var i :| 0 <= i < |u| - 1 && u[i] == '.' && AllDigits(u[..i]) && AllDigits(u[i + 1..]);
      if i > 0 { assert u[..i][0] == u[0]; }
    }
  }

  /** A run of digits from `j` to `k` is covered by the greedy run at `j`. */
  lemma DigitRunCovers(s: string, j: nat, k: nat)
    requires j <= k <= |s| && AllDigits(s[j..k])
    ensures DigitRun(s, j) >= k - j
  {
    var d := DigitRun(s, j);
    assert forall i :: j <= i < k ==> s[j..k][i - j] == s[i];
  }

  /** A numeral with a point at `i` is matched by the first alternative, at least up to `k`. */
  lemma PointedCovers(s: string, j: nat, k: nat, i: nat)
    requires j <= k <= |s| && i < k - j - 1
    requires s[j + i] == '.' && AllDigits(s[j..j + i]) && AllDigits(s[j + i + 1..k])
    ensures UnsignedAt(s, j).Some? && k - j <= UnsignedAt(s, j).value
  {
    var d := DigitRun(s, j);
    DigitRunCovers(s, j, j + i);
    assert d == i;
    assert IsDigit(s[j + i + 1]) by {
      assert s[j + i + 1..k][0] == s[j + i + 1];
    }
    DigitRunCovers(s, j + i + 1, k);
  }

  /** No unsigned numeral starting at `j` is longer than Python's match there. */
  lemma UnsignedCovers(s: string, j: nat, k: nat)
    requires j <= k <= |s| && IsUnsignedNumeral(s[j..k])
    ensures UnsignedAt(s, j).Some? && k - j <= UnsignedAt(s, j).value
  {
    var u := s[j..k];
    if |u| > 0 && AllDigits(u) {
      DigitRunCovers(s, j, k);
    } else {
      var i :| 0 <= i < |u| - 1 && u[i] == '.' && AllDigits(u[..i]) && AllDigits(u[i + 1..]);
      assert u[..i] == s[j..j + i] && u[i + 1..] == s[j + i + 1..k];
      PointedCovers(s, j, k, i);
    }
  }

  /**
   * Python's match at `p` is the longest string of the pattern's language
   * that starts at `p`, and there is one whenever any string of the language
   * starts there.
   */
  lemma MatchAtLongest(s: string, p: nat, k: nat)
    requires p <= k <= |s| && IsNumeral(s[p..k])
    ensures MatchAt(s, p).Some? && k <= p + MatchAt(s, p).value
  {
    var t := s[p..k];
    if p < |s| && IsSign(s[p]) {
      assert t[0] == s[p];
      if IsUnsignedNumeral(t) {
        UnsignedStart(t);
      }
      assert t[1..] == s[p + 1..k];
      UnsignedCovers(s, p + 1, k);
    } else {
      if |t| > 0 { assert t[0] == s[p]; }
      UnsignedCovers(s, p, k);
    }
  }

  /**
   * Token extraction picks the leftmost-longest occurrence of the pattern's
   * language (which is what Python's `re` yields for this pattern), and
   * leaves a cell with no occurrence unchanged.
   */
  ghost predicate LeftmostLongest(cell: string, p: nat, t: string)
  {
    && OccursAt(cell, p, t)
    && IsNumeral(t)
    && (forall q, k :: 0 <= q < p && q <= k <= |cell| ==> !IsNumeral(cell[q..k]))
    && (forall k :: p + |t| < k <= |cell| ==> !IsNumeral(cell[p..k]))
  }

  /** `t` is the piece of `cell` that starts at `p`. */
  ghost predicate OccursAt(cell: string, p: nat, t: string)
  {
    p + |t| <= |cell| && cell[p..p + |t|] == t
  }

  ghost predicate HasNumeral(cell: string)
  {
    exists q, k :: 0 <= q <= k <= |cell| && IsNumeral(cell[q..k])
  }

  /** When the scan finds a match, no numeral starts earlier and none is longer. */
  lemma {:induction false} FoundIsLeftmostLongest(cell: string, p: nat, n: nat)
    requires SearchFrom(cell, 0) == Some((p, n))
    ensures LeftmostLongest(cell, p, Token(cell))
  {
    var t := cell[p..p + n];
    assert |t| == n && Token(cell) == t;
    NoEarlierNumeral(cell, p);
    NoLongerNumeral(cell, p, n);
  }

  /** No numeral starts before a position where no scan step matched. */
  lemma NoEarlierNumeral(cell: string, p: nat)
    requires p <= |cell| && forall q :: 0 <= q < p ==> MatchAt(cell, q).None?
    ensures forall q, k :: 0 <= q < p && q <= k <= |cell| ==> !IsNumeral(cell[q..k])
  {
    forall q, k | 0 <= q < p && q <= k <= |cell| ensures !IsNumeral(cell[q..k]) {
      if IsNumeral(cell[q..k]) { MatchAtLongest(cell, q, k); }
    }
  }

  /** No numeral at `p` is longer than the match there. */
  lemma NoLongerNumeral(cell: string, p: nat, n: nat)
    requires p <= |cell| && MatchAt(cell, p) == Some(n)
    ensures forall k :: p + n < k <= |cell| ==> !IsNumeral(cell[p..k])
  {
    forall k | p + n < k <= |cell| ensures !IsNumeral(cell[p..k]) {
      if IsNumeral(cell[p..k]) { MatchAtLongest(cell, p, k); }
    }
  }

  /** When the scan finds nothing, the cell holds no numeral at all. */
  lemma {:induction false} NotFoundHasNoNumeral(cell: string)
    requires SearchFrom(cell, 0).None?
    ensures !HasNumeral(cell)
  {
    forall q, k | 0 <= q <= k <= |cell| ensures !IsNumeral(cell[q..k]) {
      if IsNumeral(cell[q..k]) {
        MatchAtLongest(cell, q, k);
      }
    }
  }

  lemma TokenSpec(cell: string)
    ensures HasNumeral(cell) ==> exists p :: LeftmostLongest(cell, p, Token(cell))
    ensures !HasNumeral(cell) ==> Token(cell) == cell
  {
    match SearchFrom(cell, 0)
    case Some((p, n)) =>
      FoundIsLeftmostLongest(cell, p, n);
    case None =>
      NotFoundHasNoNumeral(cell);
  }

  /** The token is a contiguous piece of the cell (or the cell itself). */
  lemma TokenIsSubstring(cell: string)
    ensures exists p :: OccursAt(cell, p, Token(cell))
  {
    match SearchFrom(cell, 0)
    case Some((p, n)) =>
      assert OccursAt(cell, p, Token(cell));
    case None =>
      assert cell[0..|cell|] == cell;
      assert OccursAt(cell, 0, Token(cell));
  }

  /** Every numeral holds a digit. */
  lemma NumeralDigit(t: string) returns (c: nat)
    requires IsNumeral(t)
    ensures c < |t| && IsDigit(t[c])
  {
    var off := if IsUnsignedNumeral(t) then 0 else 1;
    var u := t[off..];
    assert IsUnsignedNumeral(u);
    if |u| > 0 && AllDigits(u) {
      assert IsDigit(u[0]);
      c := off;
    } else {
      var i :| 0 <= i < |u| - 1 && u[i] == '.' && AllDigits(u[..i]) && AllDigits(u[i + 1..]);
      assert IsDigit(u[i + 1..][0]);
      assert u[i + 1..][0] == u[i + 1];
      c := off + i + 1;
    }
  }

  /** A cell without a digit has no numeral, so it is kept as it is. */
  lemma NoDigitKept(cell: string)
    requires forall i :: 0 <= i < |cell| ==> !IsDigit(cell[i])
    ensures Token(cell) == cell
  {
    forall q, k | 0 <= q <= k <= |cell| ensures !IsNumeral(cell[q..k]) {
      if IsNumeral(cell[q..k]) {
        var c := NumeralDigit(cell[q..k]);
      }
    }
    TokenSpec(cell);
  }

  /** Cleaning a cleaned cell changes nothing. */
  lemma TokenIdempotent(cell: string)
    ensures Token(Token(cell)) == Token(cell)
  {
    TokenSpec(cell);
    var t := Token(cell);
    if HasNumeral(cell) {
      assert IsNumeral(t);
      assert t[0..|t|] == t;
      MatchAtLongest(t, 0, |t|);
      var r := SearchFrom(t, 0);
      assert r.Some? && r.value.0 == 0;
    }
  }
}
