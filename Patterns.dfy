/**
 * The classifier's regular expressions, written out as matchers.
 *
 * Every pattern family has a predicate `...MatchAt(s, i)` that says whether
 * the pattern matches `s` starting at position `i`; the function `Search`
 * turns such a predicate into Python's `re.search`, the least start at which
 * it matches.  Where the pattern has alternatives, the matcher tries them in
 * the written order; where a greedy quantifier could give back characters,
 * the matcher lists the possible ends in the order a backtracking matcher
 * tries them.  All patterns are compiled with IGNORECASE, so literals are
 * compared through `FoldedAt`.
 */
module Patterns {
  import opened Text

  // ------------------------------------------------------------------ search

  /** The least start at or after `i` where `matchesAt` holds (a match may start at `|s|`). */
  function FirstFrom(matchesAt: (string, nat) -> bool, s: string, i: nat): (r: Option<nat>)
    decreases |s| + 1 - i
    ensures r.Some? ==> i <= r.value <= |s| && matchesAt(s, r.value)
  {
    if i > |s| then None
    else if matchesAt(s, i) then Some(i)
    else FirstFrom(matchesAt, s, i + 1)
  }

  /** `FirstFrom` skips only starts where the pattern does not match, and fails only when it matches nowhere. */
  lemma FirstFromLeast(matchesAt: (string, nat) -> bool, s: string, i: nat)
    decreases |s| + 1 - i
    ensures FirstFrom(matchesAt, s, i).Some? ==> forall j :: i <= j < FirstFrom(matchesAt, s, i).value ==> !matchesAt(s, j)
    ensures FirstFrom(matchesAt, s, i).None? ==> forall j :: i <= j <= |s| ==> !matchesAt(s, j)
  {
    if i <= |s| && !matchesAt(s, i) {
      FirstFromLeast(matchesAt, s, i + 1);
    }
  }

  /** Python's `pattern.search(s)`: the start of the leftmost match. */
  function Search(matchesAt: (string, nat) -> bool, s: string): Option<nat>
  {
    FirstFrom(matchesAt, s, 0)
  }

  /** The pattern matches somewhere in `s`. */
  predicate Occurs(matchesAt: (string, nat) -> bool, s: string)
  {
    exists j: nat :: j <= |s| && matchesAt(s, j)
  }

  /** `Search` finds a match exactly when there is one, and then the leftmost one. */
  lemma {:induction false} SearchIsLeftmost(matchesAt: (string, nat) -> bool, s: string)
    ensures Search(matchesAt, s).None? <==> !Occurs(matchesAt, s)
    ensures forall j: nat :: Search(matchesAt, s) == Some(j) <==>
              (j <= |s| && matchesAt(s, j) && forall k :: 0 <= k < j ==> !matchesAt(s, k))
  {
    var r := Search(matchesAt, s);
    FirstFromLeast(matchesAt, s, 0);
    forall j: nat
      ensures r == Some(j) <==> (j <= |s| && matchesAt(s, j) && forall k :: 0 <= k < j ==> !matchesAt(s, k))
    {
      if j <= |s| && matchesAt(s, j) && forall k :: 0 <= k < j ==> !matchesAt(s, k) {
        assert r.Some?;
        assert !(r.value < j);
        assert !(r.value > j);
      }
    }
  }

  /** `FirstFrom` skips a stretch without matches: a search can be evaluated piece by piece. */
  lemma FirstFromSkips(matchesAt: (string, nat) -> bool, s: string, i: nat, j: nat)
    requires i <= j <= |s| + 1
    requires forall k :: i <= k < j ==> !matchesAt(s, k)
    ensures FirstFrom(matchesAt, s, i) == FirstFrom(matchesAt, s, j)
    decreases j - i
  {
    if i < j {
      FirstFromSkips(matchesAt, s, i + 1, j);
    }
  }

  /** `\s+` and then the (lower-case) literal `lit`, from position `j`: the end of the literal. */
  function SpacesThen(s: string, j: nat, lit: string): (r: Option<nat>)
    ensures r.Some? ==> j < r.value <= |s|
  {
    if j < |s| && IsSpace(s[j]) && FoldedAt(s, SkipSpaces(s, j), lit)
    then Some(SkipSpaces(s, j) + |lit|)
    else None
  }

  // ------------------------------------------------------------------- grade

  /** The strings that the grade core `P[- ]?[1-6]|D[- ]?[1-2]` spells, case ignored. */
  predicate IsGradeToken(t: string)
  {
    (|t| == 2 || (|t| == 3 && (t[1] == '-' || t[1] == ' ')))
    && ((Lower(t[0]) == 'p' && '1' <= t[|t| - 1] <= '6') || (Lower(t[0]) == 'd' && '1' <= t[|t| - 1] <= '2'))
  }

  /**
   * After a grade letter, at position `j`: `[- ]?`, a digit in `lo..hi` and
   * `\b`.  The optional separator is greedy, so the separated reading is
   * tried first.
   */
  function GradeDigitEnd(s: string, j: nat, lo: char, hi: char): (r: Option<nat>)
    ensures r.Some? ==> j + 1 <= r.value <= j + 2 && r.value <= |s|
  {
    if j + 1 < |s| && (s[j] == '-' || s[j] == ' ') && lo <= s[j + 1] <= hi && WordBoundary(s, j + 2) then Some(j + 2)
    else if j < |s| && lo <= s[j] <= hi && WordBoundary(s, j + 1) then Some(j + 1)
    else None
  }

  /** `RE_GRADE`, that is `\b(?:P[- ]?[1-6]|D[- ]?[1-2])\b`, at position `i`: the end of its match. */
  function GradeAt(s: string, i: nat): (r: Option<nat>)
    ensures r.Some? ==> i + 2 <= r.value <= i + 3 && r.value <= |s|
  {
    if i < |s| && WordBoundary(s, i) && Lower(s[i]) == 'p' then GradeDigitEnd(s, i + 1, '1', '6')
    else if i < |s| && WordBoundary(s, i) && Lower(s[i]) == 'd' then GradeDigitEnd(s, i + 1, '1', '2')
    else None
  }

  predicate GradeMatchAt(s: string, i: nat)
  {
    GradeAt(s, i).Some?
  }

  /**
   * The matcher agrees with the pattern read as a set of strings: it matches
   * from `i` to `e` exactly when `s[i..e]` is a grade token with a word
   * boundary on both sides.
   */
  lemma GradeAtMeans(s: string, i: nat, e: nat)
    ensures GradeAt(s, i) == Some(e) <==>
            (i <= e <= |s| && WordBoundary(s, i) && IsGradeToken(s[i..e]) && WordBoundary(s, e))
  {
    if i <= e <= |s| && WordBoundary(s, i) && IsGradeToken(s[i..e]) && WordBoundary(s, e) {
      assert s[i..e][0] == s[i];
      assert s[i..e][|s[i..e]| - 1] == s[e - 1];
      if e == i + 3 {
        assert s[i..e][1] == s[i + 1];
      } else {
        assert s[i + 1] == s[i..e][1];
      }
    }
    if GradeAt(s, i) == Some(e) {
      assert s[i..e][0] == s[i];
      assert s[i..e][|s[i..e]| - 1] == s[e - 1];
      if e == i + 3 {
        assert s[i..e][1] == s[i + 1];
      }
    }
  }

  /**
   * A grade never matches inside a longer alphanumeric token: the characters
   * just before and just after the match are not word characters.
   */
  lemma GradeIsWholeWord(s: string, i: nat)
    requires GradeMatchAt(s, i)
    ensures i == 0 || !IsWordChar(s[i - 1])
    ensures GradeAt(s, i).value == |s| || !IsWordChar(s[GradeAt(s, i).value])
  {
  }

  // --------------------------------------------------------- labelled grade

  predicate IsColonOrSpace(c: char)
  {
    c == ':' || IsSpace(c)
  }

  /** The first position at or after `i` that holds neither `:` nor whitespace. */
  function SkipColonsAndSpaces(s: string, i: nat): (r: nat)
    decreases |s| - i
    ensures i <= r && (i <= |s| ==> r <= |s|)
    ensures forall k :: i <= k < r ==> k < |s| && IsColonOrSpace(s[k])
    ensures r < |s| ==> !IsColonOrSpace(s[r])
  {
    if i < |s| && IsColonOrSpace(s[i]) then SkipColonsAndSpaces(s, i + 1) else i
  }

  /** `(?:\s*,|\s*\)|\s*[-–]|\s+level)` after a grade that ends at `e`: the end of the context. */
  function GradeContextEnd(s: string, e: nat): (r: Option<nat>)
    ensures r.Some? ==> e < r.value <= |s|
  {
    var m := SkipSpaces(s, e);
    if m < |s| && (s[m] == ',' || s[m] == ')' || s[m] == '-' || s[m] == EnDash) then Some(m + 1)
    else if m > e && FoldedAt(s, m, "level") then Some(m + 5)
    else None
  }

  /**
   * `RE_GRADE_LABELLED` at position `i`.  Its three alternatives are
   * `grade[:\s]+` before a grade, a grade followed by a comma, a closing
   * parenthesis, a dash or the word "level", and a dash, an opening
   * parenthesis or a comma before a grade.  The result is the start of the
   * grade inside the match and the end of the whole match.
   */
  function LabelledGradeAt(s: string, i: nat): (r: Option<(nat, nat)>)
    ensures r.Some? ==> i <= r.value.0 && GradeAt(s, r.value.0).Some? && GradeAt(s, r.value.0).value <= r.value.1 <= |s|
  {
    var afterLabel := SkipColonsAndSpaces(s, i + 5);
    var afterMark := SkipSpaces(s, i + 1);
    if FoldedAt(s, i, "grade") && i + 5 < |s| && IsColonOrSpace(s[i + 5]) && GradeAt(s, afterLabel).Some? then
      Some((afterLabel, GradeAt(s, afterLabel).value))
    else if GradeAt(s, i).Some? && GradeContextEnd(s, GradeAt(s, i).value).Some? then
      Some((i, GradeContextEnd(s, GradeAt(s, i).value).value))
    else if i < |s| && (s[i] == '-' || s[i] == EnDash || s[i] == '(' || s[i] == ',') && GradeAt(s, afterMark).Some? then
      Some((afterMark, GradeAt(s, afterMark).value))
    else None
  }

  predicate LabelledGradeMatchAt(s: string, i: nat)
  {
    LabelledGradeAt(s, i).Some?
  }

  /** Word boundaries inside a slice are those of the whole string, away from the slice's ends. */
  lemma BoundaryInSlice(s: string, lo: nat, hi: nat, p: nat)
    requires lo < p < hi <= |s|
    ensures WordBoundary(s[lo..hi], p - lo) == WordBoundary(s, p)
  {
    assert s[lo..hi][p - lo - 1] == s[p - 1];
    assert s[lo..hi][p - lo] == s[p];
  }

  /** A grade match inside `s[lo..hi]` is found at the same place in the slice. */
  lemma GradeAtInSlice(s: string, lo: nat, hi: nat, k: nat)
    requires lo <= k && hi <= |s| && GradeAt(s, k).Some? && GradeAt(s, k).value <= hi
    ensures GradeAt(s[lo..hi], k - lo) == Some(GradeAt(s, k).value - lo)
  {
    var t := s[lo..hi];
    var e := GradeAt(s, k).value;
    GradeAtMeans(s, k, e);
    assert t[k - lo .. e - lo] == s[k..e];
    assert IsWordChar(s[k]) && IsWordChar(s[e - 1]);
    if k > lo {
      BoundaryInSlice(s, lo, hi, k);
    } else {
      assert t[0] == s[k];
    }
    if e < hi {
      BoundaryInSlice(s, lo, hi, e);
    } else {
      assert t[|t| - 1] == s[e - 1];
    }
    GradeAtMeans(t, k - lo, e - lo);
  }

  /** No grade starts at a position that holds neither `p` nor `d`. */
  lemma NoGradeAtOtherLetter(s: string, j: nat)
    requires j < |s| && Lower(s[j]) != 'p' && Lower(s[j]) != 'd'
    ensures !GradeMatchAt(s, j)
  {
  }

  /** What precedes the grade inside a labelled match, for each of the three alternatives. */
  lemma LabelledGradePrefix(s: string, i: nat)
    requires LabelledGradeMatchAt(s, i)
    ensures var k := LabelledGradeAt(s, i).value.0;
            k == i
            || (FoldedAt(s, i, "grade") && k >= i + 5 && forall j :: i + 5 <= j < k ==> IsColonOrSpace(s[j]))
            || ((forall j :: i + 1 <= j < k ==> IsSpace(s[j])) && Lower(s[i]) != 'p' && Lower(s[i]) != 'd')
  {
  }

  /** No grade starts in the part of a labelled match before its grade. */
  lemma NoGradeBeforeLabelledCore(s: string, i: nat, j: nat)
    requires LabelledGradeMatchAt(s, i)
    requires i + j < LabelledGradeAt(s, i).value.0
    ensures !GradeMatchAt(s[i..LabelledGradeAt(s, i).value.1], j)
  {
    var (k, e) := LabelledGradeAt(s, i).value;
    var t := s[i..e];
    LabelledGradePrefix(s, i);
    assert t[j] == s[i + j];
    if FoldedAt(s, i, "grade") && k >= i + 5 && forall m :: i + 5 <= m < k ==> IsColonOrSpace(s[m]) {
      FoldedAtMeans(s, i, "grade");
      if j == 3 {
        assert t[2] == s[i + 2];
        assert !WordBoundary(t, 3);
      } else {
        NoGradeAtOtherLetter(t, j);
      }
    } else {
      NoGradeAtOtherLetter(t, j);
    }
  }

  /**
   * The text of a labelled match always contains a grade, and the first
   * grade in it is the one the labelled pattern matched: searching the
   * matched text with `RE_GRADE` never fails and finds that grade.
   */
  lemma LabelledMatchHoldsGrade(s: string, i: nat, k: nat, e: nat)
    requires LabelledGradeAt(s, i) == Some((k, e))
    ensures GradeAt(s, k).Some? && i <= k && GradeAt(s, k).value <= e <= |s|
    ensures Search(GradeMatchAt, s[i..e]) == Some(k - i)
    ensures GradeAt(s[i..e], k - i) == Some(GradeAt(s, k).value - i)
  {
    var t := s[i..e];
    GradeAtInSlice(s, i, e, k);
    forall j | 0 <= j < k - i
      ensures !GradeMatchAt(t, j)
    {
      NoGradeBeforeLabelledCore(s, i, j);
    }
    SearchIsLeftmost(GradeMatchAt, t);
    assert GradeMatchAt(t, k - i);
  }

  // ---------------------------------------------------------------- normalize

  /** The eight grade codes the classifier accepts. */
  const GradeCodes: set<string> := {"P1", "P2", "P3", "P4", "P5", "P6", "D1", "D2"}

  /** `t.replace(c, "")`. */
  function Remove(t: string, c: char): string
  {
    if t == [] then [] else (if t[0] == c then [] else [t[0]]) + Remove(t[1..], c)
  }

  /** `t.upper().replace(" ", "").replace("-", "")`. */
  function Normalize(t: string): string
  {
    Remove(Remove(UpperStr(t), ' '), '-')
  }

  lemma RemoveCons(x: char, t: string, c: char)
    ensures Remove([x] + t, c) == (if x == c then [] else [x]) + Remove(t, c)
  {
    assert ([x] + t)[1..] == t;
  }

  /** A normalised grade token is its upper-case letter and its digit, one of the eight codes. */
  lemma NormalizeGradeToken(t: string)
    requires IsGradeToken(t)
    ensures Normalize(t) == [Upper(t[0]), t[|t| - 1]]
    ensures Normalize(t) in GradeCodes
  {
    if |t| == 2 {
      NormalizeShortToken(t);
    } else {
      NormalizeLongToken(t);
    }
    assert Upper(t[0]) == 'P' || Upper(t[0]) == 'D';
  }

  /** A grade token without separator: `P3`, `d1`. */
  lemma NormalizeShortToken(t: string)
    requires |t| == 2 && (Lower(t[0]) == 'p' || Lower(t[0]) == 'd') && IsDigit(t[1])
    ensures Normalize(t) == [Upper(t[0]), t[1]]
  {
    var u := UpperStr(t);
    assert [u[1]] + [] == [u[1]];
    assert u == [u[0]] + [u[1]];
    RemoveCons(u[0], [u[1]], ' ');
    RemoveCons(u[1], [], ' ');
    assert Remove(u, ' ') == [u[0], u[1]];
    RemoveCons(u[0], [u[1]], '-');
    RemoveCons(u[1], [], '-');
  }

  /** A grade token with a separator: `P-3`, `d 1`. */
  lemma NormalizeLongToken(t: string)
    requires |t| == 3 && (Lower(t[0]) == 'p' || Lower(t[0]) == 'd') && (t[1] == '-' || t[1] == ' ') && IsDigit(t[2])
    ensures Normalize(t) == [Upper(t[0]), t[2]]
  {
    var u := UpperStr(t);
    assert [u[2]] + [] == [u[2]];
    assert [u[1]] + [u[2]] == [u[1], u[2]];
    assert u == [u[0]] + [u[1], u[2]];
    RemoveCons(u[0], [u[1], u[2]], ' ');
    RemoveCons(u[1], [u[2]], ' ');
    RemoveCons(u[2], [], ' ');
    if u[1] == ' ' {
      assert Remove(u, ' ') == [u[0], u[2]];
      RemoveCons(u[0], [u[2]], '-');
      RemoveCons(u[2], [], '-');
    } else {
      assert Remove(u, ' ') == [u[0], u[1], u[2]];
      RemoveCons(u[0], [u[1], u[2]], '-');
      RemoveCons(u[1], [u[2]], '-');
      RemoveCons(u[2], [], '-');
    }
  }

  // --------------------------------------------------------- geneva variants

  /** `Gen(?:e|è|é)v` at `i`, the part of the first variant before its optional `a`. */
  predicate GenevStem(s: string, i: nat)
  {
    FoldedAt(s, i, "gen") && i + 4 < |s| && Lower(s[i + 3]) in "e\U{00E8}\U{00E9}" && Lower(s[i + 4]) == 'v'
  }

  /** `CH\s*[-–]\s*Geneva` at `i`. */
  function SwissDashGenevaEnd(s: string, i: nat): Option<nat>
  {
    var a := SkipSpaces(s, i + 2);
    var b := SkipSpaces(s, a + 1);
    if FoldedAt(s, i, "ch") && a < |s| && (s[a] == '-' || s[a] == EnDash) && FoldedAt(s, b, "geneva")
    then Some(b + 6)
    else None
  }

  /** `Geneva\s*,?\s*Switzerland` at `i`. */
  function GenevaSwitzerlandEnd(s: string, i: nat): Option<nat>
  {
    var a := SkipSpaces(s, i + 6);
    var b := if a < |s| && s[a] == ',' then SkipSpaces(s, a + 1) else a;
    if FoldedAt(s, i, "geneva") && FoldedAt(s, b, "switzerland") then Some(b + 11) else None
  }

  /** `Switzerland\s*\(Geneva\)` at `i`. */
  function SwitzerlandGenevaEnd(s: string, i: nat): Option<nat>
  {
    var a := SkipSpaces(s, i + 11);
    if FoldedAt(s, i, "switzerland") && a < |s| && s[a] == '(' && FoldedAt(s, a + 1, "geneva)")
    then Some(a + 8)
    else None
  }

  function IfLiteral(s: string, i: nat, lit: string): (r: Option<nat>)
    ensures r.Some? ==> r.value == i + |lit| <= |s|
    ensures r.Some? <==> FoldedAt(s, i, lit)
  {
    if FoldedAt(s, i, lit) then Some(i + |lit|) else None
  }

  /**
   * The ends of the Geneva variants (`_GENEVA_VARIANTS`) at `i`, in the order
   * they are tried; the first variant's greedy `a?` makes two entries.
   */
  function GenevaEnds(s: string, i: nat): seq<Option<nat>>
  {
    [ if GenevStem(s, i) && i + 5 < |s| && Lower(s[i + 5]) == 'a' then Some(i + 6) else None,
      if GenevStem(s, i) then Some(i + 5) else None,
      IfLiteral(s, i, "genf"),
      IfLiteral(s, i, "ch-1211"),
      SwissDashGenevaEnd(s, i),
      GenevaSwitzerlandEnd(s, i),
      SwitzerlandGenevaEnd(s, i) ]
  }

  // -------------------------------------------------------- labelled location

  /** `\s+of\s+` and then `place`, after the word that ends at `j`. */
  function OfThen(s: string, j: nat, place: string): Option<nat>
  {
    match SpacesThen(s, j, "of")
    case None => None
    case Some(a) => SpacesThen(s, a, place)
  }

  function After(s: string, i: nat, word: string, rest: Option<nat>): (r: Option<nat>)
    ensures r.Some? ==> r == rest && FoldedAt(s, i, word)
  {
    if FoldedAt(s, i, word) then rest else None
  }

  /** The first word of one of the duty-station labels (`_DUTY_LABEL`) begins at `i`. */
  predicate LabelWordAt(s: string, i: nat)
  {
    FoldedAt(s, i, "duty") || FoldedAt(s, i, "location") || FoldedAt(s, i, "based")
    || FoldedAt(s, i, "headquarter") || FoldedAt(s, i, "poste") || FoldedAt(s, i, "place")
    || FoldedAt(s, i, "office") || FoldedAt(s, i, "country")
  }

  /** Every label word begins with `d`, `l`, `b`, `h`, `p`, `o` or `c`, case ignored. */
  lemma LabelWordInitial(s: string, i: nat)
    requires LabelWordAt(s, i)
    ensures i < |s| && Lower(s[i]) in "dlbhpoc"
  {
  }

  /**
   * The ends of the duty-station labels (`_DUTY_LABEL`) at `i`, in the order
   * they are tried; `headquarters?` makes two entries.
   */
  function DutyLabelEnds(s: string, i: nat): seq<Option<nat>>
  {
    var a := SkipSpaces(s, i + 4);
    var d := if FoldedAt(s, i + 5, "d") then i + 6 else i + 5;
    [ After(s, i, "duty", IfLiteral(s, a, "station")),
      IfLiteral(s, i, "location"),
      After(s, i, "based", SpacesThen(s, i + 5, "in")),
      After(s, i, "headquarter", IfLiteral(s, i + 11, "s")),
      IfLiteral(s, i, "headquarter"),
      After(s, i, "poste", SpacesThen(s, d, "in")),
      After(s, i, "poste", SpacesThen(s, d, "at")),
      After(s, i, "place", OfThen(s, i + 5, "work")),
      After(s, i, "place", OfThen(s, i + 5, "assignment")),
      After(s, i, "office", SpacesThen(s, i + 6, "location")),
      After(s, i, "country", OfThen(s, i + 7, "assignment")) ]
  }

  /** `\s*[:\-–]?\s*` after a label that ends at `e`: where the location value starts. */
  function LabelGap(s: string, e: nat): (r: nat)
    ensures e <= r
  {
    var a := SkipSpaces(s, e);
    if a < |s| && (s[a] == ':' || s[a] == '-' || s[a] == EnDash) then SkipSpaces(s, a + 1) else a
  }

  /** Some Geneva variant matches at position `p`. */
  predicate GenevaAt(s: string, p: nat)
  {
    var ends := GenevaEnds(s, p);
    exists k :: 0 <= k < |ends| && ends[k].Some?
  }

  /** `RE_LOCATION_LABELLED`: a duty-station label, an optional separator, then a Geneva variant. */
  predicate LabelledLocationMatchAt(s: string, i: nat)
  {
    var labels := DutyLabelEnds(s, i);
    exists k :: 0 <= k < |labels| && labels[k].Some? && GenevaAt(s, LabelGap(s, labels[k].value))
  }

  // ----------------------------------------------------------- title location

  /** `$`: the end of the string, or just before a final newline. */
  predicate AtEnd(s: string, p: nat)
  {
    p == |s| || (p + 1 == |s| && s[p] == '\n')
  }

  /** `\s*[),]?$` from position `v`. */
  predicate TitleTail(s: string, v: nat)
  {
    var a := SkipSpaces(s, v);
    AtEnd(s, a) || (a < |s| && (s[a] == ')' || s[a] == ',') && AtEnd(s, a + 1))
  }

  /** `RE_LOCATION_TITLE`: a comma or an opening parenthesis, a Geneva variant, and nothing more but a closing mark. */
  predicate TitleLocationMatchAt(s: string, i: nat)
  {
    i < |s| && (s[i] == ',' || s[i] == '(')
    && var ends := GenevaEnds(s, SkipSpaces(s, i + 1));
       exists k :: 0 <= k < |ends| && ends[k].Some? && TitleTail(s, ends[k].value)
  }

  // ------------------------------------------------------------ bare location

  /** `RE_LOCATION_BARE`: a Geneva variant with a word boundary on both sides. */
  predicate BareLocationMatchAt(s: string, i: nat)
  {
    WordBoundary(s, i)
    && var ends := GenevaEnds(s, i);
       exists k :: 0 <= k < |ends| && ends[k].Some? && WordBoundary(s, ends[k].value)
  }

  /** `Geneva` (`Gen(?:e|è|é)va?` taking its `a`) at `p`, in any case. */
  predicate GenevaWordAt(s: string, p: nat)
  {
    GenevStem(s, p) && p + 5 < |s| && Lower(s[p + 5]) == 'a'
  }

  lemma GenevaWordEnd(s: string, p: nat)
    requires GenevaWordAt(s, p)
    ensures GenevaEnds(s, p)[0] == Some(p + 6)
  {
  }

  /** The characters `Geneva` at `p`. */
  lemma SpelledGeneva(s: string, p: nat)
    requires p + 6 <= |s| && s[p .. p + 6] == "Geneva"
    ensures GenevaWordAt(s, p)
  {
    assert forall j :: p <= j < p + 6 ==> s[j] == s[p .. p + 6][j - p];
    FoldedAtMeans(s, p, "gen");
  }

  /** A comma or parenthesis, spaces, `Geneva` and a title tail make a title-level location. */
  lemma TitleGeneva(s: string, i: nat, p: nat)
    requires i < |s| && (s[i] == ',' || s[i] == '(') && SkipSpaces(s, i + 1) == p
    requires GenevaWordAt(s, p) && TitleTail(s, p + 6)
    ensures TitleLocationMatchAt(s, i)
  {
    GenevaWordEnd(s, p);
  }

  /** A title that closes with `, Geneva` has a title-level location at its comma. */
  lemma CommaGenevaTitle(t: string)
    ensures TitleLocationMatchAt(t + ", Geneva", |t|)
  {
    var s := t + ", Geneva";
    assert s[|t| + 2 .. |s|] == "Geneva";
    SpelledGeneva(s, |t| + 2);
    assert SkipSpaces(s, |t| + 1) == |t| + 2;
    TitleGeneva(s, |t|, |t| + 2);
  }

  /** A title that closes with ` (Geneva)` has a title-level location at its parenthesis. */
  lemma ParenthesisedGenevaTitle(t: string)
    ensures TitleLocationMatchAt(t + " (Geneva)", |t| + 1)
  {
    var s := t + " (Geneva)";
    assert s[|t| + 2 .. |s| - 1] == "Geneva";
    SpelledGeneva(s, |t| + 2);
    assert SkipSpaces(s, |t| + 2) == |t| + 2;
    assert SkipSpaces(s, |s| - 1) == |s| - 1;
    TitleGeneva(s, |t| + 1, |t| + 2);
  }

  /** `Geneva` between two spaces is a bare Geneva mention. */
  lemma SpacedGenevaIsBare(a: string, b: string)
    ensures BareLocationMatchAt(a + " Geneva " + b, |a| + 1)
  {
    var s := a + " Geneva " + b;
    assert s[|a| + 1 .. |a| + 7] == "Geneva";
    SpelledGeneva(s, |a| + 1);
    GenevaWordEnd(s, |a| + 1);
  }

  /** The label `Duty Station` at `i`, ending at `i + 12`. */
  lemma DutyStationLabel(s: string, i: nat)
    requires i + 12 <= |s| && s[i .. i + 12] == "Duty Station"
    ensures DutyLabelEnds(s, i)[0] == Some(i + 12)
  {
    assert forall j :: i <= j < i + 12 ==> s[j] == s[i .. i + 12][j - i];
    FoldedAtMeans(s, i, "duty");
    assert SkipSpaces(s, i + 4) == i + 5;
    FoldedAtMeans(s, i + 5, "station");
  }

  /** `: ` after a label: the value starts two characters on. */
  lemma ColonGap(s: string, e: nat)
    requires e + 2 < |s| && s[e] == ':' && s[e + 1] == ' ' && !IsSpace(s[e + 2])
    ensures LabelGap(s, e) == e + 2
  {
    assert SkipSpaces(s, e + 1) == e + 2;
  }

  /** A label whose value, after the separator, starts with `Geneva` makes a labelled location. */
  lemma LabelledGeneva(s: string, i: nat, e: nat)
    requires DutyLabelEnds(s, i)[0] == Some(e) && GenevaWordAt(s, LabelGap(s, e))
    ensures LabelledLocationMatchAt(s, i)
  {
    GenevaWordEnd(s, LabelGap(s, e));
  }

  /** `Duty Station: Geneva` is a labelled duty station. */
  lemma DutyStationGenevaIsLabelled(a: string, b: string)
    ensures LabelledLocationMatchAt(a + "Duty Station: Geneva" + b, |a|)
  {
    var s := a + "Duty Station: Geneva" + b;
    var i := |a|;
    assert s[i .. i + 12] == "Duty Station";
    DutyStationLabel(s, i);
    ColonGap(s, i + 12);
    assert s[i + 14 .. i + 20] == "Geneva";
    SpelledGeneva(s, i + 14);
    LabelledGeneva(s, i, i + 12);
  }

  /** Each Geneva variant found at `i` is non-empty and ends inside the text. */
  lemma GenevaEndsBounded(s: string, i: nat, k: nat)
    requires k < |GenevaEnds(s, i)| && GenevaEnds(s, i)[k].Some?
    ensures i < GenevaEnds(s, i)[k].value <= |s|
  {
    var ends := GenevaEnds(s, i);
    if k == 4 {
      var a := SkipSpaces(s, i + 2);
      assert ends[4] == Some(SkipSpaces(s, a + 1) + 6);
    } else if k == 5 {
      assert FoldedAt(s, i, "geneva");
    } else if k == 6 {
      assert FoldedAt(s, SkipSpaces(s, i + 11) + 1, "geneva)");
    }
  }

  /** Each duty-station label found at `i` begins with a label word and ends inside the text. */
  lemma DutyLabelEndsBounded(s: string, i: nat, k: nat)
    requires k < |DutyLabelEnds(s, i)| && DutyLabelEnds(s, i)[k].Some?
    ensures i < DutyLabelEnds(s, i)[k].value <= |s| && LabelWordAt(s, i)
  {
    var labels := DutyLabelEnds(s, i);
    if k < 4 {
      assert FoldedAt(s, i, "duty") || FoldedAt(s, i, "location") || FoldedAt(s, i, "based")
             || FoldedAt(s, i, "headquarter");
    } else if k < 8 {
      assert FoldedAt(s, i, "headquarter") || FoldedAt(s, i, "poste") || FoldedAt(s, i, "place");
    } else {
      assert FoldedAt(s, i, "place") || FoldedAt(s, i, "office") || FoldedAt(s, i, "country");
    }
  }

  /** Every Geneva variant begins with `gen`, `ch` or `switzerland`, case ignored. */
  lemma GenevaAtStarts(s: string, p: nat)
    requires GenevaAt(s, p)
    ensures FoldedAt(s, p, "gen") || FoldedAt(s, p, "ch") || FoldedAt(s, p, "switzerland")
  {
    FoldedAtMeans(s, p, "gen");
    FoldedAtMeans(s, p, "genf");
    FoldedAtMeans(s, p, "geneva");
    FoldedAtMeans(s, p, "ch");
    FoldedAtMeans(s, p, "ch-1211");
  }

  /** A labelled location begins with a label word, and a Geneva variant follows the label and its separator. */
  lemma LabelledMatchNeeds(s: string, i: nat)
    requires LabelledLocationMatchAt(s, i)
    ensures LabelWordAt(s, i)
    ensures exists e :: i < e <= |s| && GenevaAt(s, LabelGap(s, e))
  {
    var labels := DutyLabelEnds(s, i);
    var k :| 0 <= k < |labels| && labels[k].Some? && GenevaAt(s, LabelGap(s, labels[k].value));
    DutyLabelEndsBounded(s, i, k);
  }

  /** After `\s*[),]?$` only whitespace follows, apart from at most one `)` or `,`. */
  lemma TitleTailMeans(s: string, v: nat) returns (m: nat)
    requires TitleTail(s, v)
    ensures v <= m <= |s| && (m < |s| ==> s[m] == ')' || s[m] == ',')
    ensures forall k :: v <= k < |s| && k != m ==> IsSpace(s[k])
  {
    var a := SkipSpaces(s, v);
    if AtEnd(s, a) {
      m := |s|;
    } else {
      m := a;
    }
  }

  /**
   * A title-level location starts at a comma or an opening parenthesis, a
   * Geneva variant follows it after spaces, and after the variant the title
   * holds only whitespace and at most one `)` or `,`.
   */
  lemma TitleMatchNeeds(s: string, i: nat) returns (e: nat, m: nat)
    requires TitleLocationMatchAt(s, i)
    ensures i < |s| && (s[i] == ',' || s[i] == '(')
    ensures GenevaAt(s, SkipSpaces(s, i + 1))
    ensures SkipSpaces(s, i + 1) < e <= m <= |s| && (m < |s| ==> s[m] == ')' || s[m] == ',')
    ensures forall k :: e <= k < |s| && k != m ==> IsSpace(s[k])
  {
    var p := SkipSpaces(s, i + 1);
    var ends := GenevaEnds(s, p);
    var k :| 0 <= k < |ends| && ends[k].Some? && TitleTail(s, ends[k].value);
    GenevaEndsBounded(s, p, k);
    e := ends[k].value;
    m := TitleTailMeans(s, e);
  }

  /** A bare Geneva starts at a word boundary with `gen`, `ch` or `switzerland`, and ends at a word boundary. */
  lemma BareMatchNeeds(s: string, i: nat)
    requires BareLocationMatchAt(s, i)
    ensures WordBoundary(s, i)
    ensures FoldedAt(s, i, "gen") || FoldedAt(s, i, "ch") || FoldedAt(s, i, "switzerland")
    ensures exists e :: i < e <= |s| && WordBoundary(s, e)
  {
    GenevaAtStarts(s, i);
    var ends := GenevaEnds(s, i);
    var k :| 0 <= k < |ends| && ends[k].Some? && WordBoundary(s, ends[k].value);
    GenevaEndsBounded(s, i, k);
  }

  // ------------------------------------------------------------ excluded roles

  /** `<letters><one character of the class>` at `i`, for `NO[A-Da-d]`, `GS-\d` and `G-\d`. */
  function ThenChar(s: string, i: nat, lit: string, inClass: bool): (r: Option<nat>)
    ensures r.Some? ==> r.value == i + |lit| + 1 <= |s|
  {
    if FoldedAt(s, i, lit) && i + |lit| < |s| && inClass then Some(i + |lit| + 1) else None
  }

  /** The ends of the excluded-role alternatives at `i`, in the written order. */
  function ExcludedEnds(s: string, i: nat): (r: seq<Option<nat>>)
    ensures forall k :: 0 <= k < |r| && r[k].Some? ==> i < r[k].value <= |s|
  {
    [ IfLiteral(s, i, "ssa"),
      IfLiteral(s, i, "consultant"),
      IfLiteral(s, i, "consultancy"),
      IfLiteral(s, i, "internship"),
      IfLiteral(s, i, "intern"),
      IfLiteral(s, i, "jpo"),
      ThenChar(s, i, "no", i + 2 < |s| && Lower(s[i + 2]) in "abcd"),
      After(s, i, "national", SpacesThen(s, i + 8, "officer")),
      After(s, i, "national", SpacesThen(s, i + 8, "professional")),
      ThenChar(s, i, "gs-", i + 3 < |s| && IsDigit(s[i + 3])),
      ThenChar(s, i, "g-", i + 2 < |s| && IsDigit(s[i + 2])) ]
  }

  /** The first of `ends[k..]` that is present and followed by a word boundary. */
  function FirstBounded(s: string, ends: seq<Option<nat>>, k: nat): (r: Option<nat>)
    decreases |ends| - k
    ensures r.Some? ==> WordBoundary(s, r.value)
    ensures r.Some? ==> (exists j :: k <= j < |ends| && ends[j] == r
                           && forall j' :: k <= j' < j ==> ends[j'].None? || !WordBoundary(s, ends[j'].value))
    ensures r.None? ==> forall j :: k <= j < |ends| && ends[j].Some? ==> !WordBoundary(s, ends[j].value)
  {
    if k >= |ends| then None
    else if ends[k].Some? && WordBoundary(s, ends[k].value) then ends[k]
    else FirstBounded(s, ends, k + 1)
  }

  /** `RE_EXCLUDED_ROLE` at position `i`: the end of its match. */
  function ExcludedAt(s: string, i: nat): (r: Option<nat>)
    ensures r.Some? ==> i < r.value <= |s| && WordBoundary(s, i) && WordBoundary(s, r.value)
  {
    if WordBoundary(s, i) then FirstBounded(s, ExcludedEnds(s, i), 0) else None
  }

  predicate ExcludedMatchAt(s: string, i: nat)
  {
    ExcludedAt(s, i).Some?
  }
}
