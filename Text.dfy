/**
 * Characters and strings as the job-listing classifier sees them.
 *
 * The character model covers ASCII, the accented letters that occur in the
 * Geneva spellings (è é and their capitals) and the en dash accepted as a
 * separator.  `\s`, `\w`, `\d` and case-insensitive comparison follow
 * Python's `re` module on that alphabet.
 */
module Text {

  datatype Option<T> = None | Some(value: T)

  function OrEmpty(o: Option<string>): string
  {
    match o
    case Some(v) => v
    case None => ""
  }

  const EnDash: char := '\U{2013}'

  /** Python's `\s` (and `str.isspace`) on the modelled alphabet. */
  predicate IsSpace(c: char)
  {
    c == ' ' || c == '\t' || c == '\n' || c == '\r' || c == '\U{000B}' || c == '\U{000C}'
    || '\U{001C}' <= c <= '\U{001F}'
  }

  predicate IsDigit(c: char)
  {
    '0' <= c <= '9'
  }

  /** Python's `\w` on the modelled alphabet. */
  predicate IsWordChar(c: char)
  {
    'a' <= c <= 'z' || 'A' <= c <= 'Z' || IsDigit(c) || c == '_'
    || c == '\U{00E8}' || c == '\U{00E9}' || c == '\U{00C8}' || c == '\U{00C9}'
  }

  function Lower(c: char): (r: char)
    ensures IsWordChar(r) == IsWordChar(c)
  {
    if 'A' <= c <= 'Z' then (c as int + 32) as char
    else if c == '\U{00C8}' then '\U{00E8}'
    else if c == '\U{00C9}' then '\U{00E9}'
    else c
  }

  function Upper(c: char): (r: char)
    ensures IsWordChar(r) == IsWordChar(c)
  {
    if 'a' <= c <= 'z' then (c as int - 32) as char
    else if c == '\U{00E8}' then '\U{00C8}'
    else if c == '\U{00E9}' then '\U{00C9}'
    else c
  }

  function LowerStr(s: string): (r: string)
    ensures |r| == |s| && forall k :: 0 <= k < |s| ==> r[k] == Lower(s[k])
  {
    seq(|s|, k requires 0 <= k < |s| => Lower(s[k]))
  }

  function UpperStr(s: string): (r: string)
    ensures |r| == |s| && forall k :: 0 <= k < |s| ==> r[k] == Upper(s[k])
  {
    seq(|s|, k requires 0 <= k < |s| => Upper(s[k]))
  }

  /** `\b`: exactly one of the characters on either side of position `p` is a word character. */
  predicate WordBoundary(s: string, p: nat)
  {
    (0 < p <= |s| && IsWordChar(s[p - 1])) != (p < |s| && IsWordChar(s[p]))
  }

  /**
   * The characters of `s` from position `i + k` on spell `lit[k..]` when
   * case is ignored; `lit` is written in lower case.
   */
  predicate FoldedFrom(s: string, i: nat, lit: string, k: nat)
    decreases |lit| - k
    ensures FoldedFrom(s, i, lit, k) ==> i + |lit| <= |s|
  {
    if k >= |lit| then i + |lit| <= |s|
    else i + k < |s| && Lower(s[i + k]) == lit[k] && FoldedFrom(s, i, lit, k + 1)
  }

  /** A case-insensitive occurrence of the lower-case literal `lit` at position `i` of `s`. */
  predicate FoldedAt(s: string, i: nat, lit: string)
  {
    FoldedFrom(s, i, lit, 0)
  }

  lemma FoldedFromMeans(s: string, i: nat, lit: string, k: nat)
    requires k <= |lit|
    ensures FoldedFrom(s, i, lit, k) <==>
            (i + |lit| <= |s| && forall j :: k <= j < |lit| ==> Lower(s[i + j]) == lit[j])
    decreases |lit| - k
  {
    if k < |lit| {
      FoldedFromMeans(s, i, lit, k + 1);
    }
  }

  /** `FoldedAt` is the case-insensitive comparison of a slice with the literal. */
  lemma FoldedAtMeans(s: string, i: nat, lit: string)
    ensures FoldedAt(s, i, lit) <==>
            (i + |lit| <= |s| && forall j :: 0 <= j < |lit| ==> Lower(s[i + j]) == lit[j])
  {
    FoldedFromMeans(s, i, lit, 0);
  }

  /** The characters of `s` from position `i + k` on are exactly `lit[k..]`. */
  predicate ExactFrom(s: string, i: nat, lit: string, k: nat)
    decreases |lit| - k
    ensures ExactFrom(s, i, lit, k) ==> i + |lit| <= |s|
  {
    if k >= |lit| then i + |lit| <= |s|
    else i + k < |s| && s[i + k] == lit[k] && ExactFrom(s, i, lit, k + 1)
  }

  lemma ExactFromMeans(s: string, i: nat, lit: string, k: nat)
    requires k <= |lit|
    ensures ExactFrom(s, i, lit, k) <==>
            (i + |lit| <= |s| && s[i + k .. i + |lit|] == lit[k..])
    decreases |lit| - k
  {
    if k < |lit| {
      ExactFromMeans(s, i, lit, k + 1);
      if i + |lit| <= |s| {
        assert s[i + k .. i + |lit|] == [s[i + k]] + s[i + k + 1 .. i + |lit|];
        assert lit[k..] == [lit[k]] + lit[k + 1..];
      }
    }
  }

  /** The first position at or after `i` where `lit` occurs, or `|s| + 1` when there is none. */
  function FindFrom(s: string, lit: string, i: nat): (r: nat)
    decreases |s| + 1 - i
    ensures i <= r <= |s| + 1 || r == i
    ensures r <= |s| ==> ExactFrom(s, r, lit, 0)
    ensures forall j :: i <= j < r && j <= |s| ==> !ExactFrom(s, j, lit, 0)
  {
    if i > |s| then i
    else if ExactFrom(s, i, lit, 0) then i
    else FindFrom(s, lit, i + 1)
  }

  /** Python's `lit in s`. */
  predicate Contains(s: string, lit: string)
  {
    FindFrom(s, lit, 0) <= |s|
  }

  /** `lit` is the slice of `s` that starts at `i`. */
  predicate SliceIs(s: string, i: nat, lit: string)
  {
    i + |lit| <= |s| && s[i .. i + |lit|] == lit
  }

  /** `Contains` means that some slice of `s` equals `lit`, in both directions. */
  lemma ContainsMeans(s: string, lit: string)
    ensures Contains(s, lit) <==> exists i: nat :: SliceIs(s, i, lit)
  {
    var r := FindFrom(s, lit, 0);
    if r <= |s| {
      ExactFromMeans(s, r, lit, 0);
      assert SliceIs(s, r, lit);
    } else {
      forall i: nat | SliceIs(s, i, lit)
        ensures false
      {
        ExactFromMeans(s, i, lit, 0);
      }
    }
  }

  /** The first position at or after `i` that does not hold whitespace (`|s|` when none). */
  function SkipSpaces(s: string, i: nat): (r: nat)
    decreases |s| - i
    ensures i <= r && (i <= |s| ==> r <= |s|)
    ensures forall k :: i <= k < r ==> k < |s| && IsSpace(s[k])
    ensures r < |s| ==> !IsSpace(s[r])
  {
    if i < |s| && IsSpace(s[i]) then SkipSpaces(s, i + 1) else i
  }

  /** Python's `str.strip()`: leading and trailing whitespace removed. */
  function Strip(s: string): string
    decreases |s|
  {
    if s != [] && IsSpace(s[0]) then Strip(s[1..])
    else if s != [] && IsSpace(s[|s| - 1]) then Strip(s[..|s| - 1])
    else s
  }

  /** The strip of `s` neither begins nor ends with whitespace. */
  lemma {:induction false} StripEnds(s: string)
    ensures Strip(s) == [] || (!IsSpace(Strip(s)[0]) && !IsSpace(Strip(s)[|Strip(s)| - 1]))
    decreases |s|
  {
    if s != [] && IsSpace(s[0]) {
      StripEnds(s[1..]);
    } else if s != [] && IsSpace(s[|s| - 1]) {
      StripEnds(s[..|s| - 1]);
    }
  }

  /** The strip of `s` is the slice `s[a..b]` left when whitespace at both ends is cut off. */
  lemma {:induction false} StripSlice(s: string) returns (a: nat, b: nat)
    ensures a <= b <= |s| && Strip(s) == s[a..b]
    ensures forall k :: 0 <= k < a ==> IsSpace(s[k])
    ensures forall k :: b <= k < |s| ==> IsSpace(s[k])
    decreases |s|
  {
    if s != [] && IsSpace(s[0]) {
      var t := s[1..];
      var a', b' := StripSlice(t);
      a, b := a' + 1, b' + 1;
      SliceOfSlice(s, 1, |s|, a', b', a, b);
      forall k | 0 < k < |s|
        ensures s[k] == t[k - 1]
      {
      }
    } else if s != [] && IsSpace(s[|s| - 1]) {
      var t := s[..|s| - 1];
      a, b := StripSlice(t);
      SliceOfSlice(s, 0, |s| - 1, a, b, a, b);
      forall k | 0 <= k < |s| - 1
        ensures s[k] == t[k]
      {
      }
    } else {
      a, b := 0, |s|;
      assert s[0..|s|] == s;
    }
  }

  /** Stripping a string that is all whitespace gives the empty string, and only then. */
  lemma {:induction false} StripEmpty(s: string)
    ensures Strip(s) == [] <==> forall k :: 0 <= k < |s| ==> IsSpace(s[k])
    decreases |s|
  {
    if s != [] && IsSpace(s[0]) {
      StripEmpty(s[1..]);
      assert forall k :: 0 < k < |s| ==> s[k] == s[1..][k - 1];
    } else if s != [] && IsSpace(s[|s| - 1]) {
      StripEmpty(s[..|s| - 1]);
      assert forall k :: 0 <= k < |s| - 1 ==> s[k] == s[..|s| - 1][k];
    }
  }

  /** A string without surrounding whitespace is its own strip. */
  lemma StripIdempotent(s: string)
    ensures Strip(Strip(s)) == Strip(s)
  {
    StripEnds(s);
  }

  /** A slice of a slice is a slice of the whole string. */
  lemma SliceOfSlice(s: string, lo: nat, hi: nat, a: nat, b: nat, c: nat, d: nat)
    requires lo <= hi <= |s| && a <= b <= hi - lo && c == lo + a && d == lo + b
    ensures s[lo..hi][a..b] == s[c..d]
  {
    assert |s[lo..hi][a..b]| == |s[c..d]|;
    forall j | 0 <= j < b - a
      ensures s[lo..hi][a..b][j] == s[c..d][j]
    {
    }
  }

  /** `s` begins with `prefix`. */
  predicate StartsWith(s: string, prefix: string)
  {
    ExactFrom(s, 0, prefix, 0)
  }
}
