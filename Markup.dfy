/**
 * The visible text of a fetched detail page: `fetch_text` in
 * `who_feed_filter.py` and `fetch_detail` in `scraper.py` replace every tag
 * `<[^>]+>` by a space and then every run of whitespace `\s+` by one space.
 */
module Markup {
  import opened Text

  /** The first position at or after `j` holding `>`, or `|s|` when there is none. */
  function NextClose(s: string, j: nat): (r: nat)
    decreases |s| - j
    ensures j <= |s| ==> j <= r <= |s|
    ensures forall k :: j <= k < r ==> k < |s| && s[k] != '>'
    ensures r < |s| ==> s[r] == '>'
  {
    if j < |s| && s[j] != '>' then NextClose(s, j + 1) else j
  }

  /**
   * The end of the match of `<[^>]+>` at `i`: a `<`, at least one character
   * other than `>`, up to and including the next `>`.
   */
  function TagEnd(s: string, i: nat): (r: Option<nat>)
    ensures r.Some? ==> i + 3 <= r.value <= |s|
  {
    if i + 1 < |s| && s[i] == '<' && s[i + 1] != '>' && NextClose(s, i + 1) < |s|
    then Some(NextClose(s, i + 1) + 1)
    else None
  }

  /** A tag starts at `i`, said without `NextClose`. */
  predicate TagStart(s: string, i: nat)
  {
    i + 1 < |s| && s[i] == '<' && s[i + 1] != '>' && exists k :: i + 2 <= k < |s| && s[k] == '>'
  }

  lemma TagEndMeans(s: string, i: nat)
    ensures TagEnd(s, i).Some? <==> TagStart(s, i)
  {
    if TagStart(s, i) {
      var k :| i + 2 <= k < |s| && s[k] == '>';
      assert NextClose(s, i + 1) <= k;
    }
  }

  /** The first pass: the text of `s` from `i` on with every tag replaced by a space. */
  function StripTagsFrom(s: string, i: nat): (r: string)
    decreases |s| - i
    ensures i <= |s| ==> |r| <= |s| - i
    ensures i < |s| ==> |r| > 0
  {
    if i >= |s| then []
    else match TagEnd(s, i)
      case Some(e) => " " + StripTagsFrom(s, e)
      case None => [s[i]] + StripTagsFrom(s, i + 1)
  }

  /** `re.sub(r"<[^>]+>", " ", s)`. */
  function StripTags(s: string): string
  {
    StripTagsFrom(s, 0)
  }

  /** Every character the first pass emits is a space or a character of the input. */
  lemma {:induction false} StripTagsFromChars(s: string, i: nat)
    ensures forall k :: 0 <= k < |StripTagsFrom(s, i)| ==>
              StripTagsFrom(s, i)[k] == ' ' || exists j :: i <= j < |s| && s[j] == StripTagsFrom(s, i)[k]
    decreases |s| - i
  {
    if i < |s| {
      var r := StripTagsFrom(s, i);
      match TagEnd(s, i)
      case Some(e) =>
        StripTagsFromChars(s, e);
        assert r == " " + StripTagsFrom(s, e);
      case None =>
        StripTagsFromChars(s, i + 1);
        assert r == [s[i]] + StripTagsFrom(s, i + 1);
    }
  }

  /** Moving one character to the right of a prefix moves every tag start with it. */
  lemma TagStartShift(c: char, t: string, p: nat)
    ensures TagStart([c] + t, p + 1) <==> TagStart(t, p)
  {
    var u := [c] + t;
    if TagStart(u, p + 1) {
      var k :| p + 3 <= k < |u| && u[k] == '>';
      assert t[k - 1] == '>';
    }
    if TagStart(t, p) {
      var k :| p + 2 <= k < |t| && t[k] == '>';
      assert u[k + 1] == '>';
    }
  }

  /** `" "` or a character `c` other than `<` in front of a tag-free text leaves it tag-free. */
  lemma NoTagAfterPrefix(c: char, t: string)
    requires forall p: nat :: !TagStart(t, p)
    requires c != '<'
    ensures forall p: nat :: !TagStart([c] + t, p)
  {
    forall p: nat | TagStart([c] + t, p)
      ensures false
    {
      if p > 0 {
        TagStartShift(c, t, p - 1);
      }
    }
  }

  /**
   * After the first pass no tag is left: no `<` is followed by a character
   * other than `>` and, later, a `>`.
   */
  lemma {:induction false} StripTagsFromLeavesNoTag(s: string, i: nat)
    ensures forall p: nat :: !TagStart(StripTagsFrom(s, i), p)
    decreases |s| - i
  {
    var r := StripTagsFrom(s, i);
    if i < |s| {
      match TagEnd(s, i)
      case Some(e) =>
        StripTagsFromLeavesNoTag(s, e);
        NoTagAfterPrefix(' ', StripTagsFrom(s, e));
      case None =>
        var rest := StripTagsFrom(s, i + 1);
        StripTagsFromLeavesNoTag(s, i + 1);
        if s[i] != '<' {
          NoTagAfterPrefix(s[i], rest);
        } else {
          TagEndMeans(s, i);
          assert r == ['<'] + rest;
          forall p: nat | TagStart(r, p)
            ensures false
          {
            if p > 0 {
              TagStartShift('<', rest, p - 1);
            } else if s[i + 1] != '>' {
              // no `>` follows in `s`, so none follows in the output either
              StripTagsFromChars(s, i + 1);
            }
          }
        }
    }
  }

  lemma StripTagsLeavesNoTag(s: string)
    ensures forall p: nat :: TagEnd(StripTags(s), p).None?
  {
    StripTagsFromLeavesNoTag(s, 0);
    forall p: nat
      ensures TagEnd(StripTags(s), p).None?
    {
      TagEndMeans(StripTags(s), p);
    }
  }

  /** The second pass: the text of `s` from `i` on with every run of whitespace replaced by one space. */
  function CollapseFrom(s: string, i: nat): (r: string)
    decreases |s| - i
    ensures i <= |s| ==> |r| <= |s| - i
    ensures i < |s| ==> |r| > 0 && (IsSpace(s[i]) ==> r[0] == ' ') && (!IsSpace(s[i]) ==> r[0] == s[i])
  {
    if i >= |s| then []
    else if IsSpace(s[i]) then " " + CollapseFrom(s, SkipSpaces(s, i))
    else [s[i]] + CollapseFrom(s, i + 1)
  }

  /** `re.sub(r"\s+", " ", s)`. */
  function CollapseSpaces(s: string): string
  {
    CollapseFrom(s, 0)
  }

  /** No two whitespace characters stand next to each other in `r`, and the only whitespace is `' '`. */
  predicate SingleSpaced(r: string)
  {
    (forall p :: 0 <= p < |r| && IsSpace(r[p]) ==> r[p] == ' ')
    && forall p :: 0 < p < |r| && IsSpace(r[p]) ==> !IsSpace(r[p - 1])
  }

  /** After the second pass whitespace comes only as single spaces. */
  lemma {:induction false} CollapseFromSingleSpaced(s: string, i: nat)
    ensures SingleSpaced(CollapseFrom(s, i))
    decreases |s| - i
  {
    if i < |s| {
      var r := CollapseFrom(s, i);
      if IsSpace(s[i]) {
        var j := SkipSpaces(s, i);
        CollapseFromSingleSpaced(s, j);
        assert r == " " + CollapseFrom(s, j);
        assert j < |s| ==> !IsSpace(s[j]);
      } else {
        CollapseFromSingleSpaced(s, i + 1);
        assert r == [s[i]] + CollapseFrom(s, i + 1);
      }
    }
  }

  lemma CollapseSpacesSingleSpaced(s: string)
    ensures SingleSpaced(CollapseSpaces(s))
  {
    CollapseFromSingleSpaced(s, 0);
  }

  /** The characters of `s` other than whitespace, in order. */
  function NonSpace(s: string): string
    decreases |s|
  {
    if s == [] then [] else (if IsSpace(s[0]) then [] else [s[0]]) + NonSpace(s[1..])
  }

  lemma NonSpaceAppend(a: string, b: string)
    ensures NonSpace(a + b) == NonSpace(a) + NonSpace(b)
    decreases |a|
  {
    if a != [] {
      var h := if IsSpace(a[0]) then [] else [a[0]];
      assert (a + b)[0] == a[0];
      assert (a + b)[1..] == a[1..] + b;
      NonSpaceAppend(a[1..], b);
      assert h + (NonSpace(a[1..]) + NonSpace(b)) == (h + NonSpace(a[1..])) + NonSpace(b);
    } else {
      assert a + b == b;
    }
  }

  lemma NonSpaceAllSpaces(s: string)
    requires forall k :: 0 <= k < |s| ==> IsSpace(s[k])
    ensures NonSpace(s) == []
    decreases |s|
  {
    if s != [] {
      NonSpaceAllSpaces(s[1..]);
    }
  }

  /** The second pass keeps every character other than whitespace, in order. */
  lemma {:induction false} CollapseFromKeepsText(s: string, i: nat)
    requires i <= |s|
    ensures NonSpace(CollapseFrom(s, i)) == NonSpace(s[i..])
    decreases |s| - i
  {
    if i < |s| {
      if IsSpace(s[i]) {
        var j := SkipSpaces(s, i);
        CollapseFromKeepsText(s, j);
        NonSpaceAppend(" ", CollapseFrom(s, j));
        assert s[i..] == s[i..j] + s[j..];
        NonSpaceAppend(s[i..j], s[j..]);
        NonSpaceAllSpaces(s[i..j]);
        assert NonSpace(" ") == [];
      } else {
        CollapseFromKeepsText(s, i + 1);
        NonSpaceAppend([s[i]], CollapseFrom(s, i + 1));
        assert s[i..] == [s[i]] + s[i + 1..];
        NonSpaceAppend([s[i]], s[i + 1..]);
        assert NonSpace([s[i]]) == [s[i]];
      }
    }
  }

  lemma CollapseSpacesKeepsText(s: string)
    ensures NonSpace(CollapseSpaces(s)) == NonSpace(s)
  {
    CollapseFromKeepsText(s, 0);
    assert s[0..] == s;
  }

  /** A single-spaced text is left alone by the second pass. */
  lemma {:induction false} CollapseFromFixed(s: string, i: nat)
    requires i <= |s| && SingleSpaced(s)
    ensures CollapseFrom(s, i) == s[i..]
    decreases |s| - i
  {
    if i < |s| {
      if IsSpace(s[i]) {
        assert i + 1 < |s| ==> !IsSpace(s[i + 1]);
        assert SkipSpaces(s, i) == i + 1;
        CollapseFromFixed(s, i + 1);
        assert s[i..] == [s[i]] + s[i + 1..];
      } else {
        CollapseFromFixed(s, i + 1);
        assert s[i..] == [s[i]] + s[i + 1..];
      }
    }
  }

  /** The second pass is idempotent. */
  lemma CollapseSpacesIdempotent(s: string)
    ensures CollapseSpaces(CollapseSpaces(s)) == CollapseSpaces(s)
  {
    CollapseSpacesSingleSpaced(s);
    CollapseFromFixed(CollapseSpaces(s), 0);
  }

  /** What `fetch_text` / `fetch_detail` return for a page body. */
  function VisibleText(body: string): string
  {
    CollapseSpaces(StripTags(body))
  }

  /**
   * The visible text of a page has no tag left and no run of whitespace, and
   * it is empty exactly when the page is.
   */
  lemma VisibleTextClean(body: string)
    ensures SingleSpaced(VisibleText(body))
    ensures VisibleText(body) == "" <==> body == ""
  {
    CollapseSpacesSingleSpaced(StripTags(body));
  }

  /**
   * `fetch_text` / `fetch_detail` on an oracle for the network: `None` stands
   * for any failure (a connection error, an HTTP error status), which the
   * source turns into `""`.
   */
  function FetchText(fetch: string -> Option<string>, url: string): string
  {
    match fetch(url)
    case None => ""
    case Some(body) => VisibleText(body)
  }

  /** The fetched text is empty exactly when the fetch failed or the page was empty. */
  lemma FetchTextEmpty(fetch: string -> Option<string>, url: string)
    ensures FetchText(fetch, url) == "" <==> fetch(url) == None || fetch(url) == Some("")
  {
    if fetch(url).Some? {
      VisibleTextClean(fetch(url).value);
    }
  }
}
