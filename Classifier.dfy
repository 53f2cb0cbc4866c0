/**
 * The rule-based classifier shared by `who_feed_filter.py` and `scraper.py`.
 *
 * `ItemState` is the value of a `FeedItem`'s fields; the functions
 * `AfterCheckExcluded`, `AfterCheckGrade`, `AfterCheckLocation` and
 * `AfterShouldImport` say what each check does to that value, and the class
 * `FeedItem` carries the fields and the in-place methods proved against them.
 * The two programs differ only in the prefix of the accept reason, which is
 * a parameter here.
 */
module Classifier {
  import opened Text
  import opened Patterns

  datatype ItemState = ItemState(
    title: string,
    link: string,
    description: string,
    pubDate: string,
    detailHtml: string,
    gradeFound: Option<string>,
    locationOk: bool,
    reason: string)

  const NoGradeMessage: string := "No P/D grade found"
  const NotGenevaMessage: string := "Duty station is not Geneva"
  const BothFailedMessage: string := "No valid grade AND duty station not Geneva"

  function ExcludedReason(token: string): string
  {
    "Excluded role type: '" + token + "' in title"
  }

  function AcceptReason(prefix: string, grade: string): string
  {
    prefix + " \U{2014} grade=" + grade + ", location=Geneva"
  }

  // ------------------------------------------------------------- full text

  /** Python's `sep.join(filter(None, parts))`: the non-empty parts joined by `sep`. */
  function JoinNonEmpty(sep: string, parts: seq<string>): string
    decreases |parts|
  {
    if parts == [] then ""
    else if parts[0] == "" then JoinNonEmpty(sep, parts[1..])
    else if JoinNonEmpty(sep, parts[1..]) == "" then parts[0]
    else parts[0] + sep + JoinNonEmpty(sep, parts[1..])
  }

  /** `_full_text`: title, description and detail text, the non-empty ones joined by `" | "`. */
  function FullText(title: string, description: string, detail: string): string
  {
    JoinNonEmpty(" | ", [title, description, detail])
  }

  /** The full text written out: each separator appears exactly between two non-empty fields. */
  lemma FullTextForm(title: string, description: string, detail: string)
    ensures FullText(title, description, detail)
            == title + (if title != "" && (description != "" || detail != "") then " | " else "")
               + description + (if description != "" && detail != "" then " | " else "")
               + detail
  {
    var parts := [title, description, detail];
    assert parts[1..] == [description, detail];
    assert parts[1..][1..] == [detail];
    assert parts[1..][1..][1..] == [];
    assert JoinNonEmpty(" | ", [detail]) == detail;
    if description == "" {
      assert JoinNonEmpty(" | ", [description, detail]) == detail;
    } else if detail == "" {
      assert JoinNonEmpty(" | ", [description, detail]) == description;
    } else {
      assert JoinNonEmpty(" | ", [description, detail]) == description + " | " + detail;
    }
  }

  // -------------------------------------------------------------- findings

  /** `RE_EXCLUDED_ROLE.search(title)`: the matched text, if any. */
  function ExcludedToken(title: string): Option<string>
  {
    match Search(ExcludedMatchAt, title)
    case None => None
    case Some(i) => Some(title[i .. ExcludedAt(title, i).value])
  }

  /** `RE_GRADE.search(t)`, its match upper-cased with spaces and hyphens removed. */
  function GradeIn(t: string): Option<string>
  {
    match Search(GradeMatchAt, t)
    case None => None
    case Some(k) => Some(Normalize(t[k .. GradeAt(t, k).value]))
  }

  /** The first tier of `check_grade`: a labelled grade in the full text, read back with `RE_GRADE`. */
  function LabelledGradeIn(text: string): Option<string>
  {
    match Search(LabelledGradeMatchAt, text)
    case None => None
    case Some(i) => GradeIn(text[i .. LabelledGradeAt(text, i).value.1])
  }

  /**
   * The grade `check_grade` records: a labelled grade in the full text; else,
   * only when detail text was fetched, a bare grade in the full text; else a
   * bare grade in the title.
   */
  function FoundGrade(st: ItemState): Option<string>
  {
    var text := FullText(st.title, st.description, st.detailHtml);
    if LabelledGradeIn(text).Some? then LabelledGradeIn(text)
    else if st.detailHtml != "" && GradeIn(text).Some? then GradeIn(text)
    else GradeIn(st.title)
  }

  /**
   * Whether `check_location` confirms Geneva: a labelled duty station in the
   * full text; else Geneva closing the title; else, only when detail text
   * was fetched, a bare Geneva in the detail text.
   */
  predicate FoundGeneva(st: ItemState)
  {
    var text := FullText(st.title, st.description, st.detailHtml);
    Search(LabelledLocationMatchAt, text).Some?
    || Search(TitleLocationMatchAt, st.title).Some?
    || (st.detailHtml != "" && Search(BareLocationMatchAt, st.detailHtml).Some?)
  }

  // ---------------------------------------------------------- the checks

  function AfterCheckExcluded(st: ItemState): ItemState
  {
    match ExcludedToken(st.title)
    case Some(token) => st.(reason := ExcludedReason(token))
    case None => st
  }

  function AfterCheckGrade(st: ItemState): ItemState
  {
    match FoundGrade(st)
    case Some(g) => st.(gradeFound := Some(g))
    case None => st.(reason := NoGradeMessage)
  }

  function AfterCheckLocation(st: ItemState): ItemState
  {
    if FoundGeneva(st) then st.(locationOk := true) else st.(reason := NotGenevaMessage)
  }

  /** The verdict of `should_import`. */
  predicate Imports(st: ItemState)
  {
    ExcludedToken(st.title).None? && FoundGrade(st).Some? && FoundGeneva(st)
  }

  /** The item after `should_import`, whose accept reason starts with `prefix`. */
  function AfterShouldImport(st: ItemState, prefix: string): ItemState
  {
    if ExcludedToken(st.title).Some? then AfterCheckExcluded(st)
    else
      var checked := AfterCheckLocation(AfterCheckGrade(st));
      if FoundGrade(st).Some? && FoundGeneva(st) then checked.(reason := AcceptReason(prefix, FoundGrade(st).value))
      else if FoundGrade(st).None? && !FoundGeneva(st) then checked.(reason := BothFailedMessage)
      else checked
  }

  // -------------------------------------------------------------- the item

  class FeedItem {
    var title: string
    var link: string
    var description: string
    var pubDate: string
    var detailHtml: string
    var gradeFound: Option<string>
    var locationOk: bool
    var reason: string

    /** A fresh item: no detail text, no grade, location not confirmed, no reason. */
    constructor (title: string, link: string, description: string, pubDate: string)
      ensures State() == ItemState(title, link, description, pubDate, "", None, false, "")
    {
      this.title := title;
      this.link := link;
      this.description := description;
      this.pubDate := pubDate;
      this.detailHtml := "";
      this.gradeFound := None;
      this.locationOk := false;
      this.reason := "";
    }

    function State(): ItemState
      reads this
    {
      ItemState(title, link, description, pubDate, detailHtml, gradeFound, locationOk, reason)
    }

    /** `check_excluded`: an excluded role in the title sets the reason. */
    method CheckExcluded() returns (excluded: bool)
      modifies this`reason
      ensures excluded == ExcludedToken(old(State()).title).Some?
      ensures State() == AfterCheckExcluded(old(State()))
    {
      var m := Search(ExcludedMatchAt, title);
      if m.Some? {
        reason := ExcludedReason(title[m.value .. ExcludedAt(title, m.value).value]);
        return true;
      }
      return false;
    }

    /** `check_grade`: the tiers in order; the first grade found is recorded. */
    method CheckGrade() returns (found: bool)
      modifies this`gradeFound, this`reason
      ensures found == FoundGrade(old(State())).Some?
      ensures State() == AfterCheckGrade(old(State()))
    {
      var text := FullText(title, description, detailHtml);
      var m := Search(LabelledGradeMatchAt, text);
      if m.Some? {
        var code := GradeIn(text[m.value .. LabelledGradeAt(text, m.value).value.1]);
        if code.Some? {
          gradeFound := code;
          return true;
        }
      }
      if detailHtml != "" {
        var code := GradeIn(text);
        if code.Some? {
          gradeFound := code;
          return true;
        }
      }
      var code := GradeIn(title);
      if code.Some? {
        gradeFound := code;
        return true;
      }
      reason := NoGradeMessage;
      return false;
    }

    /** `check_location`: the tiers in order; any of them confirms Geneva. */
    method CheckLocation() returns (geneva: bool)
      modifies this`locationOk, this`reason
      ensures geneva == FoundGeneva(old(State()))
      ensures State() == AfterCheckLocation(old(State()))
    {
      var text := FullText(title, description, detailHtml);
      if Search(LabelledLocationMatchAt, text).Some? {
        locationOk := true;
        return true;
      }
      if Search(TitleLocationMatchAt, title).Some? {
        locationOk := true;
        return true;
      }
      if detailHtml != "" && Search(BareLocationMatchAt, detailHtml).Some? {
        locationOk := true;
        return true;
      }
      reason := NotGenevaMessage;
      return false;
    }

    /** `should_import`: exclusion first, then both checks, then the final reason. */
    method ShouldImport(acceptPrefix: string) returns (accepted: bool)
      modifies this`gradeFound, this`locationOk, this`reason
      ensures accepted == Imports(old(State()))
      ensures State() == AfterShouldImport(old(State()), acceptPrefix)
    {
      var excluded := CheckExcluded();
      if excluded {
        return false;
      }
      var gradeOk := CheckGrade();
      var genevaOk := CheckLocation();
      if gradeOk && genevaOk {
        reason := AcceptReason(acceptPrefix, gradeFound.value);
        return true;
      }
      if !gradeOk && !genevaOk {
        reason := BothFailedMessage;
      }
      return false;
    }
  }

  // ------------------------------------------------------------ properties

  /** Only the classification fields change; the text fields and the link stay as they were. */
  predicate SameText(a: ItemState, b: ItemState)
  {
    a.title == b.title && a.link == b.link && a.description == b.description
    && a.pubDate == b.pubDate && a.detailHtml == b.detailHtml
  }

  /**
   * An excluded title decides the verdict before any other check: the item is
   * rejected with the excluded reason, and its grade and location fields are
   * left as they were, whatever the description and detail text say.
   */
  lemma ExclusionFirst(st: ItemState, prefix: string)
    requires ExcludedToken(st.title).Some?
    ensures !Imports(st)
    ensures AfterShouldImport(st, prefix) == st.(reason := ExcludedReason(ExcludedToken(st.title).value))
  {
  }

  /**
   * The excluded-role check reads only the title: changing the description
   * and the detail text before it is the same as changing them after it,
   * and an excluded title rejects the item whatever they hold.
   */
  lemma ExclusionReadsTitleOnly(st: ItemState, d: string, h: string)
    ensures AfterCheckExcluded(st.(description := d, detailHtml := h))
            == AfterCheckExcluded(st).(description := d, detailHtml := h)
    ensures ExcludedToken(st.title).Some? ==> !Imports(st) && !Imports(st.(description := d, detailHtml := h))
  {
  }

  /** Every grade `GradeIn` reports is one of the eight codes. */
  lemma GradeInIsCode(t: string)
    ensures GradeIn(t).Some? ==> GradeIn(t).value in GradeCodes
  {
    match Search(GradeMatchAt, t)
    case None =>
    case Some(k) =>
      var e := GradeAt(t, k).value;
      GradeAtMeans(t, k, e);
      NormalizeGradeToken(t[k..e]);
  }

  /** Every grade `check_grade` records is one of P1..P6, D1, D2. */
  lemma FoundGradeIsCode(st: ItemState)
    ensures FoundGrade(st).Some? ==> FoundGrade(st).value in GradeCodes
  {
    var text := FullText(st.title, st.description, st.detailHtml);
    LabelledGradeInIsCode(text);
    GradeInIsCode(text);
    GradeInIsCode(st.title);
  }

  lemma LabelledGradeInIsCode(text: string)
    ensures LabelledGradeIn(text).Some? ==> LabelledGradeIn(text).value in GradeCodes
  {
    if Search(LabelledGradeMatchAt, text).Some? {
      var i := Search(LabelledGradeMatchAt, text).value;
      GradeInIsCode(text[i .. LabelledGradeAt(text, i).value.1]);
    }
  }

  /** Reading a labelled match back with `RE_GRADE` gives the grade inside it. */
  lemma LabelledGradeInIsCore(text: string, i: nat, k: nat, e: nat)
    requires Search(LabelledGradeMatchAt, text) == Some(i) && LabelledGradeAt(text, i) == Some((k, e))
    ensures GradeAt(text, k).Some?
    ensures LabelledGradeIn(text) == Some(Normalize(text[k .. GradeAt(text, k).value]))
  {
    LabelledMatchHoldsGrade(text, i, k, e);
    var g := GradeAt(text, k).value;
    assert LabelledGradeIn(text) == GradeIn(text[i..e]) by {
      LabelledGradeInReads(text, i, e);
    }
    assert GradeIn(text[i..e]) == Some(Normalize(text[k..g])) by {
      GradeInSlice(text, i, k, e, g);
    }
  }

  lemma GradeInSlice(text: string, i: nat, k: nat, e: nat, g: nat)
    requires i <= k <= g <= e <= |text|
    requires Search(GradeMatchAt, text[i..e]) == Some(k - i)
    requires GradeAt(text[i..e], k - i) == Some(g - i)
    ensures GradeIn(text[i..e]) == Some(Normalize(text[k..g]))
  {
    GradeInFirst(text[i..e], k - i, g - i);
    SliceOfSlice(text, i, e, k - i, g - i, k, g);
  }

  lemma LabelledGradeInReads(text: string, i: nat, e: nat)
    requires Search(LabelledGradeMatchAt, text) == Some(i) && LabelledGradeAt(text, i).value.1 == e
    ensures LabelledGradeIn(text) == GradeIn(text[i..e])
  {
  }

  lemma GradeInFirst(t: string, j: nat, f: nat)
    requires Search(GradeMatchAt, t) == Some(j) && GradeAt(t, j) == Some(f)
    ensures GradeIn(t) == Some(Normalize(t[j..f]))
  {
  }

  /**
   * The first grade tier never falls through: when the labelled pattern
   * matches, the grade recorded is the one inside that match.
   */
  lemma LabelledTierDecides(st: ItemState)
    requires Search(LabelledGradeMatchAt, FullText(st.title, st.description, st.detailHtml)).Some?
    ensures var text := FullText(st.title, st.description, st.detailHtml);
            var i := Search(LabelledGradeMatchAt, text).value;
            var k := LabelledGradeAt(text, i).value.0;
            FoundGrade(st) == Some(Normalize(text[k .. GradeAt(text, k).value]))
  {
    var text := FullText(st.title, st.description, st.detailHtml);
    var i := Search(LabelledGradeMatchAt, text).value;
    var (k, e) := LabelledGradeAt(text, i).value;
    LabelledGradeInIsCore(text, i, k, e);
  }

  /**
   * Without detail text only the labelled tiers and the title count: a bare
   * grade in the description is not read, and a bare Geneva outside a label
   * or the title's end confirms nothing.
   */
  lemma NoDetailGate(st: ItemState)
    requires st.detailHtml == ""
    ensures var text := FullText(st.title, st.description, "");
            FoundGrade(st) == (if LabelledGradeIn(text).Some? then LabelledGradeIn(text) else GradeIn(st.title))
    ensures FoundGeneva(st) <==>
            Search(LabelledLocationMatchAt, FullText(st.title, st.description, "")).Some?
            || Search(TitleLocationMatchAt, st.title).Some?
  {
  }

  /** A `Duty Station: Geneva` block anywhere in the full text confirms the duty station. */
  lemma DutyStationConfirms(st: ItemState, a: string, b: string)
    requires FullText(st.title, st.description, st.detailHtml) == a + "Duty Station: Geneva" + b
    ensures FoundGeneva(st) && AfterCheckLocation(st).locationOk
  {
    DutyStationGenevaIsLabelled(a, b);
    SearchIsLeftmost(LabelledLocationMatchAt, a + "Duty Station: Geneva" + b);
  }

  /** A title that closes with `, Geneva` or ` (Geneva)` confirms the duty station, whatever else the item says. */
  lemma GenevaTitleConfirms(st: ItemState, t: string)
    requires st.title == t + ", Geneva" || st.title == t + " (Geneva)"
    ensures FoundGeneva(st) && AfterCheckLocation(st).locationOk
  {
    var i: nat := if st.title == t + ", Geneva" then |t| else |t| + 1;
    CommaGenevaTitle(t);
    ParenthesisedGenevaTitle(t);
    assert TitleLocationMatchAt(st.title, i);
    SearchIsLeftmost(TitleLocationMatchAt, st.title);
  }

  /** A bare `Geneva` confirms the duty station when it is in the fetched detail text. */
  lemma GenevaInDetailConfirms(st: ItemState, a: string, b: string)
    requires st.detailHtml == a + " Geneva " + b
    ensures FoundGeneva(st) && AfterCheckLocation(st).locationOk
  {
    SpacedGenevaIsBare(a, b);
    assert BareLocationMatchAt(st.detailHtml, |a| + 1);
    SearchIsLeftmost(BareLocationMatchAt, st.detailHtml);
  }

  /**
   * Without detail text, a Geneva that no duty-station label introduces and
   * that does not close the title confirms nothing: when the full text has no
   * label word and the title has no comma or parenthesis, the item is not in
   * Geneva, whatever the description says.
   */
  lemma UnlabelledGenevaNotConfirmed(st: ItemState)
    requires st.detailHtml == ""
    requires forall i :: 0 <= i <= |FullText(st.title, st.description, "")|
                         ==> !LabelWordAt(FullText(st.title, st.description, ""), i)
    requires forall i :: 0 <= i < |st.title| ==> st.title[i] != ',' && st.title[i] != '('
    ensures !FoundGeneva(st) && AfterCheckLocation(st).reason == NotGenevaMessage
  {
    var text := FullText(st.title, st.description, "");
    forall j: nat | j <= |text| && LabelledLocationMatchAt(text, j)
      ensures false
    {
      LabelledMatchNeeds(text, j);
    }
    SearchIsLeftmost(LabelledLocationMatchAt, text);
    forall j: nat | j <= |st.title| && TitleLocationMatchAt(st.title, j)
      ensures false
    {
      var e, m := TitleMatchNeeds(st.title, j);
    }
    SearchIsLeftmost(TitleLocationMatchAt, st.title);
  }

  /** A character that cannot begin a duty-station label word. */
  predicate NotLabelInitial(c: char)
  {
    Lower(c) !in "dlbhpoc"
  }

  /** When no character of the title or the description can begin a label word, the full text holds no label. */
  lemma NoLabelInitialNoLabel(title: string, description: string)
    requires forall i :: 0 <= i < |title| ==> NotLabelInitial(title[i])
    requires forall i :: 0 <= i < |description| ==> NotLabelInitial(description[i])
    ensures forall i :: 0 <= i <= |FullText(title, description, "")| ==> !LabelWordAt(FullText(title, description, ""), i)
  {
    FullTextForm(title, description, "");
    var text := FullText(title, description, "");
    forall i | 0 <= i <= |text| && LabelWordAt(text, i)
      ensures false
    {
      LabelWordInitial(text, i);
    }
  }

  /** A job whose description only mentions visits to Geneva is not placed there. */
  lemma VisitsToGenevaNotConfirmed()
    ensures var st := ItemState("Team Manager", "", "May require visits in Geneva", "", "", None, false, "");
            !FoundGeneva(st) && AfterCheckLocation(st).reason == NotGenevaMessage
  {
    var st := ItemState("Team Manager", "", "May require visits in Geneva", "", "", None, false, "");
    VisitsTitleCharacters(st.title);
    VisitsDescriptionCharacters(st.description);
    NoLabelInitialNoLabel(st.title, st.description);
    UnlabelledGenevaNotConfirmed(st);
  }

  lemma VisitsTitleCharacters(t: string)
    requires t == "Team Manager"
    ensures forall i :: 0 <= i < |t| ==> NotLabelInitial(t[i]) && t[i] != ',' && t[i] != '('
  {
  }

  lemma VisitsDescriptionCharacters(d: string)
    requires d == "May require visits in Geneva"
    ensures forall i :: 0 <= i < |d| ==> NotLabelInitial(d[i])
  {
  }

  /**
   * `should_import` changes only the classification fields, and the reason
   * it leaves is never empty.
   */
  lemma ShouldImportKeepsText(st: ItemState, prefix: string)
    ensures SameText(AfterShouldImport(st, prefix), st)
    ensures AfterShouldImport(st, prefix).reason != ""
  {
    if ExcludedToken(st.title).None? {
      var r := AfterShouldImport(st, prefix);
      if FoundGrade(st).Some? && FoundGeneva(st) {
        assert r.reason == AcceptReason(prefix, FoundGrade(st).value);
      }
    }
  }

  /**
   * An accepted item has a confirmed location, a grade among the eight
   * codes and the accept reason naming that grade.
   */
  lemma AcceptedItem(st: ItemState, prefix: string)
    requires Imports(st)
    ensures var r := AfterShouldImport(st, prefix);
            && r.locationOk && r.gradeFound == FoundGrade(st) && r.gradeFound.Some?
            && r.gradeFound.value in GradeCodes
            && r.reason == AcceptReason(prefix, r.gradeFound.value)
  {
    FoundGradeIsCode(st);
  }

  /**
   * A rejection that is not an exclusion tells which test failed: both, only
   * the grade, or only the location.
   */
  lemma RejectionReason(st: ItemState, prefix: string)
    requires ExcludedToken(st.title).None? && !Imports(st)
    ensures var r := AfterShouldImport(st, prefix);
            && (FoundGrade(st).None? && !FoundGeneva(st) ==> r.reason == BothFailedMessage)
            && (FoundGrade(st).None? && FoundGeneva(st) ==> r.reason == NoGradeMessage && r.locationOk)
            && (FoundGrade(st).Some? && !FoundGeneva(st) ==> r.reason == NotGenevaMessage && r.gradeFound == FoundGrade(st))
  {
  }

  /** The classification depends on the text fields only. */
  lemma SameTextSameFindings(a: ItemState, b: ItemState)
    requires SameText(a, b)
    ensures FoundGrade(a) == FoundGrade(b)
    ensures FoundGeneva(a) == FoundGeneva(b)
    ensures Imports(a) == Imports(b)
  {
  }

  /**
   * Classifying again changes nothing: the verdict is the same and so are
   * all the fields, the reason included.
   */
  lemma ShouldImportIdempotent(st: ItemState, prefix: string)
    ensures Imports(AfterShouldImport(st, prefix)) == Imports(st)
    ensures AfterShouldImport(AfterShouldImport(st, prefix), prefix) == AfterShouldImport(st, prefix)
  {
    var r := AfterShouldImport(st, prefix);
    ShouldImportKeepsText(st, prefix);
    SameTextSameFindings(r, st);
  }

  /**
   * The prefix of the accept reason is the only difference between the two
   * programs' `should_import`: the verdict and every other field agree.
   */
  lemma PrefixOnlyChangesReason(st: ItemState, p: string, q: string)
    ensures AfterShouldImport(st, p).(reason := "") == AfterShouldImport(st, q).(reason := "")
    ensures !Imports(st) ==> AfterShouldImport(st, p) == AfterShouldImport(st, q)
  {
  }
}
