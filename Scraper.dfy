/**
 * The pipeline of `scraper.py`: `filter_feed` rejects an item whose title
 * names an excluded role before anything is fetched (stage 1), otherwise
 * fetches its detail page when it has a link and classifies it (stage 2);
 * `build_rss` writes a fresh RSS 2.0 document for the accepted items, and
 * `main` refuses an upstream response that is missing, blank, an HTML page
 * or not XML.
 */
module Scraper {
  import opened Text
  import opened Markup
  import opened Patterns
  import opened Classifier
  import opened Selection
  import opened Feed
  import WhoFeedFilter

  /** The accept-reason prefix of `scraper.py`. */
  const AcceptPrefix: string := "IMPORT"

  /** `should_import` of `scraper.py`: the shared classifier with this program's prefix. */
  method ShouldImport(item: FeedItem) returns (accepted: bool)
    modifies item`gradeFound, item`locationOk, item`reason
    ensures accepted == Imports(old(item.State()))
    ensures item.State() == AfterShouldImport(old(item.State()), AcceptPrefix)
  {
    accepted := item.ShouldImport(AcceptPrefix);
  }

  // ------------------------------------------------------- the two stages

  /** Stage 1 rejects the item: its title names an excluded role. */
  predicate Excluded(st: ItemState)
  {
    ExcludedToken(st.title).Some?
  }

  /** `filter_feed` requests the item's page exactly when it passed stage 1 and has a link. */
  predicate Fetches(st: ItemState)
  {
    !Excluded(st) && st.link != ""
  }

  /** The item after `filter_feed` has handled it. */
  function Outcome(st: ItemState, fetch: string -> Option<string>): ItemState
  {
    if Excluded(st) then AfterCheckExcluded(st)
    else AfterShouldImport(WithDetail(st, fetch), AcceptPrefix)
  }

  /** The verdict of `filter_feed` on the item. */
  predicate Accepts(st: ItemState, fetch: string -> Option<string>)
  {
    !Excluded(st) && Imports(WithDetail(st, fetch))
  }

  function OutcomeOf(fetch: string -> Option<string>): ItemState -> ItemState
  {
    st => Outcome(st, fetch)
  }

  function VerdictOf(fetch: string -> Option<string>): ItemState -> bool
  {
    st => Accepts(st, fetch)
  }

  /** The items after `filter_feed` has handled them, in feed order. */
  function Outcomes(ps: seq<ItemState>, fetch: string -> Option<string>): seq<ItemState>
  {
    MapSeq(OutcomeOf(fetch), ps)
  }

  /** The verdicts of `filter_feed`, one per item. */
  function Verdicts(ps: seq<ItemState>, fetch: string -> Option<string>): seq<bool>
  {
    MapSeq(VerdictOf(fetch), ps)
  }

  /** Item `k` after `filter_feed` is item `k` of the parsed feed, handled; its verdict is the two stages'. */
  lemma OutcomesAt(ps: seq<ItemState>, fetch: string -> Option<string>, k: nat)
    requires k < |ps|
    ensures Outcomes(ps, fetch)[k] == Outcome(ps[k], fetch)
    ensures Verdicts(ps, fetch)[k] == Accepts(ps[k], fetch)
  {
    MapSeqAt(OutcomeOf(fetch), ps, k);
    MapSeqAt(VerdictOf(fetch), ps, k);
  }

  function FetchFlags(ps: seq<ItemState>): (r: seq<bool>)
    ensures |r| == |ps| && forall k :: 0 <= k < |ps| ==> r[k] == Fetches(ps[k])
  {
    seq(|ps|, k requires 0 <= k < |ps| => Fetches(ps[k]))
  }

  /** The pages `filter_feed` requests, in order. */
  function FetchedLinks(ps: seq<ItemState>): seq<string>
  {
    Select(Links(ps), FetchFlags(ps), true)
  }

  /** `outs` and `verdicts` are what `filter_feed` makes of the parsed items `ps`, item by item. */
  predicate HandledAs(ps: seq<ItemState>, outs: seq<ItemState>, verdicts: seq<bool>, flags: seq<bool>, fetch: string -> Option<string>)
  {
    && |outs| == |ps| && |verdicts| == |ps| && |flags| == |ps|
    && forall k {:trigger Outcome(ps[k], fetch)} :: 0 <= k < |ps| ==>
         outs[k] == Outcome(ps[k], fetch) && verdicts[k] == Accepts(ps[k], fetch)
         && flags[k] == Fetches(ps[k])
  }

  lemma OutcomesHandled(ps: seq<ItemState>, fetch: string -> Option<string>)
    ensures HandledAs(ps, Outcomes(ps, fetch), Verdicts(ps, fetch), FetchFlags(ps), fetch)
  {
    forall k | 0 <= k < |ps|
      ensures Outcomes(ps, fetch)[k] == Outcome(ps[k], fetch)
      ensures Verdicts(ps, fetch)[k] == Accepts(ps[k], fetch)
    {
      OutcomesAt(ps, fetch, k);
    }
  }

  // ---------------------------------------------------------- the loop

  /** One turn of `filter_feed`'s loop: stage 1, then the fetch and stage 2 for a survivor. */
  method FilterItem(item: FeedItem, fetch: string -> Option<string>) returns (accepted: bool, fetched: bool)
    modifies item
    ensures item.link == old(item.link)
    ensures accepted == Accepts(old(item.State()), fetch)
    ensures fetched == Fetches(old(item.State()))
    ensures item.State() == Outcome(old(item.State()), fetch)
  {
    var excluded := item.CheckExcluded();
    if excluded {
      return false, false;
    }
    fetched := item.link != "";
    if fetched {
      item.detailHtml := FetchText(fetch, item.link);
    }
    accepted := ShouldImport(item);
  }

  /** `FilterItem` on item `i` of the parsed items `ps`, whose outcomes are `outs`. */
  method FilterNth(item: FeedItem, ghost ps: seq<ItemState>, ghost outs: seq<ItemState>, ghost verdicts: seq<bool>, ghost flags: seq<bool>,
                   ghost i: nat, fetch: string -> Option<string>)
    returns (accepted: bool, fetched: bool)
    requires HandledAs(ps, outs, verdicts, flags, fetch)
    requires i < |ps| && item.State() == ps[i]
    modifies item
    ensures item.link == ps[i].link
    ensures accepted == verdicts[i] && fetched == flags[i]
    ensures item.State() == outs[i]
  {
    accepted, fetched := FilterItem(item, fetch);
    assert outs[i] == Outcome(ps[i], fetch);
  }

  /** `FilterNth` on `items[i]`; the other items are left alone. */
  method FilterAt(items: seq<FeedItem>, ghost ps: seq<ItemState>, ghost outs: seq<ItemState>, ghost verdicts: seq<bool>, ghost flags: seq<bool>,
                  i: nat, fetch: string -> Option<string>)
    returns (accepted: bool, fetched: bool)
    requires HandledAs(ps, outs, verdicts, flags, fetch) && Distinct(items)
    requires i < |items| && Progress(items, ps, outs, i)
    modifies items[i]
    ensures items[i].link == ps[i].link
    ensures accepted == verdicts[i] && fetched == flags[i]
    ensures Progress(items, ps, outs, i + 1)
  {
    accepted, fetched := FilterNth(items[i], ps, outs, verdicts, flags, i, fetch);
  }

  /** The loop of `filter_feed` over the parsed items, whose fields hold `ps`. */
  method FilterAll(items: seq<FeedItem>, ghost ps: seq<ItemState>, ghost outs: seq<ItemState>, ghost verdicts: seq<bool>, ghost flags: seq<bool>,
                   fetch: string -> Option<string>)
    returns (accepted: seq<FeedItem>, rejected: seq<FeedItem>, fetched: seq<string>)
    requires StatesAre(items, ps) && Distinct(items)
    requires HandledAs(ps, outs, verdicts, flags, fetch)
    modifies set x | x in items
    ensures StatesAre(items, outs)
    ensures accepted == Select(items, verdicts, true) && rejected == Select(items, verdicts, false)
    ensures StatesAre(accepted, Select(outs, verdicts, true)) && StatesAre(rejected, Select(outs, verdicts, false))
    ensures fetched == Select(Links(ps), flags, true)
  {
    ghost var links := Links(ps);
    accepted, rejected, fetched := [], [], [];
    var i := 0;
    while i < |items|
      invariant Progress(items, ps, outs, i)
      invariant Routed(items, verdicts, links, flags, i, accepted, rejected, fetched)
    {
      var item := items[i];
      var ok, didFetch := FilterAt(items, ps, outs, verdicts, flags, i, fetch);
      ghost var accepted0, rejected0, fetched0 := accepted, rejected, fetched;
      if didFetch {
        fetched := fetched + [item.link];
      }
      if ok {
        accepted := accepted + [item];
      } else {
        rejected := rejected + [item];
      }
      RoutedNext(items, verdicts, links, flags, i, accepted0, rejected0, fetched0, accepted, rejected, fetched);
      i := i + 1;
    }
    SelectedStates(items, outs, verdicts, true);
    SelectedStates(items, outs, verdicts, false);
  }

  /**
   * `filter_feed`: every parsed item is handled once, in feed order, and
   * lands in `accepted` or in `rejected` by the two stages' verdict;
   * `fetched` logs the page requests.
   */
  method FilterFeed(raws: seq<RawItem>, fetch: string -> Option<string>)
    returns (ghost items: seq<FeedItem>, accepted: seq<FeedItem>, rejected: seq<FeedItem>, fetched: seq<string>)
    ensures var ps := ParsedStates(raws);
            && StatesAre(items, Outcomes(ps, fetch))
            && accepted == Select(items, Verdicts(ps, fetch), true)
            && rejected == Select(items, Verdicts(ps, fetch), false)
            && StatesAre(accepted, Select(Outcomes(ps, fetch), Verdicts(ps, fetch), true))
            && StatesAre(rejected, Select(Outcomes(ps, fetch), Verdicts(ps, fetch), false))
            && fetched == FetchedLinks(ps)
  {
    var parsed := ParseFeed(raws);
    items := parsed;
    ghost var ps := ParsedStates(raws);
    OutcomesHandled(ps, fetch);
    accepted, rejected, fetched := FilterAll(parsed, ps, Outcomes(ps, fetch), Verdicts(ps, fetch), FetchFlags(ps), fetch);
  }

  // ------------------------------------------------- the two stages' results

  /**
   * The stage-1 check is only a shortcut: `should_import` checks exclusion
   * again, and running it on the unfetched excluded item gives the same item
   * and the same verdict.  So `filter_feed` classifies like the single-stage
   * pipeline, and an excluded item keeps its empty detail text.
   */
  lemma SecondExclusionHarmless(st: ItemState, fetch: string -> Option<string>)
    ensures Outcome(st, fetch) == AfterShouldImport(if Excluded(st) then st else WithDetail(st, fetch), AcceptPrefix)
    ensures Accepts(st, fetch) == Imports(WithDetail(st, fetch))
    ensures Excluded(st) ==> Outcome(st, fetch).detailHtml == st.detailHtml && !Accepts(st, fetch)
    ensures !Excluded(st) ==> ExcludedToken(WithDetail(st, fetch).title).None?
                              && AfterCheckExcluded(WithDetail(st, fetch)) == WithDetail(st, fetch)
  {
    ExclusionReadsTitleOnly(st, st.description, WithDetail(st, fetch).detailHtml);
  }

  /**
   * `scraper.py` accepts exactly the items `who_feed_filter.py` accepts with
   * detail fetching on; only the requests differ (none for excluded items).
   */
  lemma SameVerdictAsWhoFeedFilter(st: ItemState, fetch: string -> Option<string>)
    ensures Accepts(st, fetch) == Imports(WhoFeedFilter.Enriched(st, true, fetch))
    ensures Fetches(st) ==> WhoFeedFilter.Fetches(st, true)
    ensures !Excluded(st) ==> Fetches(st) == WhoFeedFilter.Fetches(st, true)
  {
    SecondExclusionHarmless(st, fetch);
  }

  /**
   * An item `filter_feed` accepts carries the reason
   * "IMPORT — grade=<code>, location=Geneva" with its grade among the eight
   * codes.
   */
  lemma AcceptedReason(st: ItemState, fetch: string -> Option<string>)
    requires Accepts(st, fetch)
    ensures var r := Outcome(st, fetch);
            && r.locationOk && r.gradeFound.Some? && r.gradeFound.value in GradeCodes
            && r.reason == "IMPORT \U{2014} grade=" + r.gradeFound.value + ", location=Geneva"
  {
    var r := Outcome(st, fetch);
    AcceptedItem(WithDetail(st, fetch), AcceptPrefix);
    AcceptReasonText(r.gradeFound.value);
  }

  /** The accept reason of `scraper.py`, written out. */
  lemma AcceptReasonText(g: string)
    ensures AcceptReason(AcceptPrefix, g) == "IMPORT \U{2014} grade=" + g + ", location=Geneva"
  {
    assert AcceptPrefix + " \U{2014} grade=" == "IMPORT \U{2014} grade=";
  }

  /** An item stage 1 rejects is left as parsed but for the reason, which names the excluded role. */
  lemma ExcludedOutcome(st: ItemState, fetch: string -> Option<string>)
    requires Excluded(st)
    ensures Outcome(st, fetch) == st.(reason := ExcludedReason(ExcludedToken(st.title).value))
    ensures !Accepts(st, fetch)
  {
  }

  /** Every handled item carries a reason, and its text fields are as parsed but for the detail text. */
  lemma OutcomeHasReason(st: ItemState, fetch: string -> Option<string>)
    ensures Outcome(st, fetch).reason != ""
    ensures var r := Outcome(st, fetch);
            r.title == st.title && r.link == st.link && r.description == st.description && r.pubDate == st.pubDate
  {
    if !Excluded(st) {
      ShouldImportKeepsText(WithDetail(st, fetch), AcceptPrefix);
    }
  }

  /** Every parsed item is accepted or rejected, and none is both or lost. */
  lemma FilterFeedPartition(ps: seq<ItemState>, fetch: string -> Option<string>)
    ensures var outs, v := Outcomes(ps, fetch), Verdicts(ps, fetch);
            && |Select(outs, v, true)| + |Select(outs, v, false)| == |ps|
            && multiset(Select(outs, v, true)) + multiset(Select(outs, v, false)) == multiset(outs)
  {
    SelectSplits(Outcomes(ps, fetch), Verdicts(ps, fetch));
  }

  /**
   * At most one request per item, each for the non-empty link of an item
   * that passed stage 1; an item stage 1 rejects is never fetched.
   */
  lemma FetchedOnlySurvivors(ps: seq<ItemState>, u: string)
    ensures |FetchedLinks(ps)| <= |ps|
    ensures u in FetchedLinks(ps) <==> exists k :: 0 <= k < |ps| && ps[k].link == u && Fetches(ps[k])
    ensures u in FetchedLinks(ps) ==> u != ""
  {
    SelectSplits(Links(ps), FetchFlags(ps));
    SelectMembers(Links(ps), FetchFlags(ps), true, u);
  }

  /** A fetch that fails, or returns an empty page, leaves the item to be classified as parsed. */
  lemma FailedFetchClassifiesAsUnfetched(st: ItemState, fetch: string -> Option<string>)
    requires st.detailHtml == ""
    requires st.link != "" ==> fetch(st.link) == None || fetch(st.link) == Some("")
    ensures Outcome(st, fetch) == AfterShouldImport(st, AcceptPrefix)
    ensures Accepts(st, fetch) == Imports(st)
  {
    FailedFetchIsNoDetail(st, fetch);
    SecondExclusionHarmless(st, fetch);
  }

  // ------------------------------------------------------------ build_rss

  /** An XML element as `xml.etree.ElementTree` builds it: tag, attributes, text and children. */
  datatype Element = Element(tag: string, attributes: seq<(string, string)>, text: string, children: seq<Element>)

  function Leaf(tag: string, text: string): Element
  {
    Element(tag, [], text, [])
  }

  const ChannelTitle: string := "WHO Geneva Professional/Director Vacancies (filtered by cinfo)"
  const ChannelLink: string := "https://cinfoposte.github.io/who-feed-filter/who_feed_filter.xml"
  const ChannelDescription: string :=
    "Filtered WHO job feed: Geneva-based positions at Professional and Director grade (P1-P6, D1-D2). Source: WHO Careers RSS."

  /**
   * The `<item>` `build_rss` writes for an accepted item: title, link, the
   * publication date only when there is one, description, and a permalink
   * `guid` holding the link.
   */
  function ItemElement(st: ItemState): Element
  {
    Element("item", [], "",
            [Leaf("title", st.title)] + ([Leaf("link", st.link)]
            + ((if st.pubDate != "" then [Leaf("pubDate", st.pubDate)] else [])
            + ([Leaf("description", st.description)] + [Element("guid", [("isPermaLink", "true")], st.link, [])]))))
  }

  function ItemElements(sts: seq<ItemState>): (r: seq<Element>)
    ensures |r| == |sts| && forall k :: 0 <= k < |sts| ==> r[k] == ItemElement(sts[k])
  {
    seq(|sts|, k requires 0 <= k < |sts| => ItemElement(sts[k]))
  }

  /** The channel header: the fixed title, link and description, and the build time. */
  function ChannelHeader(lastBuildDate: string): seq<Element>
  {
    [Leaf("title", ChannelTitle), Leaf("link", ChannelLink), Leaf("description", ChannelDescription),
     Leaf("lastBuildDate", lastBuildDate)]
  }

  /** The RSS 2.0 document `build_rss` writes around the item elements `items`. */
  function RssDocument(lastBuildDate: string, items: seq<Element>): Element
  {
    Element("rss", [("version", "2.0")], "", [Element("channel", [], "", ChannelHeader(lastBuildDate) + items)])
  }

  /**
   * `build_rss`: one `<item>` per accepted item, in order, after the channel
   * header; `lastBuildDate` is the formatted time of the run.
   */
  method BuildRss(accepted: seq<FeedItem>, lastBuildDate: string) returns (rss: Element)
    ensures rss == RssDocument(lastBuildDate, ItemElements(StatesOf(accepted)))
  {
    var items: seq<Element> := [];
    var i := 0;
    while i < |accepted|
      invariant i <= |accepted| && |items| == i
      invariant forall k :: 0 <= k < i ==> items[k] == ItemElement(accepted[k].State())
    {
      var item := accepted[i];
      var children := [Leaf("title", item.title), Leaf("link", item.link)];
      if item.pubDate != "" {
        children := children + [Leaf("pubDate", item.pubDate)];
      }
      children := children + [Leaf("description", item.description)];
      children := children + [Element("guid", [("isPermaLink", "true")], item.link, [])];
      assert Element("item", [], "", children) == ItemElement(item.State());
      items := items + [Element("item", [], "", children)];
      i := i + 1;
    }
    assert items == ItemElements(StatesOf(accepted));
    rss := RssDocument(lastBuildDate, items);
  }

  // ------------------------------------------------------- reading it back

  /** The children of `cs` with tag `tag`, in order: `findall(tag)`. */
  function Tagged(cs: seq<Element>, tag: string): (r: seq<Element>)
    ensures |r| <= |cs|
    decreases |cs|
  {
    if cs == [] then [] else (if cs[0].tag == tag then [cs[0]] else []) + Tagged(cs[1..], tag)
  }

  /** `findtext(tag)`: the text of the first child with tag `tag`, if there is one. */
  function FindText(e: Element, tag: string): Option<string>
  {
    var t := Tagged(e.children, tag);
    if t == [] then None else Some(t[0].text)
  }

  /** The value of attribute `name` of `e`, if it has one. */
  function Attribute(attributes: seq<(string, string)>, name: string): Option<string>
    decreases |attributes|
  {
    if attributes == [] then None
    else if attributes[0].0 == name then Some(attributes[0].1)
    else Attribute(attributes[1..], name)
  }

  /** The first child of `e` with tag `tag`, if there is one. */
  function Find(e: Element, tag: string): Option<Element>
  {
    var t := Tagged(e.children, tag);
    if t == [] then None else Some(t[0])
  }

  lemma {:induction false} TaggedAppend(a: seq<Element>, b: seq<Element>, tag: string)
    ensures Tagged(a + b, tag) == Tagged(a, tag) + Tagged(b, tag)
    decreases |a|
  {
    if a != [] {
      assert (a + b)[1..] == a[1..] + b;
      TaggedAppend(a[1..], b, tag);
    } else {
      assert a + b == b;
    }
  }

  lemma TaggedOne(e: Element, tag: string)
    ensures Tagged([e], tag) == if e.tag == tag then [e] else []
  {
    assert [e][1..] == [];
  }

  lemma TaggedNone(cs: seq<Element>, tag: string)
    requires forall k :: 0 <= k < |cs| ==> cs[k].tag != tag
    ensures Tagged(cs, tag) == []
    decreases |cs|
  {
    if cs != [] {
      TaggedNone(cs[1..], tag);
    }
  }

  lemma {:induction false} TaggedAll(cs: seq<Element>, tag: string)
    requires forall k :: 0 <= k < |cs| ==> cs[k].tag == tag
    ensures Tagged(cs, tag) == cs
    decreases |cs|
  {
    if cs != [] {
      TaggedAll(cs[1..], tag);
      assert cs == [cs[0]] + cs[1..];
    }
  }

  lemma TaggedCons(e: Element, rest: seq<Element>, tag: string)
    ensures Tagged([e] + rest, tag) == (if e.tag == tag then [e] else []) + Tagged(rest, tag)
  {
    assert ([e] + rest)[1..] == rest;
  }

  /** The children of an item element with a given tag, written out. */
  lemma ItemTagged(st: ItemState, tag: string)
    ensures Tagged(ItemElement(st).children, tag)
            == (if tag == "title" then [Leaf("title", st.title)] else [])
               + ((if tag == "link" then [Leaf("link", st.link)] else [])
               + ((if tag == "pubDate" && st.pubDate != "" then [Leaf("pubDate", st.pubDate)] else [])
               + ((if tag == "description" then [Leaf("description", st.description)] else [])
               + (if tag == "guid" then [Element("guid", [("isPermaLink", "true")], st.link, [])] else []))))
  {
    var t, l := Leaf("title", st.title), Leaf("link", st.link);
    var p: seq<Element> := if st.pubDate != "" then [Leaf("pubDate", st.pubDate)] else [];
    var d, g := Leaf("description", st.description), Element("guid", [("isPermaLink", "true")], st.link, []);
    TaggedCons(t, [l] + (p + ([d] + [g])), tag);
    TaggedCons(l, p + ([d] + [g]), tag);
    TaggedAppend(p, [d] + [g], tag);
    TaggedCons(d, [g], tag);
    TaggedOne(g, tag);
    if st.pubDate != "" {
      TaggedOne(p[0], tag);
    } else {
      assert Tagged(p, tag) == [];
    }
  }

  /**
   * Reading an item element back: `findtext` gives the item's title, link
   * and description, the publication date exactly when it is non-empty, and
   * the `guid` holds the link and says `isPermaLink="true"`.
   */
  lemma ItemReadBack(st: ItemState)
    ensures var e := ItemElement(st);
            && FindText(e, "title") == Some(st.title)
            && FindText(e, "link") == Some(st.link)
            && FindText(e, "description") == Some(st.description)
            && FindText(e, "pubDate") == (if st.pubDate != "" then Some(st.pubDate) else None)
            && FindText(e, "guid") == Some(st.link)
            && Find(e, "guid").Some? && Attribute(Find(e, "guid").value.attributes, "isPermaLink") == Some("true")
            && FindText(e, "content:encoded") == None
  {
    ItemTagged(st, "title");
    ItemTagged(st, "link");
    ItemTagged(st, "description");
    ItemTagged(st, "pubDate");
    ItemTagged(st, "guid");
    ItemTagged(st, "content:encoded");
  }

  /** The `<item>`s of the channel `build_rss` writes are the item elements, in order; there is one channel. */
  lemma RssItems(lastBuildDate: string, sts: seq<ItemState>)
    ensures var doc := RssDocument(lastBuildDate, ItemElements(sts));
            && Find(doc, "channel").Some?
            && Tagged(Find(doc, "channel").value.children, "item") == ItemElements(sts)
            && Attribute(doc.attributes, "version") == Some("2.0")
  {
    var doc := RssDocument(lastBuildDate, ItemElements(sts));
    TaggedOne(doc.children[0], "channel");
    assert doc.children == [doc.children[0]];
    TaggedAppend(ChannelHeader(lastBuildDate), ItemElements(sts), "item");
    TaggedNone(ChannelHeader(lastBuildDate), "item");
    TaggedAll(ItemElements(sts), "item");
  }

  /** What `parse_feed` reads from an `<item>` element. */
  function RawOf(e: Element): RawItem
  {
    RawItem(FindText(e, "title"), FindText(e, "link"), FindText(e, "description"), FindText(e, "pubDate"),
            FindText(e, "content:encoded"))
  }

  /**
   * Parsing an `<item>` that `build_rss` wrote gives back the item's title,
   * link and publication date when they are stripped, as parsed items are,
   * and its description stripped.
   */
  lemma ReparseItem(st: ItemState)
    requires Strip(st.title) == st.title && Strip(st.link) == st.link && Strip(st.pubDate) == st.pubDate
    ensures Parsed(RawOf(ItemElement(st))) == ItemState(st.title, st.link, Strip(st.description), st.pubDate, "", None, false, "")
  {
    ItemReadBack(st);
    if st.pubDate == "" {
      assert Strip(OrEmpty(None)) == "";
    }
  }

  // ----------------------------------------------------------------- main

  /** Why `main` exits with status 1 before filtering. */
  datatype Refusal = FetchFailed | EmptyResponse | HtmlResponse | NotXml

  /** `main`'s verdict on the upstream response: refused, or the `<item>`s of a well-formed feed. */
  datatype Screened = Refused(why: Refusal) | Usable(raws: seq<RawItem>)

  /**
   * `main`'s checks on the upstream response, in order: the request failed,
   * the body is blank, the stripped body starts with `<!doctype` or `<html`
   * in any case, or it is not well-formed XML.  `parse` stands for
   * `ET.fromstring` followed by the `<item>` lookup; `None` is a parse error.
   */
  function Screen(response: Option<string>, parse: string -> Option<seq<RawItem>>): Screened
  {
    match response
    case None => Refused(FetchFailed)
    case Some(xml) =>
      var stripped := Strip(xml);
      if stripped == "" then Refused(EmptyResponse)
      else if StartsWith(LowerStr(stripped), "<!doctype") || StartsWith(LowerStr(stripped), "<html") then Refused(HtmlResponse)
      else match parse(xml)
        case None => Refused(NotXml)
        case Some(raws) => Usable(raws)
  }

  /** Lower-casing and then comparing a prefix is the case-insensitive comparison of that prefix. */
  lemma LowerStartsWith(s: string, lit: string)
    ensures StartsWith(LowerStr(s), lit) <==> FoldedAt(s, 0, lit)
  {
    ExactFromMeans(LowerStr(s), 0, lit, 0);
    FoldedAtMeans(s, 0, lit);
    if FoldedAt(s, 0, lit) {
      assert LowerStr(s)[0..|lit|] == lit[0..];
    }
    if StartsWith(LowerStr(s), lit) {
      forall j | 0 <= j < |lit|
        ensures Lower(s[j]) == lit[j]
      {
        assert LowerStr(s)[0..|lit|][j] == lit[0..][j];
      }
    }
  }

  /** A response is refused as empty exactly when it is all whitespace. */
  lemma EmptyRefusal(xml: string, parse: string -> Option<seq<RawItem>>)
    ensures Screen(Some(xml), parse) == Refused(EmptyResponse) <==> forall k :: 0 <= k < |xml| ==> IsSpace(xml[k])
  {
    StripEmpty(xml);
  }

  /**
   * A response is refused as HTML exactly when, leading and trailing
   * whitespace aside, it is not blank and begins with `<!doctype` or
   * `<html` in any mix of cases.
   */
  lemma HtmlRefusal(xml: string, parse: string -> Option<seq<RawItem>>)
    ensures Screen(Some(xml), parse) == Refused(HtmlResponse) <==>
            Strip(xml) != "" && (FoldedAt(Strip(xml), 0, "<!doctype") || FoldedAt(Strip(xml), 0, "<html"))
  {
    LowerStartsWith(Strip(xml), "<!doctype");
    LowerStartsWith(Strip(xml), "<html");
  }

  /** A response is used exactly when it passes every check, and then its parsed `<item>`s are filtered. */
  lemma UsableResponse(xml: string, parse: string -> Option<seq<RawItem>>)
    ensures Screen(Some(xml), parse).Usable? <==>
            && Strip(xml) != ""
            && !FoldedAt(Strip(xml), 0, "<!doctype") && !FoldedAt(Strip(xml), 0, "<html")
            && parse(xml).Some?
    ensures Screen(Some(xml), parse).Usable? ==> Screen(Some(xml), parse).raws == parse(xml).value
  {
    LowerStartsWith(Strip(xml), "<!doctype");
    LowerStartsWith(Strip(xml), "<html");
  }

  /**
   * `main`: exit status 0 and the filtered feed exactly when the upstream
   * response is usable; otherwise status 1, no output and no detail page
   * requested.  `response` is what the feed request returned (`None` when
   * it failed) and `lastBuildDate` the formatted time of the run.
   */
  method Run(response: Option<string>, parse: string -> Option<seq<RawItem>>, fetch: string -> Option<string>,
             lastBuildDate: string)
    returns (status: int, output: Option<Element>, fetched: seq<string>)
    ensures status == (if Screen(response, parse).Usable? then 0 else 1)
    ensures Screen(response, parse).Refused? ==> output == None && fetched == []
    ensures Screen(response, parse).Usable? ==>
              var ps := ParsedStates(Screen(response, parse).raws);
              && output == Some(RssDocument(lastBuildDate, ItemElements(Select(Outcomes(ps, fetch), Verdicts(ps, fetch), true))))
              && fetched == FetchedLinks(ps)
  {
    if response.None? {
      return 1, None, [];
    }
    var xml := response.value;
    if Strip(xml) == "" {
      return 1, None, [];
    }
    var stripped := Strip(xml);
    var lowered := LowerStr(stripped);
    if StartsWith(lowered, "<!doctype") || StartsWith(lowered, "<html") {
      return 1, None, [];
    }
    var raws := parse(xml);
    if raws.None? {
      return 1, None, [];
    }
    ghost var items;
    var accepted, rejected;
    items, accepted, rejected, fetched := FilterFeed(raws.value, fetch);
    ghost var ps := ParsedStates(raws.value);
    StatesOfStates(accepted, Select(Outcomes(ps, fetch), Verdicts(ps, fetch), true));
    var rss := BuildRss(accepted, lastBuildDate);
    return 0, Some(rss), fetched;
  }

  /**
   * Parsing the feed `main` writes gives back the accepted items in order,
   * with the title, link and publication date they were read with.
   */
  lemma ReparseOutput(raws: seq<RawItem>, fetch: string -> Option<string>, lastBuildDate: string, k: nat)
    requires var ps := ParsedStates(raws); k < |Select(Outcomes(ps, fetch), Verdicts(ps, fetch), true)|
    ensures var ps := ParsedStates(raws);
            var acc := Select(Outcomes(ps, fetch), Verdicts(ps, fetch), true);
            var written := Tagged(Find(RssDocument(lastBuildDate, ItemElements(acc)), "channel").value.children, "item");
            && |written| == |acc|
            && var p := Parsed(RawOf(written[k]));
               p.title == acc[k].title && p.link == acc[k].link && p.pubDate == acc[k].pubDate
               && p.description == Strip(acc[k].description)
  {
    var ps := ParsedStates(raws);
    var outs := Outcomes(ps, fetch);
    var acc := Select(outs, Verdicts(ps, fetch), true);
    RssItems(lastBuildDate, acc);
    SelectMembers(outs, Verdicts(ps, fetch), true, acc[k]);
    var j := MapSeqMember(OutcomeOf(fetch), ps, acc[k]);
    OutcomeHasReason(ps[j], fetch);
    ParsedStatesMembers(raws, ps[j]);
    ReparseItem(acc[k]);
  }
}
