/**
 * The pipeline of `who_feed_filter.py`: `process_feed` fetches the detail
 * page of every item that has a link (when detail fetching is on), then
 * classifies it and routes it to the accepted or the rejected list;
 * `build_filtered_rss` keeps the feed's `<item>`s whose link was accepted.
 */
module WhoFeedFilter {
  import opened Text
  import opened Markup
  import opened Classifier
  import opened Selection
  import opened Feed

  /** The accept-reason prefix of `who_feed_filter.py`. */
  const AcceptPrefix: string := "\U{2705} IMPORT"

  /** `should_import` of `who_feed_filter.py`: the shared classifier with this program's prefix. */
  method ShouldImport(item: FeedItem) returns (accepted: bool)
    modifies item`gradeFound, item`locationOk, item`reason
    ensures accepted == Imports(old(item.State()))
    ensures item.State() == AfterShouldImport(old(item.State()), AcceptPrefix)
  {
    accepted := item.ShouldImport(AcceptPrefix);
  }

  /**
   * What `process_feed` does before classifying an item: with a session
   * (`fetchEnabled`: detail fetching is on and `requests` is available) and
   * a link, the detail text is the fetched page's visible text.
   */
  function Enriched(st: ItemState, fetchEnabled: bool, fetch: string -> Option<string>): ItemState
  {
    if fetchEnabled then WithDetail(st, fetch) else st
  }

  /** `process_feed` requests the item's page exactly when a session exists and the item has a link. */
  predicate Fetches(st: ItemState, fetchEnabled: bool)
  {
    fetchEnabled && st.link != ""
  }

  /** The item after `process_feed` has handled it. */
  function Outcome(st: ItemState, fetchEnabled: bool, fetch: string -> Option<string>): ItemState
  {
    AfterShouldImport(Enriched(st, fetchEnabled, fetch), AcceptPrefix)
  }

  function OutcomeOf(fetchEnabled: bool, fetch: string -> Option<string>): ItemState -> ItemState
  {
    st => Outcome(st, fetchEnabled, fetch)
  }

  function VerdictOf(fetchEnabled: bool, fetch: string -> Option<string>): ItemState -> bool
  {
    st => Imports(Enriched(st, fetchEnabled, fetch))
  }

  /** The items after `process_feed` has handled them, in feed order. */
  function Outcomes(ps: seq<ItemState>, fetchEnabled: bool, fetch: string -> Option<string>): seq<ItemState>
  {
    MapSeq(OutcomeOf(fetchEnabled, fetch), ps)
  }

  /** The verdicts of `process_feed`, one per item. */
  function Verdicts(ps: seq<ItemState>, fetchEnabled: bool, fetch: string -> Option<string>): seq<bool>
  {
    MapSeq(VerdictOf(fetchEnabled, fetch), ps)
  }

  /** Item `k` after `process_feed` is item `k` of the parsed feed, handled; its verdict is the classifier's. */
  lemma OutcomesAt(ps: seq<ItemState>, fetchEnabled: bool, fetch: string -> Option<string>, k: nat)
    requires k < |ps|
    ensures Outcomes(ps, fetchEnabled, fetch)[k] == Outcome(ps[k], fetchEnabled, fetch)
    ensures Verdicts(ps, fetchEnabled, fetch)[k] == Imports(Enriched(ps[k], fetchEnabled, fetch))
  {
    MapSeqAt(OutcomeOf(fetchEnabled, fetch), ps, k);
    MapSeqAt(VerdictOf(fetchEnabled, fetch), ps, k);
  }

  function FetchFlags(ps: seq<ItemState>, fetchEnabled: bool): (r: seq<bool>)
    ensures |r| == |ps| && forall k :: 0 <= k < |ps| ==> r[k] == Fetches(ps[k], fetchEnabled)
  {
    seq(|ps|, k requires 0 <= k < |ps| => Fetches(ps[k], fetchEnabled))
  }

  /** The pages `process_feed` requests, in order: the link of every item it fetches for. */
  function FetchedLinks(ps: seq<ItemState>, fetchEnabled: bool): seq<string>
  {
    Select(Links(ps), FetchFlags(ps, fetchEnabled), true)
  }

  /**
   * `outs` and `verdicts` are what `process_feed` makes of the parsed items
   * `ps`, item by item.
   */
  predicate HandledAs(ps: seq<ItemState>, outs: seq<ItemState>, verdicts: seq<bool>, flags: seq<bool>, fetchEnabled: bool, fetch: string -> Option<string>)
  {
    && |outs| == |ps| && |verdicts| == |ps| && |flags| == |ps|
    && forall k {:trigger Outcome(ps[k], fetchEnabled, fetch)} :: 0 <= k < |ps| ==>
         outs[k] == Outcome(ps[k], fetchEnabled, fetch) && verdicts[k] == Imports(Enriched(ps[k], fetchEnabled, fetch))
         && flags[k] == Fetches(ps[k], fetchEnabled)
  }

  lemma OutcomesHandled(ps: seq<ItemState>, fetchEnabled: bool, fetch: string -> Option<string>)
    ensures HandledAs(ps, Outcomes(ps, fetchEnabled, fetch), Verdicts(ps, fetchEnabled, fetch), FetchFlags(ps, fetchEnabled),
                      fetchEnabled, fetch)
  {
    forall k | 0 <= k < |ps|
      ensures Outcomes(ps, fetchEnabled, fetch)[k] == Outcome(ps[k], fetchEnabled, fetch)
      ensures Verdicts(ps, fetchEnabled, fetch)[k] == Imports(Enriched(ps[k], fetchEnabled, fetch))
    {
      OutcomesAt(ps, fetchEnabled, fetch, k);
    }
  }

  /** One turn of `process_feed`'s loop: fetch if there is a link, then classify. */
  method HandleItem(item: FeedItem, fetchEnabled: bool, fetch: string -> Option<string>)
    returns (accepted: bool, fetched: bool)
    modifies item
    ensures item.link == old(item.link)
    ensures accepted == Imports(Enriched(old(item.State()), fetchEnabled, fetch))
    ensures fetched == Fetches(old(item.State()), fetchEnabled)
    ensures item.State() == Outcome(old(item.State()), fetchEnabled, fetch)
  {
    fetched := fetchEnabled && item.link != "";
    if fetched {
      item.detailHtml := FetchText(fetch, item.link);
    }
    accepted := ShouldImport(item);
  }

  /** `HandleItem` on item `i` of the parsed items `ps`, whose outcomes are `outs`. */
  method HandleNth(item: FeedItem, ghost ps: seq<ItemState>, ghost outs: seq<ItemState>, ghost verdicts: seq<bool>, ghost flags: seq<bool>,
                   ghost i: nat, fetchEnabled: bool, fetch: string -> Option<string>)
    returns (accepted: bool, fetched: bool)
    requires HandledAs(ps, outs, verdicts, flags, fetchEnabled, fetch)
    requires i < |ps| && item.State() == ps[i]
    modifies item
    ensures item.link == ps[i].link
    ensures accepted == verdicts[i] && fetched == flags[i]
    ensures item.State() == outs[i]
  {
    accepted, fetched := HandleItem(item, fetchEnabled, fetch);
    assert outs[i] == Outcome(ps[i], fetchEnabled, fetch);
  }

  /** `HandleNth` on `items[i]`; the other items are left alone. */
  method HandleAt(items: seq<FeedItem>, ghost ps: seq<ItemState>, ghost outs: seq<ItemState>, ghost verdicts: seq<bool>, ghost flags: seq<bool>,
                  i: nat, fetchEnabled: bool, fetch: string -> Option<string>)
    returns (accepted: bool, fetched: bool)
    requires HandledAs(ps, outs, verdicts, flags, fetchEnabled, fetch) && Distinct(items)
    requires i < |items| && Progress(items, ps, outs, i)
    modifies items[i]
    ensures items[i].link == ps[i].link
    ensures accepted == verdicts[i] && fetched == flags[i]
    ensures Progress(items, ps, outs, i + 1)
  {
    accepted, fetched := HandleNth(items[i], ps, outs, verdicts, flags, i, fetchEnabled, fetch);
  }

  /**
   * `process_feed`: every parsed item is handled once, in feed order, and
   * lands in `accepted` or in `rejected` by its verdict; `fetched` logs the
   * page requests.
   */
  method ProcessFeed(raws: seq<RawItem>, fetchEnabled: bool, fetch: string -> Option<string>)
    returns (ghost items: seq<FeedItem>, accepted: seq<FeedItem>, rejected: seq<FeedItem>, fetched: seq<string>)
    ensures var ps := ParsedStates(raws);
            && StatesAre(items, Outcomes(ps, fetchEnabled, fetch))
            && accepted == Select(items, Verdicts(ps, fetchEnabled, fetch), true)
            && rejected == Select(items, Verdicts(ps, fetchEnabled, fetch), false)
            && StatesAre(accepted, Select(Outcomes(ps, fetchEnabled, fetch), Verdicts(ps, fetchEnabled, fetch), true))
            && StatesAre(rejected, Select(Outcomes(ps, fetchEnabled, fetch), Verdicts(ps, fetchEnabled, fetch), false))
            && fetched == FetchedLinks(ps, fetchEnabled)
  {
    var parsed := ParseFeed(raws);
    items := parsed;
    ghost var ps := ParsedStates(raws);
    OutcomesHandled(ps, fetchEnabled, fetch);
    accepted, rejected, fetched := HandleAll(parsed, ps, Outcomes(ps, fetchEnabled, fetch), Verdicts(ps, fetchEnabled, fetch),
                                              FetchFlags(ps, fetchEnabled), fetchEnabled, fetch);
  }

  /** The loop of `process_feed` over the parsed items, whose fields hold `ps`. */
  method HandleAll(items: seq<FeedItem>, ghost ps: seq<ItemState>, ghost outs: seq<ItemState>, ghost verdicts: seq<bool>, ghost flags: seq<bool>,
                   fetchEnabled: bool, fetch: string -> Option<string>)
    returns (accepted: seq<FeedItem>, rejected: seq<FeedItem>, fetched: seq<string>)
    requires StatesAre(items, ps) && Distinct(items)
    requires HandledAs(ps, outs, verdicts, flags, fetchEnabled, fetch)
    modifies set x | x in items
    ensures StatesAre(items, outs)
    ensures accepted == Select(items, verdicts, true) && rejected == Select(items, verdicts, false)
    ensures StatesAre(accepted, Select(outs, verdicts, true)) && StatesAre(rejected, Select(outs, verdicts, false))
    ensures fetched == Select(Links(ps), flags, true)
  {
    ghost var links := Links(ps);
    accepted, rejected, fetched := [], [], [];
    var i := 0;
    while i < |items|
      invariant Progress(items, ps, outs, i)
      invariant Routed(items, verdicts, links, flags, i, accepted, rejected, fetched)
    {
      var item := items[i];
      var ok, didFetch := HandleAt(items, ps, outs, verdicts, flags, i, fetchEnabled, fetch);
      ghost var accepted0, rejected0, fetched0 := accepted, rejected, fetched;
      if didFetch {
        fetched := fetched + [item.link];
      }
      if ok {
        accepted := accepted + [item];
      } else {
        rejected := rejected + [item];
      }
      RoutedNext(items, verdicts, links, flags, i, accepted0, rejected0, fetched0, accepted, rejected, fetched);
      i := i + 1;
    }
    SelectedStates(items, outs, verdicts, true);
    SelectedStates(items, outs, verdicts, false);
  }

  /** The links of the accepted items: `{item.link for item in accepted}`. */
  function LinkSet(items: seq<FeedItem>): set<string>
    reads items
  {
    set k | 0 <= k < |items| :: items[k].link
  }

  function LinksOf(sts: seq<ItemState>): set<string>
  {
    set k | 0 <= k < |sts| :: sts[k].link
  }

  function KeepFlags(channel: seq<RawItem>, links: set<string>): (r: seq<bool>)
    ensures |r| == |channel| && forall k :: 0 <= k < |channel| ==> r[k] == (Strip(OrEmpty(channel[k].link)) in links)
  {
    seq(|channel|, k requires 0 <= k < |channel| => Strip(OrEmpty(channel[k].link)) in links)
  }

  /**
   * `build_filtered_rss`: the channel's `<item>`s whose stripped link is the
   * link of an accepted item, in feed order; every other `<item>` is removed.
   */
  method BuildFilteredRss(channel: seq<RawItem>, accepted: seq<FeedItem>) returns (kept: seq<RawItem>)
    ensures kept == Select(channel, KeepFlags(channel, LinkSet(accepted)), true)
  {
    var links := set k | 0 <= k < |accepted| :: accepted[k].link;
    ghost var flags := KeepFlags(channel, links);
    kept := [];
    var i := 0;
    while i < |channel|
      invariant i <= |channel|
      invariant kept == Pick(channel, flags, true, i)
    {
      var link := Strip(OrEmpty(channel[i].link));
      if link in links {
        kept := kept + [channel[i]];
      }
      i := i + 1;
    }
  }

  // ------------------------------------------------------------ properties

  /** The filtered feed holds exactly the `<item>`s whose link is an accepted link. */
  lemma KeptExactly(channel: seq<RawItem>, links: set<string>, x: RawItem)
    ensures x in Select(channel, KeepFlags(channel, links), true) <==>
            x in channel && Strip(OrEmpty(x.link)) in links
  {
    SelectMembers(channel, KeepFlags(channel, links), true, x);
  }

  /** Objects holding the states `sts` have the links of `sts`. */
  lemma LinkSetOfStates(items: seq<FeedItem>, sts: seq<ItemState>)
    requires StatesAre(items, sts)
    ensures LinkSet(items) == LinksOf(sts)
  {
    forall u | u in LinksOf(sts)
      ensures u in LinkSet(items)
    {
      var k :| 0 <= k < |sts| && sts[k].link == u;
      assert items[k].link == u;
    }
  }

  /** Handling an item keeps its link. */
  lemma OutcomeKeepsLink(st: ItemState, fetchEnabled: bool, fetch: string -> Option<string>)
    ensures Outcome(st, fetchEnabled, fetch).link == st.link
  {
    ShouldImportKeepsText(Enriched(st, fetchEnabled, fetch), AcceptPrefix);
  }

  /**
   * Every `<item>` of the feed that `process_feed` accepts survives
   * `build_filtered_rss` on the same feed.
   */
  lemma AcceptedAreKept(raws: seq<RawItem>, fetchEnabled: bool, fetch: string -> Option<string>, r: RawItem)
    requires r in raws && !IsSentinel(Parsed(r).title)
    requires Imports(Enriched(Parsed(r), fetchEnabled, fetch))
    ensures var ps := ParsedStates(raws);
            var acc := Select(Outcomes(ps, fetchEnabled, fetch), Verdicts(ps, fetchEnabled, fetch), true);
            r in Select(raws, KeepFlags(raws, LinksOf(acc)), true)
  {
    var ps := ParsedStates(raws);
    var outs, verdicts := Outcomes(ps, fetchEnabled, fetch), Verdicts(ps, fetchEnabled, fetch);
    var acc := Select(outs, verdicts, true);
    var st := Parsed(r);
    ParsedStatesMembers(raws, st);
    var j :| 0 <= j < |ps| && ps[j] == st;
    OutcomesAt(ps, fetchEnabled, fetch, j);
    SelectMembers(outs, verdicts, true, outs[j]);
    var m :| 0 <= m < |acc| && acc[m] == outs[j];
    OutcomeKeepsLink(st, fetchEnabled, fetch);
    assert Strip(OrEmpty(r.link)) in LinksOf(acc) by {
      assert acc[m].link == st.link;
    }
    KeptExactly(raws, LinksOf(acc), r);
  }

  /** Every parsed item is accepted or rejected, and none is both or lost. */
  lemma ProcessFeedPartition(ps: seq<ItemState>, fetchEnabled: bool, fetch: string -> Option<string>)
    ensures var outs, v := Outcomes(ps, fetchEnabled, fetch), Verdicts(ps, fetchEnabled, fetch);
            && |Select(outs, v, true)| + |Select(outs, v, false)| == |ps|
            && multiset(Select(outs, v, true)) + multiset(Select(outs, v, false)) == multiset(outs)
  {
    SelectSplits(Outcomes(ps, fetchEnabled, fetch), Verdicts(ps, fetchEnabled, fetch));
  }

  /** Without a session no page is requested; with one, at most one request per item. */
  lemma FetchCount(ps: seq<ItemState>, fetchEnabled: bool)
    ensures |FetchedLinks(ps, fetchEnabled)| <= |ps|
    ensures !fetchEnabled ==> FetchedLinks(ps, fetchEnabled) == []
    ensures forall u :: u in FetchedLinks(ps, fetchEnabled) ==> u != ""
  {
    SelectSplits(Links(ps), FetchFlags(ps, fetchEnabled));
    forall u | u in FetchedLinks(ps, fetchEnabled)
      ensures u != "" && fetchEnabled
    {
      SelectMembers(Links(ps), FetchFlags(ps, fetchEnabled), true, u);
    }
    var fl := FetchedLinks(ps, fetchEnabled);
    if fl != [] {
      assert fl[0] in fl;
    }
  }

  /**
   * A fetch that fails, or returns an empty page, leaves the item exactly
   * as it would be without detail fetching.
   */
  lemma FailedFetchClassifiesAsUnfetched(st: ItemState, fetch: string -> Option<string>)
    requires st.detailHtml == ""
    requires st.link != "" ==> fetch(st.link) == None || fetch(st.link) == Some("")
    ensures Outcome(st, true, fetch) == Outcome(st, false, fetch)
  {
    FailedFetchIsNoDetail(st, fetch);
  }
}
