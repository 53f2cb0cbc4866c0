/**
 * Feed items as both programs read them: `parse_feed` turns each `<item>`
 * of the feed into a fresh `FeedItem`, stripping its fields, appending the
 * `content:encoded` text to the description and dropping the
 * "More Jobs Available" sentinel.  The XML itself is not modelled: an
 * `<item>` arrives as a `RawItem` holding what `findtext` / `find` return.
 */
module Feed {
  import opened Text
  import opened Markup
  import opened Classifier
  import opened Selection

  // ---------------------------------------------------------- raw items

  /**
   * An `<item>` element: the text of its `title`, `link`, `description` and
   * `pubDate` children (`None` when a child is missing or has no text), and
   * the text of its `content:encoded` child.
   */
  datatype RawItem = RawItem(
    title: Option<string>,
    link: Option<string>,
    description: Option<string>,
    pubDate: Option<string>,
    contentEncoded: Option<string>)

  const SentinelTitle: string := "More Jobs Available"

  /** The "More Jobs Available" item at the end of a result page, which is not a job. */
  predicate IsSentinel(title: string)
  {
    Contains(title, SentinelTitle)
  }

  /** The description `parse_feed` keeps: the stripped description, then the stripped `content:encoded` text. */
  function ParsedDescription(raw: RawItem): string
  {
    var d := Strip(OrEmpty(raw.description));
    match raw.contentEncoded
    case Some(t) => if t != "" then d + " " + Strip(t) else d
    case None => d
  }

  /** The fresh `FeedItem` `parse_feed` builds from an `<item>`. */
  function Parsed(raw: RawItem): ItemState
  {
    ItemState(Strip(OrEmpty(raw.title)), Strip(OrEmpty(raw.link)), ParsedDescription(raw),
              Strip(OrEmpty(raw.pubDate)), "", None, false, "")
  }

  function AllParsed(raws: seq<RawItem>): (r: seq<ItemState>)
    ensures |r| == |raws| && forall k :: 0 <= k < |raws| ==> r[k] == Parsed(raws[k])
  {
    seq(|raws|, k requires 0 <= k < |raws| => Parsed(raws[k]))
  }

  function SentinelFlags(raws: seq<RawItem>): (r: seq<bool>)
    ensures |r| == |raws| && forall k :: 0 <= k < |raws| ==> r[k] == IsSentinel(Parsed(raws[k]).title)
  {
    seq(|raws|, k requires 0 <= k < |raws| => IsSentinel(Parsed(raws[k]).title))
  }

  /** The items `parse_feed` keeps from the first `n` `<item>`s: all but the sentinel, in feed order. */
  function ParsedUpTo(raws: seq<RawItem>, n: nat): seq<ItemState>
    requires n <= |raws|
    decreases n
  {
    if n == 0 then []
    else ParsedUpTo(raws, n - 1) + (if IsSentinel(Parsed(raws[n - 1]).title) then [] else [Parsed(raws[n - 1])])
  }

  /** The items `parse_feed` returns. */
  function ParsedStates(raws: seq<RawItem>): seq<ItemState>
  {
    ParsedUpTo(raws, |raws|)
  }

  /** `parse_feed` is the split of the parsed items by the sentinel test. */
  lemma {:induction false} ParsedUpToSplit(raws: seq<RawItem>, n: nat)
    requires n <= |raws|
    ensures ParsedUpTo(raws, n) == Pick(AllParsed(raws), SentinelFlags(raws), false, n)
    decreases n
  {
    if n > 0 {
      ParsedUpToSplit(raws, n - 1);
    }
  }

  /**
   * An item is in the parsed feed exactly when it comes from an `<item>`
   * whose title does not hold the sentinel text; every parsed item is
   * stripped, unclassified and has no detail text.
   */
  lemma ParsedStatesMembers(raws: seq<RawItem>, st: ItemState)
    ensures st in ParsedStates(raws) <==>
            exists i :: 0 <= i < |raws| && st == Parsed(raws[i]) && !IsSentinel(st.title)
    ensures st in ParsedStates(raws) ==>
            && Strip(st.title) == st.title && Strip(st.link) == st.link && Strip(st.pubDate) == st.pubDate
            && st.detailHtml == "" && st.gradeFound == None && !st.locationOk && st.reason == ""
  {
    ParsedUpToSplit(raws, |raws|);
    SelectMembers(AllParsed(raws), SentinelFlags(raws), false, st);
    if st in ParsedStates(raws) {
      var i :| 0 <= i < |raws| && st == Parsed(raws[i]);
      StripIdempotent(OrEmpty(raws[i].title));
      StripIdempotent(OrEmpty(raws[i].link));
      StripIdempotent(OrEmpty(raws[i].pubDate));
    }
  }

  /** The fields of the objects `items` hold the values `sts`, in order. */
  predicate StatesAre(items: seq<FeedItem>, sts: seq<ItemState>)
    reads items
  {
    |items| == |sts| && forall k :: 0 <= k < |items| ==> items[k].State() == sts[k]
  }

  /** The values of the fields of the objects `items`, in order. */
  function StatesOf(items: seq<FeedItem>): (r: seq<ItemState>)
    reads items
    ensures StatesAre(items, r)
  {
    seq(|items|, k requires 0 <= k < |items| reads items => items[k].State())
  }

  /** The states `StatesAre` relates to objects are the objects' states. */
  lemma StatesOfStates(items: seq<FeedItem>, sts: seq<ItemState>)
    requires StatesAre(items, sts)
    ensures StatesOf(items) == sts
  {
  }

  /** No object appears twice in `items`. */
  predicate Distinct(items: seq<FeedItem>)
  {
    forall a, b :: 0 <= a < b < |items| ==> items[a] != items[b]
  }

  /** Selecting objects and selecting their states by the same flags agree. */
  lemma {:induction false} PickedStates(items: seq<FeedItem>, sts: seq<ItemState>, flags: seq<bool>, want: bool, n: nat)
    requires StatesAre(items, sts) && |flags| == |items| && n <= |items|
    ensures StatesAre(Pick(items, flags, want, n), Pick(sts, flags, want, n))
    decreases n
  {
    if n > 0 {
      PickedStates(items, sts, flags, want, n - 1);
    }
  }

  lemma SelectedStates(items: seq<FeedItem>, sts: seq<ItemState>, flags: seq<bool>, want: bool)
    requires StatesAre(items, sts) && |flags| == |items|
    ensures StatesAre(Select(items, flags, want), Select(sts, flags, want))
  {
    PickedStates(items, sts, flags, want, |items|);
  }

  /** `parse_feed`: a fresh `FeedItem` per `<item>`, the sentinel left out. */
  method ParseFeed(raws: seq<RawItem>) returns (items: seq<FeedItem>)
    ensures StatesAre(items, ParsedStates(raws))
    ensures Distinct(items) && forall x :: x in items ==> fresh(x)
  {
    items := [];
    ghost var sts: seq<ItemState> := [];
    var i := 0;
    while i < |raws|
      invariant i <= |raws|
      invariant sts == ParsedUpTo(raws, i) && StatesAre(items, sts)
      invariant Distinct(items) && forall x :: x in items ==> fresh(x)
    {
      var fi := ParseItem(raws[i]);
      ghost var sts0 := sts;
      if !IsSentinel(fi.title) {
        StatesSnoc(items, sts, fi);
        DistinctSnoc(items, fi);
        items := items + [fi];
        sts := sts + [fi.State()];
      }
      ParsedNext(raws, i, sts0, sts);
      i := i + 1;
    }
  }

  /** Appending an object and its state keeps the two sequences in step. */
  lemma StatesSnoc(items: seq<FeedItem>, sts: seq<ItemState>, fi: FeedItem)
    requires StatesAre(items, sts)
    ensures StatesAre(items + [fi], sts + [fi.State()])
  {
  }

  /** Appending an object that is not yet there keeps the objects distinct. */
  lemma DistinctSnoc(items: seq<FeedItem>, fi: FeedItem)
    requires Distinct(items) && fi !in items
    ensures Distinct(items + [fi])
  {
  }

  /** One more `<item>` read: its parsed state is appended unless it is the sentinel. */
  lemma ParsedNext(raws: seq<RawItem>, i: nat, sts: seq<ItemState>, next: seq<ItemState>)
    requires i < |raws| && sts == ParsedUpTo(raws, i)
    requires next == if IsSentinel(Parsed(raws[i]).title) then sts else sts + [Parsed(raws[i])]
    ensures next == ParsedUpTo(raws, i + 1)
  {
  }

  /** The body of `parse_feed`'s loop: a fresh `FeedItem` for one `<item>`. */
  method ParseItem(raw: RawItem) returns (fi: FeedItem)
    ensures fresh(fi) && fi.State() == Parsed(raw)
  {
    fi := new FeedItem(Strip(OrEmpty(raw.title)), Strip(OrEmpty(raw.link)),
                       Strip(OrEmpty(raw.description)), Strip(OrEmpty(raw.pubDate)));
    if raw.contentEncoded.Some? && raw.contentEncoded.value != "" {
      fi.description := fi.description + " " + Strip(raw.contentEncoded.value);
    }
  }

  /** The detail fetch of the pipelines: the visible text of the item's page when it has a link. */
  function WithDetail(st: ItemState, fetch: string -> Option<string>): ItemState
  {
    if st.link != "" then st.(detailHtml := FetchText(fetch, st.link)) else st
  }

  /**
   * A failed fetch classifies exactly like no fetch: the detail text stays
   * empty, so the item is left as parsed.
   */
  lemma FailedFetchIsNoDetail(st: ItemState, fetch: string -> Option<string>)
    requires st.detailHtml == ""
    requires st.link != "" ==> fetch(st.link) == None || fetch(st.link) == Some("")
    ensures WithDetail(st, fetch) == st
  {
    if st.link != "" {
      FetchTextEmpty(fetch, st.link);
    }
  }

  // ------------------------------------------------------ the item loops

  /** The links of the items, in order. */
  function Links(ps: seq<ItemState>): (r: seq<string>)
    ensures |r| == |ps| && forall k :: 0 <= k < |ps| ==> r[k] == ps[k].link
  {
    seq(|ps|, k requires 0 <= k < |ps| => ps[k].link)
  }

  /** After `n` turns the first `n` items hold their outcomes and the others are as parsed. */
  predicate Progress(items: seq<FeedItem>, ps: seq<ItemState>, outs: seq<ItemState>, n: nat)
    reads items
  {
    && n <= |items| == |ps| == |outs|
    && (forall k :: 0 <= k < n ==> items[k].State() == outs[k])
    && (forall k :: n <= k < |items| ==> items[k].State() == ps[k])
  }

  /**
   * After `n` turns, `accepted` and `rejected` hold the first `n` items split
   * by their verdicts, and `fetched` the links requested so far.
   */
  predicate Routed(items: seq<FeedItem>, verdicts: seq<bool>, links: seq<string>, flags: seq<bool>, n: nat,
                   accepted: seq<FeedItem>, rejected: seq<FeedItem>, fetched: seq<string>)
  {
    && |verdicts| == |items| && |flags| == |links| && n <= |items| && n <= |links|
    && accepted == Pick(items, verdicts, true, n)
    && rejected == Pick(items, verdicts, false, n)
    && fetched == Pick(links, flags, true, n)
  }

  lemma RoutedNext(items: seq<FeedItem>, verdicts: seq<bool>, links: seq<string>, flags: seq<bool>, n: nat,
                   accepted: seq<FeedItem>, rejected: seq<FeedItem>, fetched: seq<string>,
                   accepted': seq<FeedItem>, rejected': seq<FeedItem>, fetched': seq<string>)
    requires Routed(items, verdicts, links, flags, n, accepted, rejected, fetched)
    requires n < |items| && n < |links|
    requires accepted' == if verdicts[n] then accepted + [items[n]] else accepted
    requires rejected' == if verdicts[n] then rejected else rejected + [items[n]]
    requires fetched' == if flags[n] then fetched + [links[n]] else fetched
    ensures Routed(items, verdicts, links, flags, n + 1, accepted', rejected', fetched')
  {
    PickNext(items, verdicts, true, n, accepted, accepted');
    PickNext(items, verdicts, false, n, rejected, rejected');
    PickNext(links, flags, true, n, fetched, fetched');
  }
}
