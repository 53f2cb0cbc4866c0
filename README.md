# WHO job-feed filter: a Dafny model

This project models the core of cinfoposte/who-feed-filter: the filter that reads the WHO careers RSS feed and keeps only the Geneva-based vacancies at Professional or Director grade (P1–P6, D1–D2).

The repository ships two programs, and both carry the same rule-based classifier almost line for line:

- `who_feed_filter.py` parses the feed and, with a session, fetches every item's detail page. It then classifies every item and re-emits the original feed restricted to the accepted links.
- `scraper.py` rejects items whose title names an excluded role before anything is fetched (stage 1). Only the survivors are fetched and classified (stage 2). It then writes a fresh RSS 2.0 document.

## Modules

| module | what it holds |
|---|---|
| `Text` | The character model: ASCII plus è é È É and the en dash, with Python's `\s`, `\w`, `\d` and case folding on it. Also equivalents of `str.strip`, `in` and `startswith`. |
| `Patterns` | Each regex family written out as a hand-made matcher. `XAt(s, i)` gives the end of a match starting at `i`; alternatives are tried in their written order. `Search` returns the least start index, as in `re.search`. |
| `Classifier` | `ItemState`, the value of a `FeedItem`'s fields. The functions `AfterCheckExcluded`, `AfterCheckGrade`, `AfterCheckLocation` and `AfterShouldImport` give each check's effect on that value. The class `FeedItem` carries the in-place check methods, proved against those functions. The accept-reason prefix is a parameter. |
| `Markup` | The two `re.sub` passes of `fetch_text` / `fetch_detail`: tags become a space, then whitespace runs collapse. Also the fetch as an oracle. |
| `Selection` | Order-preserving selection by per-item flags, which gives the accepted/rejected split and the fetch log. Also a generic map over sequences. |
| `Feed` | The parsed-item records, `parse_feed` with its sentinel drop, and the loop scaffolding both pipelines share. |
| `WhoFeedFilter` | `process_feed` and `build_filtered_rss` of `who_feed_filter.py`. |
| `Scraper` | `filter_feed`, `build_rss` and the checks `main` makes on the upstream response, from `scraper.py`. |

## How things are represented

- **Shared classifier.** `WhoFeedFilter.ShouldImport` and `Scraper.ShouldImport` are the shared `Classifier.FeedItem.ShouldImport` with the prefixes `"✅ IMPORT"` and `"IMPORT"`. The classifier rows below cite `who_feed_filter.py`. The same code is at scraper.py:112-167 (patterns) and scraper.py:190-248 (checks); it differs only in the accept prefix at scraper.py:244.
- **Network.** A detail-page request is an oracle `fetch: string -> Option<string>`. `None` stands for an exception or an HTTP error status, which the source turns into `""`.
- **Fetch log.** Each pipeline returns the list of URLs it requested, as a real out-parameter. That makes "fetched at most once per item, only when …" a statement about the result.
- **XML.** An `<item>` arrives as a `RawItem` holding what `findtext` / `find` return. `main`'s `ET.fromstring` is an oracle `parse: string -> Option<seq<RawItem>>`. `build_rss` builds `Element` values with tag, attributes, text and children.
- **Clock.** The formatted `lastBuildDate` is a parameter.

## Notes on the source

- **Failed fetch.** A failed or erroneous detail-page request stores `""` (who_feed_filter.py:164-166, scraper.py:263-265). No separate "absent" value exists. The bare tiers of `check_grade` and `check_location` run only when `detail_html` is non-empty, so a failed fetch classifies exactly like no fetch (`WhoFeedFilter.FailedFetchClassifiesAsUnfetched`, `Scraper.FailedFetchClassifiesAsUnfetched`).
- **Exclusion pre-check.** Only `scraper.py` skips the fetch for an excluded title (scraper.py:304-309). `process_feed` in `who_feed_filter.py` fetches for every item with a link when a session exists (who_feed_filter.py:278-281). Each pipeline is modelled as written, and `Scraper.SameVerdictAsWhoFeedFilter` proves that both reach the same verdicts.
- **Blank and HTML responses.** The check for a blank upstream response or an HTML page exists only in `scraper.py`'s `main` (scraper.py:389-398). `parse_feed` in `who_feed_filter.py` hands its input to the XML parser unchecked. The model puts the check in `Scraper.Screen`.

## Model

| member | source | states |
|---|---|---|
| Text.FoldedAtMeans | who_feed_filter.py:68-71 | A case-insensitive literal match at `i` is exactly a slice of the text equal to the literal after lower-casing each character (`re.IGNORECASE`). |
| Text.ContainsMeans | who_feed_filter.py:264 | `lit in s` holds exactly when some slice of `s` equals `lit`, in both directions. |
| Text.StripSlice | who_feed_filter.py:252-257 | `str.strip()` returns a slice `s[a..b]` with only whitespace before `a` and after `b`. |
| Text.StripEmpty | scraper.py:389 | A string strips to `""` exactly when every character is whitespace. |
| Text.StripIdempotent | who_feed_filter.py:252-257 | Stripping twice is stripping once. |
| Patterns.FirstFrom | who_feed_filter.py:175 | The search from `i` returns only a position at or after `i` where the pattern matches. |
| Patterns.FirstFromLeast | who_feed_filter.py:175 | No position between `i` and the one found matches; when nothing is found, no position matches. |
| Patterns.SearchIsLeftmost | who_feed_filter.py:188 | `Search` finds nothing exactly when the pattern occurs nowhere, and returns `j` exactly when `j` matches and no earlier position does (`re.search`). |
| Patterns.GradeAt | who_feed_filter.py:67-71 | A bare grade match spans two or three characters and stays inside the text. |
| Patterns.GradeAtMeans | who_feed_filter.py:67-71 | `RE_GRADE` matches from `i` to `e` exactly when both ends are word boundaries and the slice is `P[- ]?[1-6]` or `D[- ]?[1-2]` in either case. |
| Patterns.GradeIsWholeWord | who_feed_filter.py:66-69 | A grade match has no word character on either side, so `P3O` and `D12` never match. |
| Patterns.LabelledGradeAt | who_feed_filter.py:74-83 | A labelled-grade match contains a bare grade that starts at or after the match start and ends inside the match. |
| Patterns.LabelledGradePrefix | who_feed_filter.py:76-80 | In a labelled match, what precedes the grade is the grade itself, `grade` followed by colons and spaces, or one separator followed by spaces. |
| Patterns.NoGradeBeforeLabelledCore | who_feed_filter.py:191 | Inside a labelled match, no bare grade starts before the embedded one. |
| Patterns.LabelledMatchHoldsGrade | who_feed_filter.py:191 | `RE_GRADE.search(m.group())` on a labelled match finds exactly the embedded grade. |
| Patterns.NormalizeGradeToken | who_feed_filter.py:193 | Upper-casing and removing spaces and hyphens turns any grade token into one of P1..P6, D1, D2 (its upper-cased letter and its digit). |
| Patterns.NormalizeLongToken | who_feed_filter.py:193 | `P-3` becomes `P3`, `p 2` becomes `P2`, `D-1` becomes `D1`: the separator is dropped. |
| Patterns.CommaGenevaTitle | who_feed_filter.py:105-108 | Any title ending in `, Geneva` matches `RE_LOCATION_TITLE` at its comma. |
| Patterns.ParenthesisedGenevaTitle | who_feed_filter.py:105-108 | Any title ending in ` (Geneva)` matches `RE_LOCATION_TITLE` at its parenthesis. |
| Patterns.SpacedGenevaIsBare | who_feed_filter.py:110-113 | `Geneva` with a space on both sides matches `RE_LOCATION_BARE`, whatever surrounds it. |
| Patterns.DutyStationGenevaIsLabelled | who_feed_filter.py:96-103 | `Duty Station: Geneva` matches `RE_LOCATION_LABELLED` at the label, whatever surrounds it. |
| Patterns.GenevaAtStarts | who_feed_filter.py:87-94 | Every Geneva variant begins with `gen`, `ch` or `switzerland`, case ignored. |
| Patterns.LabelWordInitial | who_feed_filter.py:96-99 | Every duty-station label word begins with one of `d l b h p o c`, case ignored. |
| Patterns.LabelledMatchNeeds | who_feed_filter.py:96-103 | A labelled-location match begins with a label word. A Geneva variant follows the label and its `[:-–]` separator. |
| Patterns.TitleTailMeans | who_feed_filter.py:106 | After `\s*[),]?$` only whitespace follows, apart from at most one `)` or `,`. |
| Patterns.TitleMatchNeeds | who_feed_filter.py:105-108 | A title-location match starts at a comma or an opening parenthesis, and a Geneva variant follows it. After the variant the title holds only whitespace and at most one `)` or `,`. |
| Patterns.BareMatchNeeds | who_feed_filter.py:110-113 | A bare match starts at a word boundary with `gen`, `ch` or `switzerland` and ends at a later word boundary. |
| Patterns.ExcludedAt | who_feed_filter.py:116-130 | An excluded-role match is non-empty and bounded by word boundaries on both sides. |
| Patterns.FirstBounded | who_feed_filter.py:117-128 | The first alternative in written order that is followed by a word boundary is the one taken; when none is taken, no alternative ends at a boundary. |
| Classifier.FullTextForm | who_feed_filter.py:170-172 | `_full_text` is title, description and detail with `" \| "` exactly between two non-empty fields. |
| Classifier.FeedItem.constructor | who_feed_filter.py:135-143 | A fresh item has no detail text, no grade, no confirmed location and no reason. |
| Classifier.FeedItem.CheckExcluded | who_feed_filter.py:173-179 | Returns whether the title has an excluded role. If it does, it sets the reason `Excluded role type: '<match>' in title`; otherwise nothing changes. |
| Classifier.FeedItem.CheckGrade | who_feed_filter.py:180-209 | The three tiers in order: labelled, then bare over the full text only when there is detail text, then the title. The first grade found is recorded; otherwise the reason is "No P/D grade found". |
| Classifier.FeedItem.CheckLocation | who_feed_filter.py:210-230 | The three tiers in order: labelled, then title suffix, then bare Geneva in the detail text only. Any of them sets `location_ok`; otherwise the reason is "Duty station is not Geneva". |
| Classifier.FeedItem.ShouldImport | who_feed_filter.py:231-243 | Exclusion first, then both checks. Acceptance sets the accept reason; when both checks failed, the combined reason is set. |
| Classifier.ExclusionFirst | who_feed_filter.py:233-234 | An excluded title is rejected. The only change is the exclusion reason: no grade, no location. |
| Classifier.ExclusionReadsTitleOnly | who_feed_filter.py:173-179 | `check_excluded` reads only the title. Changing the description and the detail text before the check equals changing them after it, and an excluded title rejects the item whatever they hold. |
| Classifier.FoundGradeIsCode | who_feed_filter.py:193-206 | Any grade recorded is one of the eight codes. |
| Classifier.GradeInIsCode | who_feed_filter.py:199-201 | A bare grade found in any text normalises to one of the eight codes. |
| Classifier.LabelledGradeInIsCode | who_feed_filter.py:188-193 | A grade read from a labelled match is one of the eight codes. |
| Classifier.LabelledGradeInIsCore | who_feed_filter.py:188-193 | The grade read from the first labelled match is the normalised bare grade embedded in it. |
| Classifier.LabelledTierDecides | who_feed_filter.py:188-194 | When the labelled pattern matches, the first tier decides and later tiers are not consulted. |
| Classifier.NoDetailGate | who_feed_filter.py:196-206 | Without detail text the grade comes from a labelled match or the title only. Geneva is confirmed only by a labelled match in the full text or a title-suffix match; the bare tier is not consulted. |
| Classifier.DutyStationConfirms | who_feed_filter.py:216-219 | A `Duty Station: Geneva` block anywhere in the full text confirms the location. |
| Classifier.GenevaTitleConfirms | who_feed_filter.py:221-223 | A title ending in `, Geneva` or ` (Geneva)` confirms the location, whatever else the item says. |
| Classifier.GenevaInDetailConfirms | who_feed_filter.py:226-228 | A bare, space-delimited `Geneva` in the fetched detail text confirms the location. |
| Classifier.UnlabelledGenevaNotConfirmed | who_feed_filter.py:210-230 | Without detail text, no label word in the full text and no comma or parenthesis in the title mean that Geneva is not confirmed. The reason is then "Duty station is not Geneva", whatever Geneva mentions the description holds. |
| Classifier.NoLabelInitialNoLabel | who_feed_filter.py:170-172 | When no character of the title or the description can begin a label word, no label word begins anywhere in the joined full text. |
| Classifier.VisitsToGenevaNotConfirmed | who_feed_filter.py:216-230 | A title `Team Manager` with the description `May require visits in Geneva` and no detail text is rejected as not in Geneva. No label introduces that Geneva, the title has no suffix, and the bare tier needs detail text. |
| Classifier.ShouldImportKeepsText | who_feed_filter.py:231-243 | Classification never changes title, link, description, pubDate or detail text, and it always leaves a non-empty reason. |
| Classifier.AcceptedItem | who_feed_filter.py:237-239 | An accepted item has a confirmed location, a grade among the eight codes and the accept reason naming that grade. |
| Classifier.RejectionReason | who_feed_filter.py:240-243 | A non-excluded rejection says which test failed. Both failed gives the combined reason; only the grade failed gives "No P/D grade found"; only the location failed gives "Duty station is not Geneva". |
| Classifier.SameTextSameFindings | who_feed_filter.py:170-230 | The verdict and the findings depend on the text fields only. |
| Classifier.ShouldImportIdempotent | who_feed_filter.py:231-243 | Classifying again gives the same verdict and leaves every field, the reason included, as it was. |
| Classifier.PrefixOnlyChangesReason | scraper.py:244 | The two programs' `should_import` agree on the verdict and on every field but the accept reason. |
| Markup.TagEndMeans | who_feed_filter.py:161 | A tag region `<[^>]+>` is found at `i` exactly when there is a `<`, at least one non-`>` character and then a `>`. |
| Markup.StripTagsLeavesNoTag | who_feed_filter.py:161 | After the first substitution no `<...>` region is left. |
| Markup.CollapseSpacesSingleSpaced | who_feed_filter.py:162 | After the second substitution no two adjacent characters are whitespace, and every whitespace is a space. |
| Markup.CollapseSpacesKeepsText | who_feed_filter.py:162 | Collapsing whitespace keeps every non-whitespace character, in order. |
| Markup.CollapseSpacesIdempotent | who_feed_filter.py:162 | Collapsing twice is collapsing once. |
| Markup.VisibleTextClean | scraper.py:260-262 | The fetched visible text is single-spaced, and it is empty exactly when the page was empty. |
| Markup.FetchTextEmpty | scraper.py:255-265 | The fetched text is `""` exactly when the request failed or the page was empty. |
| Selection.PickIndicesIncrease | who_feed_filter.py:279-285 | Selected items keep their source order. |
| Selection.SelectMembers | who_feed_filter.py:279-285 | An item is selected exactly when it is in the input with the wanted flag. |
| Selection.SelectSplits | who_feed_filter.py:279-285 | The two selections by a flag partition the input: the counts add up and the multisets add up. |
| Selection.MapSeqAt | who_feed_filter.py:276 | Element `k` of the mapped sequence is the function applied to element `k`. |
| Feed.ParseItem | who_feed_filter.py:252-262 | A fresh `FeedItem` with the stripped fields and the stripped `content:encoded` text appended to the description after a space. |
| Feed.ParseFeed | who_feed_filter.py:246-266 | One fresh, distinct item per `<item>` in feed order, except those whose title contains "More Jobs Available". |
| Feed.ParsedUpToSplit | who_feed_filter.py:251-266 | `parse_feed` is the order-preserving selection of the parsed items whose title is not the sentinel. |
| Feed.ParsedStatesMembers | who_feed_filter.py:251-266 | An item is parsed exactly when it comes from an `<item>` whose title lacks the sentinel text. Parsed items have stripped title, link and pubDate, no detail, no grade, no location and no reason. |
| Feed.FailedFetchIsNoDetail | scraper.py:263-265 | A failed or empty fetch leaves the item's detail text empty. |
| WhoFeedFilter.ShouldImport | who_feed_filter.py:231-243 | `who_feed_filter.py`'s `should_import` is the shared classifier with the prefix `✅ IMPORT`. |
| WhoFeedFilter.OutcomesAt | who_feed_filter.py:276-286 | Item `k` after `process_feed` is parsed item `k` enriched and classified, and its verdict is the classifier's. |
| WhoFeedFilter.HandleItem | who_feed_filter.py:278-286 | One turn: fetch exactly when a session exists and the link is non-empty, then classify. The link is unchanged. |
| WhoFeedFilter.HandleAll | who_feed_filter.py:276-286 | Every item is handled once, in order. Accepted and rejected are the order-preserving selections by verdict, and the fetch log has one entry per item with a session and a link. |
| WhoFeedFilter.ProcessFeed | who_feed_filter.py:268-286 | From the feed, the accepted and rejected lists hold exactly the parsed items by verdict, in feed order, with their classified fields. The page requests are those of the items with a link when a session exists. |
| WhoFeedFilter.BuildFilteredRss | who_feed_filter.py:306-312 | The kept `<item>`s are exactly those whose stripped link is an accepted link, in feed order. |
| WhoFeedFilter.KeptExactly | who_feed_filter.py:306-312 | An `<item>` survives exactly when it is in the feed and its stripped link is accepted. |
| WhoFeedFilter.AcceptedAreKept | who_feed_filter.py:268-316 | Every `<item>` that `process_feed` accepts survives `build_filtered_rss` on the same feed. |
| WhoFeedFilter.ProcessFeedPartition | who_feed_filter.py:276-286 | Accepted plus rejected is every parsed item, with the counts and the multisets adding up. |
| WhoFeedFilter.FetchCount | who_feed_filter.py:273-281 | At most one request per item. None without a session, and never for an empty link. |
| WhoFeedFilter.FailedFetchClassifiesAsUnfetched | who_feed_filter.py:164-166 | A failed or empty fetch classifies exactly like running without detail fetching. |
| WhoFeedFilter.OutcomeKeepsLink | who_feed_filter.py:276-286 | Handling an item keeps its link, which `build_filtered_rss` later matches. |
| Scraper.ShouldImport | scraper.py:238-248 | `scraper.py`'s `should_import` is the shared classifier with the prefix `IMPORT`. |
| Scraper.OutcomesAt | scraper.py:304-320 | Item `k` after `filter_feed` is parsed item `k` after the two stages, and its verdict is theirs. |
| Scraper.FilterItem | scraper.py:304-320 | One turn: an excluded title gets only the exclusion reason and no fetch. Otherwise the page is fetched exactly when the link is non-empty, then classified. The link is unchanged. |
| Scraper.FilterAll | scraper.py:302-322 | Every item is handled once, in order. Accepted and rejected are the order-preserving selections by verdict, and the fetch log holds the links of the non-excluded items that have one. |
| Scraper.FilterFeed | scraper.py:293-322 | From the feed, the accepted and rejected lists hold exactly the parsed items by the two stages' verdict, in feed order. The page requests are those of stage-1 survivors with a link. |
| Scraper.SecondExclusionHarmless | scraper.py:306-317 | For a stage-1 survivor the second `check_excluded` finds nothing and changes nothing. `filter_feed` classifies like `should_import` alone, and an excluded item is never enriched. |
| Scraper.SameVerdictAsWhoFeedFilter | scraper.py:304-320 | `scraper.py` accepts exactly the items `who_feed_filter.py` accepts with detail fetching on, and it requests a page only where the other would. |
| Scraper.AcceptedReason | scraper.py:243-245 | An accepted item has the reason `IMPORT — grade=<code>, location=Geneva`, with the code among the eight. |
| Scraper.ExcludedOutcome | scraper.py:306-309 | An item rejected in stage 1 changes only its reason, which names the excluded role, and it is not accepted. |
| Scraper.OutcomeHasReason | scraper.py:304-320 | Every handled item has a non-empty reason and keeps its title, link, description and pubDate. |
| Scraper.FilterFeedPartition | scraper.py:302-322 | `len(accepted) + len(rejected)` is the number of parsed items, and their multisets add up to all the handled items. |
| Scraper.FetchedOnlySurvivors | scraper.py:304-315 | At most one request per item. A URL is requested exactly when it is the link of a stage-1 survivor, and it is never `""`. |
| Scraper.FailedFetchClassifiesAsUnfetched | scraper.py:263-265 | A failed or empty fetch leaves the item to be classified as parsed. |
| Scraper.BuildRss | scraper.py:329-357 | The document is the channel header followed by one `<item>` per accepted item, in order. |
| Scraper.ItemReadBack | scraper.py:349-357 | Each written `<item>` has the title, link and description. It has pubDate exactly when that is non-empty, and a `guid` equal to the link with `isPermaLink="true"`. |
| Scraper.RssItems | scraper.py:331-357 | The document has version 2.0 and one channel, whose `<item>` children are the item elements in order. |
| Scraper.ReparseItem | scraper.py:268-286 | Parsing a written `<item>` gives back its title, link and pubDate, and its description stripped. |
| Scraper.ReparseOutput | scraper.py:329-357 | The written feed re-parses to the accepted items, in order, with the title, link and pubDate they were read with. |
| Scraper.LowerStartsWith | scraper.py:395 | `s.lower().startswith(lit)` is the case-insensitive comparison of `s`'s prefix with `lit`. |
| Scraper.EmptyRefusal | scraper.py:389-391 | A response is refused as empty exactly when it is all whitespace. |
| Scraper.HtmlRefusal | scraper.py:394-398 | A response is refused as HTML exactly when its stripped text is non-empty and begins with `<!doctype` or `<html` in any case. |
| Scraper.UsableResponse | scraper.py:375-405 | A response is used exactly when the request succeeded, it is not blank or HTML, and it parses; its parsed items are then the ones filtered. |
| Scraper.Run | scraper.py:367-429 | Exit status 0 with the filtered document exactly when the response is usable; otherwise status 1, no output and no page requested. |

## Left out

- HTTP sessions, retries, headers, the session warm-up, `time.sleep` delays and timeouts. These are network I/O; the fetch is an oracle.
- XML parsing and serialisation through `ElementTree` (`ET.fromstring`, `findall`, `indent`, `tostring`). These are library calls. Feeds are sequences of `RawItem`, and the output is an `Element` value.
- `.//item` against `channel/item`: `parse_feed` reads every `<item>` in the document while `build_filtered_rss` reads the channel's children. The model supplies both as the same sequence.
- `WhoFeedFilter.BuildFilteredRss`: the source removes the rejected elements from the channel in place. The model builds the list of kept elements, which is the channel's item list afterwards.
- The `lastBuildDate` clock and its `strftime` format, `print_results`, the summary prints, logging and the file write. These are I/O or the clock.
- Full Unicode semantics of `\b`, `\s`, `\d`, `str.lower` and `re.IGNORECASE`. The character model is ASCII plus è é È É and the en dash. On that alphabet `"<!doctype"` and `"<html"` compare exactly as under Python's full case mapping.
- `validate_rss_response`, `_EMPTY_RSS`, the graceful parse of invalid XML and the empty-feed fallback. `tests/test_filter.py` refers to them, but `who_feed_filter.py` does not define them.
- The concrete verdicts of `TEST_CASES` and `tests/test_filter.py` are not restated as lemmas about literal titles. The general lemmas above cover the rules they exercise: exclusion, tiers, normalisation and word boundaries.
- `who_feed_filter.py`'s command-line entry point and self-test runner.
