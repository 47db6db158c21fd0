# A verified model of the news-to-Twitter bot

The bot polls a news API for recent activity, keeps the articles about Bitcoin
mining and posts one tweet per new article. It remembers what it posted and
where the news feed left off. The repository holds two near-identical copies
of this cycle: `bot/main.py` and `simplebot/main.py` with `simplebot/filters.py`.
This project models the functional core of both copies in Dafny and proves
properties of it.

- **Articles** (`articles.dfy`): the article records as the bot reads them. Each
  key is absent, null or a value, because `record.get(key) or default` and
  `str(record.get(key, ""))` treat these three differently.
- **Text** (`text.dfy`): the Python string operations the core relies on:
  `strip`/`rstrip`, `" ".join(s.split())`, `in`, ASCII `lower()` and `sep.join`.
- **Filters** (`filters.dfy`): the two relevance matchers.
  - The bot's `is_bitcoin_mining_article` looks for the query in each field on
    its own.
  - The simplebot's `is_relevant_article` looks for it in the joined text.
  - Both then accept on a Bitcoin term plus a mining term.
- **Tweets** (`tweets.dfy`): `format_tweet`. That is the title, an em-dash and a
  summary of at most 160 characters, then the url. When the result is over 280
  characters the text is cut and ends in a single `…`; the url, when there is
  one, follows after a space.
- **Enrichment** (`enrichment.dfy`): the merge step of `enrich_articles`. The
  response of the article query is a parameter.
- **Publishing** (`publishing.dfy`): `post_articles` as pure functions on
  values. `Step` is one pass of the loop, `Run` is the loop and `Publish` adds
  the writes into the state that follow it.
- **Polling** (`polling.dfy`): `sync_updates_after`, `fetch_recent_activity` and
  `run_once` as pure functions. They cover both copies and take the API's answers
  as parameters.
- **Runtime** (`runtime.dfy`): the objects the source updates in place.
  - The bot state dictionary is the class `BotState`, with `sync_updates_after`,
    `post_articles`, `fetch_recent_activity` and `run_once` as methods.
  - The Twitter client is the class `Client`. Its answers are a scripted
    sequence, and a ghost log records the texts it was sent.
  - Each method is proved to leave the state that the functions of Publishing
    and Polling describe.

## Model

| member | source | states |
|---|---|---|
| Articles.Labels | bot/main.py:344-347 | the English labels the matchers read: never more labels than concepts, and none of them empty; `LabelsConcat` shows they are taken concept by concept, in order |
| Filters.IsBitcoinMiningArticle | bot/main.py:315-355 | the bot matcher; its meaning is stated by `BotMatcherRule` |
| Filters.IsRelevantArticle | simplebot/filters.py:17-51 | the simplebot matcher; its meaning is stated by `RelevantArticleRule` |
| Filters.BotMatcherRule | bot/main.py:315-355 | the bot matcher accepts exactly when the lower-cased query occurs in the lower-cased title, body or one English concept label on its own, or when the joined lower-cased text holds one of "bitcoin"/"btc" and one of the sixteen mining terms |
| Filters.SomePartContainsIff | bot/main.py:324-331 | the two early-return scans succeed exactly when some field or label, lower-cased on its own, contains the query |
| Filters.RelevantArticleRule | simplebot/filters.py:17-51 | the simplebot matcher accepts exactly when the joined lower-cased text contains the lower-cased query, or holds a Bitcoin term and a mining term |
| Filters.TwoSignalsIgnoreQuery | simplebot/filters.py:47-51 | a Bitcoin term and a mining term in the joined text are enough for both matchers, whatever the query |
| Filters.OneSignalRejected | bot/main.py:351-355 | with only one of the two kinds of term, and no query occurrence, both matchers reject |
| Filters.PartInCorpus | bot/main.py:343-350 | every field and label, lower-cased, occurs in the joined lower-cased text |
| Filters.BotMatchImpliesRelevant | simplebot/filters.py:40-45 | whatever the bot matcher accepts, the simplebot matcher accepts |
| Filters.BoundarySpanningQuery | simplebot/filters.py:28-45 | the converse fails: the query "x y" over title "x" and body "y" matches the joined text but no single field |
| Filters.CaseInsensitive | simplebot/filters.py:25-45 | upper-casing the title and body changes neither matcher's verdict |
| Filters.UnlabelledConceptsIgnored | simplebot/filters.py:34-38 | dropping concepts that are not objects or have no truthy English label changes neither verdict |
| Filters.AddedConceptKeepsMatch | bot/main.py:343-347 | adding a concept never turns an accepted article into a rejected one, in either matcher |
| Filters.RelaxedRuleExample | tests/test_main.py:153-156 | the title "BTC hashrate up" is accepted for the query "bitcoin mining" by both matchers |
| Tweets.FormatTweet | bot/main.py:358-387 | `format_tweet`; stated by `FormatTweetBound`, `FormatTweetVerbatim`, `FormatTweetNoUrl` and the `Compose` lemmas below |
| Tweets.Title | bot/main.py:361 | the title has no whitespace at either edge; it is "Untitled article" when the title is absent, null or empty, and the given title itself when that has no edge whitespace |
| Tweets.TitleStripsEdges | bot/main.py:361 | a given title loses only whitespace: the result is a piece of it with nothing but whitespace before and after |
| Tweets.Summary | bot/main.py:362-367 | the summary is a prefix of the whitespace-collapsed body, at most 160 characters long, collapsed with no edge whitespace; it is the whole collapsed body when that fits, and at least 159 characters when it does not |
| Tweets.Url | bot/main.py:363 | the url is the truthy `url`, else the truthy `permalink`, else empty |
| Tweets.Ellipsize | bot/main.py:383 | the result ends in `…`, has the same length when a trailing `.` was replaced and one more otherwise, and keeps every other character |
| Tweets.EllipsizeCounts | bot/main.py:383 | exactly one `…` is added, and only a trailing `.` is dropped |
| Tweets.ComposeBound | bot/main.py:372-387 | the composed tweet has at most 280 characters whenever the url has at most 278 |
| Tweets.FormatTweetBound | bot/main.py:358-387 | `format_tweet` gives at most 280 characters when the url has at most 278 |
| Tweets.ComposeFits | bot/main.py:372-378 | a visible text and url that fit together are joined verbatim with one space |
| Tweets.FormatTweetVerbatim | bot/main.py:368-378 | with a non-empty title and a visible url that fit together, the tweet is exactly the title, the em-dash and summary, a space and the url, so it contains both the title and the url |
| Tweets.FormatTweetNoUrl | bot/main.py:374-378 | without a url, a text that fits is the tweet |
| Tweets.CandidateKeepsUrl | bot/main.py:372-373 | stripping `text url` never leaves fewer characters than a visible url has |
| Tweets.ShortenWithUrl | bot/main.py:380-386 | on the truncation path with a url, the tweet is the cut, right-stripped and ellipsized text, left-stripped, then a space and the url |
| Tweets.ComposeTruncatedWithUrl | bot/main.py:377-386 | a tweet over 280 characters with a visible url becomes a piece of the text, one added `…`, a space and the url |
| Tweets.ComposeTruncatedNoUrl | bot/main.py:380-387 | without a url, a text over 280 characters becomes a prefix of it plus one `…`, within 280 characters |
| Tweets.OverflowingCandidate | bot/main.py:372-386 | with a url of more than 278 characters, a candidate that does not fit becomes `… url`, which is over 280 characters |
| Tweets.LongUrlOverflows | bot/main.py:381-386 | a url longer than 280 characters gives the tweet `… url`, which is over 280 characters |
| Enrichment.DetailedByUri | bot/main.py:258-262 | the `detailed_by_uri` comprehension; stated by `DetailedByUriSpec` |
| Enrichment.Overlay | bot/main.py:269 | `{**item, **detailed}`; stated through `EnrichPointwise` |
| Enrichment.Merge | bot/main.py:264-273 | the merge loop: the merged list is exactly as long as the activity list; position by position it is stated by `EnrichPointwise` |
| Enrichment.Enrich | bot/main.py:229-273 | `enrich_articles` after the query; stated by `EnrichRaises`, `EnrichFallsBack` and `EnrichPointwise` |
| Enrichment.DetailedByUriSpec | bot/main.py:258-262 | a uri is a key of `detailed_by_uri` exactly when some result is an object with that truthy uri, and it maps to the last such result |
| Enrichment.DetailedKeepsUri | bot/main.py:258-262 | every stored record carries the uri it is stored under |
| Enrichment.EnrichRaises | bot/main.py:253 | enrichment raises exactly when a query was made and the `articles` value is not an object |
| Enrichment.EnrichFallsBack | bot/main.py:235-256 | the input list comes back unchanged when no item has a uri, the query fails, the payload is not an object or `results` is not a list |
| Enrichment.EnrichPointwise | bot/main.py:264-273 | the merged list keeps the input's length and order; each item is overlaid by the last result with its uri when there is one and copied otherwise, and its uri never changes |
| Enrichment.MergeExample | tests/test_main.py:70-87 | the item `uri-1`/"Original" merged with the result `uri-1`/"Detailed"/"Fresh context" takes the detailed title and body |
| Publishing.Step | bot/main.py:412-443 | one pass of the loop; its four branches are the lemmas `StepSkips`, `StepBreaks`, `StepDryRun` and `StepSends`, and the `Run` lemmas below state what the passes add up to |
| Publishing.Run | bot/main.py:412-443 | the loop over the candidates; stated by the `Run` lemmas below |
| Publishing.Publish | bot/main.py:390-452 | `post_articles`; stated by the `Publish` lemmas below |
| Publishing.RunPostedWindow | bot/main.py:439-443 | after the loop the history is the starting list when nothing was posted, and otherwise the last 250 entries of the starting list followed by the successful uris in order, taken together |
| Publishing.RunHistoryBound | bot/main.py:440-441 | a history of at most 250 entries stays within 250 |
| Publishing.RunNoDuplicates | bot/main.py:417-419 | a history without duplicates never gains one |
| Publishing.RunOrder | bot/main.py:412-437 | the calls are for distinct candidates, in input order: their uris are a subsequence of the candidates' uris |
| Publishing.RunAttemptsAreCandidates | bot/main.py:412-437 | every call formats and sends one of the input articles, the one carrying the uri the call records |
| Publishing.RunCap | bot/main.py:422-424 | in a bootstrap run at most `bootstrap_count` articles are posted, or counted in a dry run |
| Publishing.RunUncapped | bot/main.py:409 | without the bootstrap cap the loop never breaks |
| Publishing.RunDryRun | bot/main.py:427-430 | a dry run makes no call and leaves the working history and the updated flag as they were |
| Publishing.RunCountsSuccesses | bot/main.py:439-443 | outside a dry run, the post count is the number of successful calls, and the history counts as updated exactly when one succeeded |
| Publishing.RunSkipsUriless | bot/main.py:413-416 | candidates without a truthy uri change nothing: removing them gives the same run |
| Publishing.RunStopped | bot/main.py:422-424 | once the loop has broken, later candidates change nothing |
| Publishing.RunAllSucceed | tests/test_main.py:178-214 | when every call succeeds, fresh candidates are all posted in order without the cap and the first `cap` with it; the loop breaks exactly when candidates are left over |
| Publishing.PublishConfigurationError | bot/main.py:400-403 | `post_articles` raises exactly when it is not a dry run and there is no client |
| Publishing.PublishFlags | bot/main.py:446-449 | otherwise the bootstrap flag ends up true exactly when it was true or a positive bootstrap count was given, and the cursors are untouched |
| Publishing.PublishHistory | bot/main.py:451-452 | a dry run leaves the history key and makes no call; otherwise the key is present and holds the last 250 entries of the old history and the successful uris taken together, or the old history when nothing succeeded |
| Publishing.PublishHistoryBound | bot/main.py:32 | a history of at most 250 distinct uris stays so |
| Publishing.PublishBootstrapCap | simplebot/main.py:307-325 | a first run with a positive bootstrap count posts at most that many articles; once bootstrap is completed the loop never breaks |
| Publishing.PublishSkipsDuplicate | tests/test_main.py:97-114 | with history `["uri-1"]`, candidates `uri-1` and `uri-2` and a client that accepts, the only call is for `uri-2` and the history becomes `["uri-1", "uri-2"]` |
| Polling.SyncCursors | bot/main.py:217-226 | `sync_updates_after`; stated by `SyncCursorsSpec` |
| Polling.FetchRecentActivity | bot/main.py:276-312 | `fetch_recent_activity`; stated by `FetchSpec` |
| Polling.RunOnce | bot/main.py:515-539 | `run_once` of either copy; stated by the `RunOnce` lemmas below |
| Polling.SetCursor | bot/main.py:224-226 | writing one cursor sets it and leaves the other cursors, the history and the bootstrap flag alone |
| Polling.SyncCursorsSpec | bot/main.py:217-226 | each cursor takes its request parameter's value when that value is truthy and keeps its old value otherwise; nothing else changes |
| Polling.SyncCursorsIdempotent | simplebot/main.py:160-168 | copying the same parameters twice is the same as copying them once |
| Polling.SyncExample | tests/test_main.py:40-56 | the three parameters `news-uri`, `blog-uri` and `pr-uri` land in the news, blog and press-release cursors |
| Polling.KeepRelevant | bot/main.py:308-312 | the filtered list is never longer than the input list |
| Polling.KeepRelevantMembers | simplebot/main.py:279-283 | an article is kept exactly when it is an input and the variant's matcher accepts it |
| Polling.KeepRelevantSingle | bot/main.py:308-312 | a single article is kept exactly when the variant's matcher accepts it |
| Polling.KeepRelevantConcat | bot/main.py:308-312 | filtering a concatenation is filtering each part and concatenating, so the kept articles keep their input order and multiplicity |
| Polling.FetchSpec | bot/main.py:276-312 | a failed request changes nothing; any other answer copies the cursors first; enrichment raising is the only way the fetch raises; every fetched article is relevant, and every relevant enriched article is fetched; an empty or non-list activity fetches nothing |
| Polling.RunOnceCursors | bot/main.py:515-539 | a cycle leaves the cursors as the sync left them, or as they were when the request failed |
| Polling.RunOnceBootstrapMonotone | simplebot/main.py:406-443 | a cycle never clears the bootstrap flag |
| Polling.RunOnceBootstrapAfterPosting | simplebot/main.py:437-443 | a cycle that has something to post and does not raise ends with the flag true exactly when it was true or a positive bootstrap count was given |
| Polling.RunOnceEmptyCycle | simplebot/main.py:429-435 | a cycle that fetched nothing relevant makes no call and leaves the history as it was; the bot copy leaves the flag as it was, and the simplebot copy completes bootstrap when a positive count was given |
| Polling.BotEmptyFirstCycle | bot/main.py:535-537 | as written, the bot's first cycle from the default state, with a client, bootstrap count 2 and an empty activity list, sends nothing, leaves the history empty and leaves bootstrap not completed |
| Polling.SimpleEmptyFirstCycle | tests/test_main.py:216-245 | the same cycle in the simplebot copy sends nothing, leaves the history empty and completes bootstrap, as the test expects |
| Polling.RunOnceConfigurationError | bot/main.py:535-539 | a cycle raises the configuration error exactly when it has something to post, is not a dry run and has no client |
| Polling.RunOnceHistory | bot/main.py:32 | across a cycle a history of at most 250 distinct uris stays so, and a dry run leaves it as it was |
| Runtime.Client.constructor | tests/test_main.py:21-26 | a fresh client has its script of answers, no calls and an empty log |
| Runtime.Client.CreateTweet | bot/main.py:432-437 | the call succeeds exactly when the next scripted answer is true (a call beyond the script fails), advances the script and logs the text |
| Runtime.BotState.constructor | simplebot/state.py:13-20 | a new state is the default state: no cursors, an empty history, bootstrap not completed |
| Runtime.BotState.SyncUpdatesAfter | bot/main.py:217-226 | the loop over the parameter table leaves the state `SyncCursors` describes |
| Runtime.SendTweet | bot/main.py:426-437 | the tweet of the candidate is sent and logged, and the attempt records the client's answer |
| Runtime.SendCandidate | bot/main.py:432-443 | a new candidate, sent in a real run, leaves the working variables one `Step` gives: the uri appended and trimmed to 250, and the count raised, on success only |
| Runtime.VisitCandidate | bot/main.py:412-443 | one pass of the loop leaves the working variables `Step` gives, and the client's log holds the tweets of all attempts |
| Runtime.PostCandidates | simplebot/main.py:313-344 | the loop, breaking at the bootstrap cap, leaves the working variables `Run` gives, and the client's log gains the tweets of the attempts in order, its call counter advancing by one per attempt |
| Runtime.BotState.PostArticles | bot/main.py:390-452 | raises exactly as `Publish` says and then changes nothing; otherwise leaves the state `Publish` gives, and the client was sent the tweets of its attempts, one call each |
| Runtime.BotState.FetchRecentActivity | simplebot/main.py:247-286 | leaves the state and returns the relevant articles, or reports that enrichment raised, as `FetchRecentActivity` says |
| Runtime.BotState.RunOnce | simplebot/main.py:406-443 | leaves the state `RunOnce` gives, raises the configuration error exactly when it does, and the client was sent the tweets of the cycle's attempts, one call each; on a configuration error the client's log and counter are as they were |

## Left out

- Credentials, environment variables, building the API and Twitter clients,
  `build_recent_articles_request`, logging, the command line, `main`, sleeping
  and `save_state` are not modelled. They are I/O or configuration around the
  core.
- `load_state` with an existing file is not modelled. It is JSON I/O. Only its
  default state (`DefaultCheckpoint`, `BotState.constructor`) is.
- The news API is replaced by parameters:
  - `Activity` is the answer of `getUpdates`.
  - `EnrichResponse` is the answer of the article query.
  - The request's `queryParams` is a map of strings.
  - The QueryArticles request itself (the uri list, the return info) is not built.
- The Twitter API is replaced by a script of answers. A `false` answer stands
  for a raised `TweepyException`. Other exception types, and rate limits, are
  not modelled.
- Values the source would trip over at run time are outside the types, so the
  model cannot express them:
  - a concept whose `label` is present but not an object (`.get` raises);
  - activity items that are not objects;
  - uri, title or body values that are not strings;
  - a `postedArticleUris` or `concepts` value of the wrong type.
- An explicit `null` uri is `Null`. `str(None)` is "None", which the model
  follows in the matchers.
- `lower()` and `str.isspace` cover ASCII letters and Python's whitespace
  characters. Full Unicode case mapping is not modelled.
- Tweets.FormatTweetBound: the 280-character bound is proved only for urls of at
  most 278 characters. With a url of 279 or 280 characters the code goes over
  280 only when the candidate does not fit (`OverflowingCandidate`); a url of
  more than 280 characters always does (`LongUrlOverflows`). The model follows
  the code.
- The `article_lang` parameter only shapes the request, which is not modelled.
- `fetch_recent_activity` raising inside `run_once`, other than through
  enrichment, is not modelled. The request and the client are parameters, and
  their failures appear as `UpdatesFailed` and `QueryFailed`.

## Findings

| source | as written | input that shows it | evidently intended | confidence | as-written member | corrected member |
|---|---|---|---|---|---|---|
| bot/main.py:535-537 | the bot's `run_once` returns as soon as nothing relevant was fetched, before bootstrap is marked completed | first cycle from the default state (`bootstrapCompleted` false), bootstrap count 2, `getUpdates` answering an empty list | bootstrap is completed even with no articles, as simplebot/main.py:429-435 does and tests/test_main.py:216-245 expects of the bot | not executed | Polling.BotEmptyFirstCycle | Polling.SimpleEmptyFirstCycle |
