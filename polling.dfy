/**
 * One poll/post cycle as functions on values: copying the pagination
 * checkpoints (`sync_updates_after`), fetching and filtering the recent
 * activity (`fetch_recent_activity`) and the cycle itself (`run_once`), for
 * both copies of the bot. The news API's answers are parameters.
 */
module Polling {
  import opened Articles
  import opened Filters
  import opened Enrichment
  import opened Publishing

  /** The two copies of the bot: bot/main.py and simplebot/main.py. */
  datatype Variant = Bot | Simple

  /** The three pagination cursors of the bot state. */
  datatype Cursor = NewsCursor | BlogCursor | PrCursor

  const ParamPrefix: string := "recentActivityArticles"
  const NewsParam: string := ParamPrefix + "NewsUpdatesAfterUri"
  const BlogParam: string := ParamPrefix + "BlogsUpdatesAfterUri"
  const PrParam: string := ParamPrefix + "PrUpdatesAfterUri"

  /** `UPDATES_AFTER_PARAMS`: which request parameter feeds which cursor, in order. */
  const UpdatesAfterParams: seq<(string, Cursor)> :=
    [(NewsParam, NewsCursor), (BlogParam, BlogCursor), (PrParam, PrCursor)]

  function CursorOf(st: Checkpoint, c: Cursor): Option<string> {
    match c
    case NewsCursor => st.news
    case BlogCursor => st.blog
    case PrCursor => st.pr
  }

  /** `state[state_key] = value`. */
  function SetCursor(st: Checkpoint, c: Cursor, v: string): (r: Checkpoint)
    ensures CursorOf(r, c) == Some(v)
    ensures forall d :: d != c ==> CursorOf(r, d) == CursorOf(st, d)
    ensures r.posted == st.posted && r.postedPresent == st.postedPresent
    ensures r.bootstrapCompleted == st.bootstrapCompleted
  {
    match c
    case NewsCursor => st.(news := Some(v))
    case BlogCursor => st.(blog := Some(v))
    case PrCursor => st.(pr := Some(v))
  }

  /** `query_params.get(key)` when it is truthy. */
  function ParamValue(params: map<string, string>, key: string): Option<string> {
    if key in params && params[key] != "" then Some(params[key]) else None
  }

  /** One pass of the loop of `sync_updates_after`. */
  function SyncEntry(params: map<string, string>, st: Checkpoint, entry: (string, Cursor)): Checkpoint {
    match ParamValue(params, entry.0)
    case Some(v) => SetCursor(st, entry.1, v)
    case None => st
  }

  /** The loop of `sync_updates_after` over the first entries of the table. */
  function SyncWith(params: map<string, string>, st: Checkpoint, table: seq<(string, Cursor)>): Checkpoint {
    if table == [] then st
    else SyncEntry(params, SyncWith(params, st, table[..|table| - 1]), table[|table| - 1])
  }

  /** bot/main.py and simplebot/main.py `sync_updates_after`. */
  function SyncCursors(params: map<string, string>, st: Checkpoint): Checkpoint {
    SyncWith(params, st, UpdatesAfterParams)
  }

  /** The request parameter that feeds cursor `c`. */
  function ParamOf(c: Cursor): string {
    match c
    case NewsCursor => NewsParam
    case BlogCursor => BlogParam
    case PrCursor => PrParam
  }

  /**
   * Each cursor takes its parameter's value when that value is truthy and
   * keeps its old value otherwise; the history and the bootstrap flag are not
   * touched.
   */
  lemma SyncCursorsSpec(params: map<string, string>, st: Checkpoint, c: Cursor)
    ensures var r := SyncCursors(params, st);
      && CursorOf(r, c) == (match ParamValue(params, ParamOf(c)) case Some(v) => Some(v) case None => CursorOf(st, c))
      && r.posted == st.posted && r.postedPresent == st.postedPresent
      && r.bootstrapCompleted == st.bootstrapCompleted
  {
    var t := UpdatesAfterParams;
    assert |t| == 3;
    assert t[..1][..0] == [] && t[..2][..1] == t[..1] && t[..|t| - 1] == t[..2];
    assert SyncWith(params, st, t[..1][..0]) == st;
    var s1 := SyncWith(params, st, t[..1]);
    var s2 := SyncWith(params, st, t[..2]);
    assert s1 == SyncEntry(params, st, t[0]);
    assert s2 == SyncEntry(params, s1, t[1]);
    assert SyncCursors(params, st) == SyncEntry(params, s2, t[2]);
  }

  /** Copying the same parameters twice is the same as once. */
  lemma SyncCursorsIdempotent(params: map<string, string>, st: Checkpoint)
    ensures SyncCursors(params, SyncCursors(params, st)) == SyncCursors(params, st)
  {
    var once := SyncCursors(params, st);
    var twice := SyncCursors(params, once);
    SyncCursorsSpec(params, st, NewsCursor);
    SyncCursorsSpec(params, st, BlogCursor);
    SyncCursorsSpec(params, st, PrCursor);
    SyncCursorsSpec(params, once, NewsCursor);
    SyncCursorsSpec(params, once, BlogCursor);
    SyncCursorsSpec(params, once, PrCursor);
    assert CursorOf(twice, NewsCursor) == CursorOf(once, NewsCursor);
    assert CursorOf(twice, BlogCursor) == CursorOf(once, BlogCursor);
    assert CursorOf(twice, PrCursor) == CursorOf(once, PrCursor);
  }

  /** The sync example: all three cursors are copied from the request parameters. */
  lemma SyncExample()
    ensures var params := map[NewsParam := "news-uri", BlogParam := "blog-uri", PrParam := "pr-uri"];
      var r := SyncCursors(params, DefaultCheckpoint);
      r.news == Some("news-uri") && r.blog == Some("blog-uri") && r.pr == Some("pr-uri")
  {
    var params := map[NewsParam := "news-uri", BlogParam := "blog-uri", PrParam := "pr-uri"];
    var k := |ParamPrefix|;
    assert NewsParam[k] == 'N' && BlogParam[k] == 'B' && PrParam[k] == 'P';
    assert ParamValue(params, NewsParam) == Some("news-uri");
    assert ParamValue(params, BlogParam) == Some("blog-uri");
    assert ParamValue(params, PrParam) == Some("pr-uri");
    SyncCursorsSpec(params, DefaultCheckpoint, NewsCursor);
    SyncCursorsSpec(params, DefaultCheckpoint, BlogCursor);
    SyncCursorsSpec(params, DefaultCheckpoint, PrCursor);
  }

  // ----- fetching -----

  /** What `request.getUpdates()` gave back. */
  datatype Activity = UpdatesFailed | UpdatesNotList | Updates(items: seq<Article>)

  /** A fetch either raises (out of the enrichment step) or returns the relevant articles; both leave a state behind. */
  datatype Fetch = FetchRaised(state: Checkpoint) | Fetched(state: Checkpoint, articles: seq<Article>)

  /** The relevance test of each copy. */
  predicate Relevant(v: Variant, a: Article, query: string) {
    match v
    case Bot => IsBitcoinMiningArticle(a, query)
    case Simple => IsRelevantArticle(a, query)
  }

  /** The filtering comprehension: the relevant articles, in order. */
  function KeepRelevant(v: Variant, articles: seq<Article>, query: string): (r: seq<Article>)
    ensures |r| <= |articles|
  {
    if articles == [] then []
    else
      var last := articles[|articles| - 1];
      KeepRelevant(v, articles[..|articles| - 1], query) + (if Relevant(v, last, query) then [last] else [])
  }

  /** An article is kept exactly when it is one of the inputs and relevant. */
  lemma {:induction false} KeepRelevantMembers(v: Variant, articles: seq<Article>, query: string, a: Article)
    ensures a in KeepRelevant(v, articles, query) <==> a in articles && Relevant(v, a, query)
  {
    if articles != [] {
      var front := articles[..|articles| - 1];
      KeepRelevantMembers(v, front, query, a);
      assert articles == front + [articles[|articles| - 1]];
    }
  }

  /** A single article is kept exactly when it is relevant. */
  lemma KeepRelevantSingle(v: Variant, a: Article, query: string)
    ensures KeepRelevant(v, [a], query) == if Relevant(v, a, query) then [a] else []
  {
    assert [a][..0] == [];
  }

  /** Filtering distributes over concatenation, so the kept articles keep their input order and multiplicity. */
  lemma {:induction false} KeepRelevantConcat(v: Variant, xs: seq<Article>, ys: seq<Article>, query: string)
    ensures KeepRelevant(v, xs + ys, query) == KeepRelevant(v, xs, query) + KeepRelevant(v, ys, query)
    decreases |ys|
  {
    if ys == [] {
      assert xs + ys == xs;
    } else {
      var front, last := ys[..|ys| - 1], ys[|ys| - 1];
      KeepRelevantConcat(v, xs, front, query);
      var kept := if Relevant(v, last, query) then [last] else [];
      assert (xs + ys)[..|xs + ys| - 1] == xs + front && (xs + ys)[|xs + ys| - 1] == last;
      assert KeepRelevant(v, xs + ys, query) == KeepRelevant(v, xs + front, query) + kept;
      assert KeepRelevant(v, ys, query) == KeepRelevant(v, front, query) + kept;
    }
  }

  /** bot/main.py and simplebot/main.py `fetch_recent_activity`, from the API's answers. */
  function FetchRecentActivity(v: Variant, st: Checkpoint, params: map<string, string>, activity: Activity,
                               response: EnrichResponse, query: string): Fetch
  {
    if activity.UpdatesFailed? then Fetched(st, [])
    else
      var items := if activity.Updates? then activity.items else [];
      var synced := SyncCursors(params, st);
      if items == [] then Fetched(synced, [])
      else
        match Enrich(items, response)
        case None => FetchRaised(synced)
        case Some(enriched) => Fetched(synced, KeepRelevant(v, enriched, query))
  }

  /**
   * A failed request changes nothing; any other answer copies the cursors
   * first, whatever follows. Fetched articles are relevant, and an empty or
   * malformed activity list fetches nothing.
   */
  lemma FetchSpec(v: Variant, st: Checkpoint, params: map<string, string>, activity: Activity,
                  response: EnrichResponse, query: string)
    ensures var f := FetchRecentActivity(v, st, params, activity, response, query);
      && f.state == (if activity.UpdatesFailed? then st else SyncCursors(params, st))
      && (f.FetchRaised? <==> activity.Updates? && activity.items != [] && Enrich(activity.items, response).None?)
      && (f.Fetched? ==> forall a :: a in f.articles ==> Relevant(v, a, query))
      && (activity.Updates? && activity.items != [] && Enrich(activity.items, response).Some? ==>
            f.Fetched? && forall a :: a in Enrich(activity.items, response).value && Relevant(v, a, query) ==>
              a in f.articles)
      && (!activity.Updates? || activity.items == [] ==> f == Fetched(f.state, []))
  {
    var f := FetchRecentActivity(v, st, params, activity, response, query);
    if f.Fetched? && activity.Updates? && activity.items != [] {
      var enriched := Enrich(activity.items, response).value;
      forall a | a in f.articles ensures Relevant(v, a, query) {
        KeepRelevantMembers(v, enriched, query, a);
      }
      forall a | a in enriched && Relevant(v, a, query) ensures a in f.articles {
        KeepRelevantMembers(v, enriched, query, a);
      }
    }
  }

  // ----- the cycle -----

  /** How a cycle ends: the posting step raised a configuration error, or the cycle returned. */
  datatype Cycle = CycleConfigurationError(state: Checkpoint) | CycleDone(state: Checkpoint, attempts: seq<Attempt>)

  /** What the cycle does when nothing relevant was fetched. */
  function EmptyCycle(v: Variant, st: Checkpoint, bootstrapCount: int): Checkpoint {
    match v
    case Bot => st
    case Simple => if bootstrapCount > 0 && !st.bootstrapCompleted then st.(bootstrapCompleted := true) else st
  }

  /** bot/main.py and simplebot/main.py `run_once`. */
  function RunOnce(v: Variant, st: Checkpoint, params: map<string, string>, activity: Activity,
                   response: EnrichResponse, query: string, hasClient: bool, dryRun: bool,
                   bootstrapCount: int, outcomes: seq<bool>): Cycle
  {
    match FetchRecentActivity(v, st, params, activity, response, query)
    case FetchRaised(s) => CycleDone(s, [])
    case Fetched(s, articles) =>
      if articles == [] then CycleDone(EmptyCycle(v, s, bootstrapCount), [])
      else
        match Publish(s, articles, hasClient, dryRun, bootstrapCount, outcomes)
        case ConfigurationError => CycleConfigurationError(s)
        case Posted(s2, p) => CycleDone(s2, p.attempts)
  }

  /** The state a fetch leaves: the synced cursors, unless the request failed. */
  lemma FetchState(v: Variant, st: Checkpoint, params: map<string, string>, activity: Activity,
                   response: EnrichResponse, query: string)
    ensures FetchRecentActivity(v, st, params, activity, response, query).state
      == if activity.UpdatesFailed? then st else SyncCursors(params, st)
  {
  }

  /** Outside the cursor sync, a cycle never touches the cursors. */
  lemma RunOnceCursors(v: Variant, st: Checkpoint, params: map<string, string>, activity: Activity,
                       response: EnrichResponse, query: string, hasClient: bool, dryRun: bool,
                       bootstrapCount: int, outcomes: seq<bool>)
    ensures var r := RunOnce(v, st, params, activity, response, query, hasClient, dryRun, bootstrapCount, outcomes);
      var synced := if activity.UpdatesFailed? then st else SyncCursors(params, st);
      r.state.news == synced.news && r.state.blog == synced.blog && r.state.pr == synced.pr
  {
    FetchState(v, st, params, activity, response, query);
    var f := FetchRecentActivity(v, st, params, activity, response, query);
    if f.Fetched? && f.articles != [] && (hasClient || dryRun) {
      PublishFlags(f.state, f.articles, hasClient, dryRun, bootstrapCount, outcomes);
    }
  }

  /** A cycle never clears the bootstrap flag. */
  lemma RunOnceBootstrapMonotone(v: Variant, st: Checkpoint, params: map<string, string>, activity: Activity,
                                 response: EnrichResponse, query: string, hasClient: bool, dryRun: bool,
                                 bootstrapCount: int, outcomes: seq<bool>)
    requires st.bootstrapCompleted
    ensures RunOnce(v, st, params, activity, response, query, hasClient, dryRun, bootstrapCount, outcomes)
      .state.bootstrapCompleted
  {
    FetchSpec(v, st, params, activity, response, query);
    SyncCursorsSpec(params, st, NewsCursor);
    var f := FetchRecentActivity(v, st, params, activity, response, query);
    if f.Fetched? && f.articles != [] && (hasClient || dryRun) {
      PublishFlags(f.state, f.articles, hasClient, dryRun, bootstrapCount, outcomes);
    }
  }

  /**
   * A cycle that fetched something to post, and did not raise, completes
   * bootstrap exactly when a positive bootstrap count was given (or it was
   * already completed), in both copies.
   */
  lemma RunOnceBootstrapAfterPosting(v: Variant, st: Checkpoint, params: map<string, string>, activity: Activity,
                                     response: EnrichResponse, query: string, hasClient: bool, dryRun: bool,
                                     bootstrapCount: int, outcomes: seq<bool>)
    requires hasClient || dryRun
    requires var f := FetchRecentActivity(v, st, params, activity, response, query); f.Fetched? && f.articles != []
    ensures RunOnce(v, st, params, activity, response, query, hasClient, dryRun, bootstrapCount, outcomes)
      .state.bootstrapCompleted == (st.bootstrapCompleted || bootstrapCount > 0)
  {
    FetchSpec(v, st, params, activity, response, query);
    SyncCursorsSpec(params, st, NewsCursor);
    var f := FetchRecentActivity(v, st, params, activity, response, query);
    PublishFlags(f.state, f.articles, hasClient, dryRun, bootstrapCount, outcomes);
  }

  /**
   * A cycle that fetched nothing relevant posts nothing. The bot copy then
   * leaves the bootstrap flag as it was; the simplebot copy completes bootstrap
   * when a positive bootstrap count was given.
   */
  lemma RunOnceEmptyCycle(v: Variant, st: Checkpoint, params: map<string, string>, activity: Activity,
                          response: EnrichResponse, query: string, hasClient: bool, dryRun: bool,
                          bootstrapCount: int, outcomes: seq<bool>)
    requires var f := FetchRecentActivity(v, st, params, activity, response, query); f.Fetched? && f.articles == []
    ensures var r := RunOnce(v, st, params, activity, response, query, hasClient, dryRun, bootstrapCount, outcomes);
      && r.CycleDone? && r.attempts == []
      && r.state.posted == st.posted && r.state.postedPresent == st.postedPresent
      && (v == Bot ==> r.state.bootstrapCompleted == st.bootstrapCompleted)
      && (v == Simple ==> r.state.bootstrapCompleted == (st.bootstrapCompleted || bootstrapCount > 0))
  {
    FetchSpec(v, st, params, activity, response, query);
    SyncCursorsSpec(params, st, NewsCursor);
  }

  /**
   * The bot copy as written: a first cycle with a client, bootstrap count 2
   * and no activity leaves bootstrap not completed.
   */
  lemma BotEmptyFirstCycle()
    ensures var r := RunOnce(Bot, DefaultCheckpoint, map[], Updates([]), QueryFailed, "bitcoin mining",
                             true, false, 2, []);
      r.CycleDone? && r.attempts == [] && r.state.posted == [] && !r.state.bootstrapCompleted
  {
    RunOnceEmptyCycle(Bot, DefaultCheckpoint, map[], Updates([]), QueryFailed, "bitcoin mining", true, false, 2, []);
  }

  /**
   * The simplebot copy, which the tests expect of both: the same first cycle
   * sends nothing, leaves the history empty and completes bootstrap.
   */
  lemma SimpleEmptyFirstCycle()
    ensures var r := RunOnce(Simple, DefaultCheckpoint, map[], Updates([]), QueryFailed, "bitcoin mining",
                             true, false, 2, []);
      r.CycleDone? && r.attempts == [] && r.state.posted == [] && r.state.bootstrapCompleted
  {
    RunOnceEmptyCycle(Simple, DefaultCheckpoint, map[], Updates([]), QueryFailed, "bitcoin mining", true, false, 2, []);
  }

  /**
   * A cycle raises a configuration error exactly when it has something to post,
   * is not a dry run and has no client.
   */
  lemma RunOnceConfigurationError(v: Variant, st: Checkpoint, params: map<string, string>, activity: Activity,
                                  response: EnrichResponse, query: string, hasClient: bool, dryRun: bool,
                                  bootstrapCount: int, outcomes: seq<bool>)
    ensures var f := FetchRecentActivity(v, st, params, activity, response, query);
      RunOnce(v, st, params, activity, response, query, hasClient, dryRun, bootstrapCount, outcomes).CycleConfigurationError?
      <==> f.Fetched? && f.articles != [] && !dryRun && !hasClient
  {
  }

  /** A history of at most 250 distinct uris stays so across a cycle; a dry run leaves it as it was. */
  lemma RunOnceHistory(v: Variant, st: Checkpoint, params: map<string, string>, activity: Activity,
                       response: EnrichResponse, query: string, hasClient: bool, dryRun: bool,
                       bootstrapCount: int, outcomes: seq<bool>)
    requires WellFormed(st) && |st.posted| <= PostedHistoryLimit && NoDuplicates(st.posted)
    ensures var r := RunOnce(v, st, params, activity, response, query, hasClient, dryRun, bootstrapCount, outcomes);
      && |r.state.posted| <= PostedHistoryLimit && NoDuplicates(r.state.posted) && WellFormed(r.state)
      && (dryRun ==> r.CycleDone? && r.state.posted == st.posted && r.attempts == [])
  {
    FetchSpec(v, st, params, activity, response, query);
    SyncCursorsSpec(params, st, NewsCursor);
    var f := FetchRecentActivity(v, st, params, activity, response, query);
    if f.Fetched? && f.articles != [] && (hasClient || dryRun) {
      PublishHistoryBound(f.state, f.articles, hasClient, dryRun, bootstrapCount, outcomes);
      PublishHistory(f.state, f.articles, hasClient, dryRun, bootstrapCount, outcomes);
    }
  }
}
