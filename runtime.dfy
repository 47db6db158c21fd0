/**
 * The bot's mutable state and its Twitter client as objects, and the
 * operations that update them in place: `sync_updates_after`, `post_articles`,
 * `fetch_recent_activity` and `run_once`. Each method is proved to leave the
 * state that the functions of `Publishing` and `Polling` describe.
 */
module Runtime {
  import opened Articles
  import opened Tweets
  import opened Enrichment
  import opened Publishing
  import opened Polling

  /** The answers left for a client that has already taken `k` calls: calls beyond the script fail. */
  function Remaining(script: seq<bool>, k: nat): (r: seq<bool>)
    ensures forall j: nat :: Outcome(r, j) == Outcome(script, k + j)
  {
    if k <= |script| then script[k..] else []
  }

  /**
   * The Twitter client. Its answers are a script: the `k`-th call of
   * `create_tweet` succeeds exactly when the `k`-th entry is true, and a call
   * beyond the script fails. `calls` counts the calls made and `sent` logs
   * every text passed in.
   */
  class Client {
    const script: seq<bool>
    var calls: nat
    ghost var sent: seq<string>

    constructor (answers: seq<bool>)
      ensures script == answers && calls == 0 && sent == []
    {
      script := answers;
      calls := 0;
      sent := [];
    }

    /** The answers still to come. */
    function Pending(): seq<bool>
      reads this
    {
      Remaining(script, calls)
    }

    /** `create_tweet(text=...)`: true when the call went through, false when it raised. */
    method CreateTweet(text: string) returns (ok: bool)
      modifies this
      ensures ok == Outcome(script, old(calls))
      ensures calls == old(calls) + 1
      ensures sent == old(sent) + [text]
    {
      ok := calls < |script| && script[calls];
      calls := calls + 1;
      sent := sent + [text];
    }
  }

  /** The log `sent` is `log` followed by the tweets of `attempts`. */
  predicate SentAfter(log: seq<string>, sent: seq<string>, attempts: seq<Attempt>) {
    |log| <= |sent| && sent[..|log|] == log && Tweeted(sent[|log|..], attempts)
  }

  /** Appending to a log keeps its first `n` entries and extends the rest. */
  lemma SnocSlices(s: seq<string>, t: string, n: nat)
    requires n <= |s|
    ensures (s + [t])[..n] == s[..n] && (s + [t])[n..] == s[n..] + [t]
  {
  }

  /**
   * The `create_tweet` call of `post_articles`: the candidate's tweet goes to
   * the client, and the attempt is recorded with the client's answer.
   */
  method SendTweet(client: Client, a: Article, uri: string, ghost log: seq<string>, ghost tried: seq<Attempt>)
    returns (ok: bool, ghost attempts: seq<Attempt>)
    requires SentAfter(log, client.sent, tried)
    modifies client
    ensures ok == Outcome(client.script, old(client.calls)) && client.calls == old(client.calls) + 1
    ensures attempts == tried + [Attempt(uri, a, ok)]
    ensures SentAfter(log, client.sent, attempts)
  {
    var tweet := FormatTweet(a);
    ghost var before := client.sent;
    ok := client.CreateTweet(tweet);
    attempts := tried + [Attempt(uri, a, ok)];
    SnocSlices(before, tweet, |log|);
    TweetedSnoc(before[|log|..], tried, tweet, Attempt(uri, a, ok));
  }

  /**
   * The body of `post_articles` for a new candidate in a real run: send its
   * tweet, and on success append its uri to the history, trimmed to the last
   * 250, and count it. A failed call changes nothing but the attempts.
   */
  method SendCandidate(client: Client, a: Article, posted: seq<string>, updated: bool, count: nat,
                       ghost pol: Policy, ghost prog: Progress, ghost first: nat, ghost log: seq<string>)
    returns (postedUris: seq<string>, updatedHistory: bool, postCount: nat, ghost attempts: seq<Attempt>)
    requires prog.posted == posted && prog.updated == updated && prog.count == count
    requires !prog.stopped && Truthy(a.uri) && a.uri.v !in prog.posted
    requires !(pol.bootstrap && prog.count >= pol.cap) && !pol.dryRun
    requires pol.outcomes == Remaining(client.script, first) && client.calls == first + |prog.attempts|
    requires SentAfter(log, client.sent, prog.attempts)
    modifies client
    ensures Step(prog, a, pol) == Progress(postedUris, updatedHistory, postCount, attempts, false)
    ensures client.calls == first + |attempts|
    ensures SentAfter(log, client.sent, attempts)
  {
    StepSends(prog, a, pol);
    var uri := a.uri.v;
    var ok;
    ok, attempts := SendTweet(client, a, uri, log, prog.attempts);
    assert ok == Outcome(pol.outcomes, |prog.attempts|);
    postedUris, updatedHistory, postCount := posted, updated, count;
    if ok {
      postedUris := postedUris + [uri];
      if |postedUris| > PostedHistoryLimit {
        postedUris := postedUris[|postedUris| - PostedHistoryLimit..];
      }
      assert postedUris == KeepLast(prog.posted + [uri], PostedHistoryLimit);
      updatedHistory := true;
      postCount := postCount + 1;
    }
  }

  /**
   * One pass of the loop of `post_articles`: skip a candidate without a uri or
   * one already posted, break at the bootstrap cap, count it in a dry run, and
   * send it otherwise.
   */
  method VisitCandidate(client: Client?, a: Article, boot: bool, dryRun: bool, bootstrapCount: int,
                        posted: seq<string>, updated: bool, count: nat,
                        ghost pol: Policy, ghost prog: Progress, ghost first: nat, ghost log: seq<string>)
    returns (postedUris: seq<string>, updatedHistory: bool, postCount: nat, ghost attempts: seq<Attempt>, stopped: bool)
    requires pol.bootstrap == boot && pol.cap == bootstrapCount && pol.dryRun == dryRun
    requires prog == Progress(posted, updated, count, prog.attempts, false)
    requires !dryRun ==> client != null
    requires client != null ==> pol.outcomes == Remaining(client.script, first)
    requires client != null ==> client.calls == first + |prog.attempts| && SentAfter(log, client.sent, prog.attempts)
    modifies client
    ensures Step(prog, a, pol) == Progress(postedUris, updatedHistory, postCount, attempts, stopped)
    ensures client != null ==> client.calls == first + |attempts| && SentAfter(log, client.sent, attempts)
  {
    postedUris, updatedHistory, postCount, attempts, stopped := posted, updated, count, prog.attempts, false;
    if !(a.uri.Val? && a.uri.v != "") || a.uri.v in posted {
      StepSkips(prog, a, pol);
    } else if boot && count >= bootstrapCount {
      StepBreaks(prog, a, pol);
      stopped := true;
    } else if dryRun {
      StepDryRun(prog, a, pol);
      postCount := count + 1;
    } else {
      postedUris, updatedHistory, postCount, attempts :=
        SendCandidate(client, a, posted, updated, count, pol, prog, first, log);
    }
  }

  /**
   * The loop of `post_articles` over the candidates, from the history `init`:
   * it leaves the working variables that `Run` describes.
   */
  method PostCandidates(client: Client?, articles: seq<Article>, init: seq<string>, boot: bool,
                        dryRun: bool, bootstrapCount: int)
    returns (postedUris: seq<string>, updatedHistory: bool, postCount: nat, ghost attempts: seq<Attempt>, stopped: bool)
    requires !dryRun ==> client != null
    modifies client
    ensures Run(init, articles, Policy(boot, bootstrapCount, dryRun, if client == null then [] else old(client.Pending())))
      == Progress(postedUris, updatedHistory, postCount, attempts, stopped)
    ensures client != null ==> SentAfter(old(client.sent), client.sent, attempts)
    ensures client != null ==> client.calls == old(client.calls) + |attempts|
  {
    ghost var first := if client == null then 0 else client.calls;
    ghost var log := if client == null then [] else client.sent;
    ghost var pol := Policy(boot, bootstrapCount, dryRun, if client == null then [] else client.Pending());
    postedUris, updatedHistory, postCount, attempts, stopped := init, false, 0, [], false;
    ghost var prog := Run(init, [], pol);
    var i := 0;
    while i < |articles|
      invariant 0 <= i <= |articles|
      invariant prog == Run(init, articles[..i], pol)
      invariant prog == Progress(postedUris, updatedHistory, postCount, attempts, false)
      invariant client != null ==> client.calls == first + |attempts|
      invariant client != null ==> SentAfter(log, client.sent, attempts)
    {
      var a := articles[i];
      RunSnoc(init, articles, pol, i);
      postedUris, updatedHistory, postCount, attempts, stopped :=
        VisitCandidate(client, a, boot, dryRun, bootstrapCount, postedUris, updatedHistory, postCount,
                       pol, prog, first, log);
      prog := Step(prog, a, pol);
      if stopped {
        RunStopped(init, articles, pol, i + 1);
        return;
      }
      i := i + 1;
    }
    assert articles[..i] == articles;
  }

  /** The bot state dictionary, as far as the bot reads and writes it. */
  class BotState {
    var news: Option<string>
    var blog: Option<string>
    var pr: Option<string>
    var posted: seq<string>
    var postedPresent: bool
    var bootstrapCompleted: bool

    function Snapshot(): Checkpoint
      reads this
    {
      Checkpoint(news, blog, pr, posted, postedPresent, bootstrapCompleted)
    }

    /** The state `load_state` starts from when no state file exists. */
    constructor ()
      ensures Snapshot() == DefaultCheckpoint
    {
      news, blog, pr := None, None, None;
      posted, postedPresent, bootstrapCompleted := [], true, false;
    }

    /** `sync_updates_after`: copy each truthy checkpoint parameter into its cursor. */
    method SyncUpdatesAfter(params: map<string, string>)
      modifies this
      ensures Snapshot() == SyncCursors(params, old(Snapshot()))
    {
      var table := UpdatesAfterParams;
      var i := 0;
      while i < |table|
        invariant 0 <= i <= |table|
        invariant Snapshot() == SyncWith(params, old(Snapshot()), table[..i])
      {
        var (key, c) := table[i];
        assert table[..i + 1][..i] == table[..i];
        if key in params && params[key] != "" {
          var value := params[key];
          match c
          case NewsCursor => news := Some(value);
          case BlogCursor => blog := Some(value);
          case PrCursor => pr := Some(value);
        }
        i := i + 1;
      }
      assert table[..i] == table;
    }

    /**
     * `post_articles`: raise a configuration error when a real run has no
     * client; otherwise post each new candidate, keep the history, and write
     * the bootstrap flag and the history as `Publish` says.
     */
    method PostArticles(client: Client?, articles: seq<Article>, dryRun: bool, bootstrapCount: int)
      returns (configurationError: bool)
      modifies this, client
      ensures var spec := Publish(old(Snapshot()), articles, client != null, dryRun, bootstrapCount,
                                  if client == null then [] else old(client.Pending()));
        && configurationError == spec.ConfigurationError?
        && (spec.ConfigurationError? ==> Snapshot() == old(Snapshot()))
        && (spec.Posted? ==> Snapshot() == spec.state)
        && (spec.Posted? && client != null ==> SentAfter(old(client.sent), client.sent, spec.progress.attempts))
        && (spec.Posted? && client != null ==> client.calls == old(client.calls) + |spec.progress.attempts|)
    {
      if !dryRun && client == null {
        return true;
      }
      configurationError := false;
      var init := if postedPresent then posted else [];
      var boot := bootstrapCount > 0 && !bootstrapCompleted;
      var postedUris, updatedHistory, postCount, attempts, stopped :=
        PostCandidates(client, articles, init, boot, dryRun, bootstrapCount);
      if boot {
        bootstrapCompleted := true;
        updatedHistory := true;
      }
      if !dryRun && (updatedHistory || !postedPresent) {
        posted := postedUris;
        postedPresent := true;
      }
    }

    /**
     * `fetch_recent_activity`: from the API's answers, copy the checkpoints and
     * return the relevant enriched articles, or report that enrichment raised.
     */
    method FetchRecentActivity(v: Variant, params: map<string, string>, activity: Activity,
                               response: EnrichResponse, query: string)
      returns (raised: bool, relevant: seq<Article>)
      modifies this
      ensures var spec := Polling.FetchRecentActivity(v, old(Snapshot()), params, activity, response, query);
        && Snapshot() == spec.state
        && raised == spec.FetchRaised?
        && (spec.Fetched? ==> relevant == spec.articles)
    {
      raised, relevant := false, [];
      if activity.UpdatesFailed? {
        return;
      }
      var items := if activity.Updates? then activity.items else [];
      SyncUpdatesAfter(params);
      if items == [] {
        return;
      }
      match Enrich(items, response)
      case None =>
        raised := true;
      case Some(enriched) =>
        relevant := KeepRelevant(v, enriched, query);
    }

    /** `run_once`: one fetch, then posting whatever was fetched. */
    method RunOnce(v: Variant, client: Client?, params: map<string, string>, activity: Activity,
                   response: EnrichResponse, query: string, dryRun: bool, bootstrapCount: int)
      returns (configurationError: bool)
      modifies this, client
      ensures var spec := Polling.RunOnce(v, old(Snapshot()), params, activity, response, query,
                                          client != null, dryRun, bootstrapCount,
                                          if client == null then [] else old(client.Pending()));
        && Snapshot() == spec.state
        && configurationError == spec.CycleConfigurationError?
        && (spec.CycleDone? && client != null ==> SentAfter(old(client.sent), client.sent, spec.attempts))
        && (spec.CycleDone? && client != null ==> client.calls == old(client.calls) + |spec.attempts|)
        && (!spec.CycleDone? && client != null ==> client.sent == old(client.sent) && client.calls == old(client.calls))
    {
      configurationError := false;
      var raised, articles := FetchRecentActivity(v, params, activity, response, query);
      if raised {
        return;
      }
      if articles == [] {
        if v == Simple && bootstrapCount > 0 && !bootstrapCompleted {
          bootstrapCompleted := true;
        }
        assert client != null ==> client.sent[|client.sent|..] == [];
        return;
      }
      configurationError := PostArticles(client, articles, dryRun, bootstrapCount);
    }
  }
}
