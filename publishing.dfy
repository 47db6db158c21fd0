/**
 * The publish policy of `post_articles` (bot/main.py:390-452, simplebot/main.py:289-353),
 * as functions on values: one `Step` per candidate, `Run` over the candidate list,
 * and `Publish` for the writes into the bot state after the loop.
 */
module Publishing {
  import opened Articles
  import opened Tweets

  const PostedHistoryLimit: nat := 250

  /**
   * The bot state keys the model reads and writes: the three pagination cursors,
   * the posted-uri history (and whether its key is present at all) and the
   * bootstrap flag.
   */
  datatype Checkpoint = Checkpoint(
    news: Option<string>,
    blog: Option<string>,
    pr: Option<string>,
    posted: seq<string>,
    postedPresent: bool,
    bootstrapCompleted: bool)

  /** The state `load_state` returns when no state file exists. */
  const DefaultCheckpoint: Checkpoint := Checkpoint(None, None, None, [], true, false)

  /** A history that is absent reads as empty. */
  predicate WellFormed(c: Checkpoint) {
    c.postedPresent || c.posted == []
  }

  /** `state.get("postedArticleUris", [])`: the list the loop starts from. */
  function History(c: Checkpoint): seq<string> {
    if c.postedPresent then c.posted else []
  }

  /** How one call treats its candidates: bootstrap cap on or off, the cap, dry run, and the client's answers. */
  datatype Policy = Policy(bootstrap: bool, cap: int, dryRun: bool, outcomes: seq<bool>)

  /** One `create_tweet` call: for which uri and article, and whether it succeeded; the text sent is `FormatTweet(article)`. */
  datatype Attempt = Attempt(uri: string, article: Article, ok: bool)

  /** The loop's working variables: `posted_uris`, `updated_history`, `post_count`, the calls made, and whether it broke. */
  datatype Progress = Progress(posted: seq<string>, updated: bool, count: nat, attempts: seq<Attempt>, stopped: bool)

  /** `s[-n:]` when `s` is longer than `n`, `s` itself otherwise. */
  function KeepLast(s: seq<string>, n: nat): (r: seq<string>)
    ensures |r| == (if |s| > n then n else |s|)
    ensures r == s[|s| - |r|..]
  {
    if |s| > n then s[|s| - n..] else s
  }

  /** The answer to the `k`-th call; calls beyond the given answers fail. */
  function Outcome(outcomes: seq<bool>, k: nat): bool {
    k < |outcomes| && outcomes[k]
  }

  /** One pass of the loop body over candidate `a`. */
  function Step(p: Progress, a: Article, pol: Policy): Progress {
    if p.stopped || !Truthy(a.uri) || a.uri.v in p.posted then p
    else if pol.bootstrap && p.count >= pol.cap then p.(stopped := true)
    else if pol.dryRun then p.(count := p.count + 1)
    else
      var ok := Outcome(pol.outcomes, |p.attempts|);
      var tried := p.(attempts := p.attempts + [Attempt(a.uri.v, a, ok)]);
      if !ok then tried
      else tried.(posted := KeepLast(p.posted + [a.uri.v], PostedHistoryLimit), updated := true, count := p.count + 1)
  }

  /** A candidate without a uri, or with one already in the history, is skipped. */
  lemma StepSkips(p: Progress, a: Article, pol: Policy)
    requires !Truthy(a.uri) || a.uri.v in p.posted
    ensures Step(p, a, pol) == p
  {
  }

  /** A new candidate once the bootstrap cap is reached breaks the loop. */
  lemma StepBreaks(p: Progress, a: Article, pol: Policy)
    requires !p.stopped && Truthy(a.uri) && a.uri.v !in p.posted && pol.bootstrap && p.count >= pol.cap
    ensures Step(p, a, pol) == p.(stopped := true)
  {
  }

  /** A new candidate in a dry run is only counted. */
  lemma StepDryRun(p: Progress, a: Article, pol: Policy)
    requires !p.stopped && Truthy(a.uri) && a.uri.v !in p.posted && !(pol.bootstrap && p.count >= pol.cap)
    requires pol.dryRun
    ensures Step(p, a, pol) == p.(count := p.count + 1)
  {
  }

  /** A new candidate in a real run is sent; only a success enters the history and the count. */
  lemma StepSends(p: Progress, a: Article, pol: Policy)
    requires !p.stopped && Truthy(a.uri) && a.uri.v !in p.posted && !(pol.bootstrap && p.count >= pol.cap)
    requires !pol.dryRun
    ensures var ok := Outcome(pol.outcomes, |p.attempts|);
      var tried := p.(attempts := p.attempts + [Attempt(a.uri.v, a, ok)]);
      Step(p, a, pol) == if ok then tried.(posted := KeepLast(p.posted + [a.uri.v], PostedHistoryLimit),
                                           updated := true, count := p.count + 1)
                         else tried
  {
  }

  /** The loop over all candidates, starting from the history `init`. */
  function Run(init: seq<string>, articles: seq<Article>, pol: Policy): Progress {
    if articles == [] then Progress(init, false, 0, [], false)
    else Step(Run(init, articles[..|articles| - 1], pol), articles[|articles| - 1], pol)
  }

  /** The uris of the successful calls, in order. */
  function Successes(attempts: seq<Attempt>): seq<string> {
    if attempts == [] then []
    else
      var last := attempts[|attempts| - 1];
      Successes(attempts[..|attempts| - 1]) + (if last.ok then [last.uri] else [])
  }

  /** The uris of all calls, in order. */
  function AttemptUris(attempts: seq<Attempt>): seq<string> {
    if attempts == [] then [] else AttemptUris(attempts[..|attempts| - 1]) + [attempts[|attempts| - 1].uri]
  }

  /** The tweet `post_articles` sends for an attempt: `format_tweet` of its article. */
  function TweetOf(x: Attempt): string {
    FormatTweet(x.article)
  }

  /** `ys` is `f` applied to each element of `xs`, in order. */
  predicate Pointwise<X>(ys: seq<string>, xs: seq<X>, f: X -> string) {
    |ys| == |xs| && forall k :: 0 <= k < |xs| ==> ys[k] == f(xs[k])
  }

  /** `texts` are the tweets of the attempts' articles, in order. */
  predicate Tweeted(texts: seq<string>, attempts: seq<Attempt>) {
    Pointwise(texts, attempts, TweetOf)
  }

  lemma {:induction false} PointwiseSnoc<X>(ys: seq<string>, xs: seq<X>, y: string, x: X, f: X -> string)
    requires Pointwise(ys, xs, f) && y == f(x)
    ensures Pointwise(ys + [y], xs + [x], f)
  {
    forall k | 0 <= k < |xs + [x]| ensures (ys + [y])[k] == f((xs + [x])[k]) {
      if k < |xs| {
        assert (ys + [y])[k] == ys[k] && (xs + [x])[k] == xs[k];
      }
    }
  }

  /** One more attempt, with its tweet at the end of the texts. */
  lemma TweetedSnoc(texts: seq<string>, attempts: seq<Attempt>, t: string, x: Attempt)
    requires Tweeted(texts, attempts) && t == FormatTweet(x.article)
    ensures Tweeted(texts + [t], attempts + [x])
  {
    PointwiseSnoc(texts, attempts, t, x, TweetOf);
  }

  /** The truthy uris of the candidates, in order. */
  function CandidateUris(articles: seq<Article>): seq<string> {
    if articles == [] then []
    else
      var last := articles[|articles| - 1];
      CandidateUris(articles[..|articles| - 1]) + (if Truthy(last.uri) then [last.uri.v] else [])
  }

  /** The candidates that have a truthy uri. */
  function WithUri(articles: seq<Article>): seq<Article> {
    if articles == [] then []
    else
      var last := articles[|articles| - 1];
      WithUri(articles[..|articles| - 1]) + (if Truthy(last.uri) then [last] else [])
  }

  predicate NoDuplicates(s: seq<string>) {
    forall i, j :: 0 <= i < j < |s| ==> s[i] != s[j]
  }

  /** `xs` is `ys` with some elements left out. */
  predicate IsSubsequence(xs: seq<string>, ys: seq<string>)
    decreases |ys|
  {
    if xs == [] then true
    else if ys == [] then false
    else if xs[|xs| - 1] == ys[|ys| - 1] then IsSubsequence(xs[..|xs| - 1], ys[..|ys| - 1])
    else IsSubsequence(xs, ys[..|ys| - 1])
  }

  // ----- the history window -----

  /** Trimming after every append is the same as trimming once. */
  lemma KeepLastSnoc(s: seq<string>, u: string, n: nat)
    requires n > 0
    ensures KeepLast(KeepLast(s, n) + [u], n) == KeepLast(s + [u], n)
  {
    if |s| > n {
      assert KeepLast(s, n) + [u] == (s + [u])[|s| - n..];
      assert KeepLast(s, n) + [u] == s[|s| - n..] + [u];
      assert (s[|s| - n..] + [u])[1..] == (s + [u])[|s| + 1 - n..];
    }
  }

  lemma KeepLastNoDuplicates(s: seq<string>, n: nat)
    requires NoDuplicates(s)
    ensures NoDuplicates(KeepLast(s, n))
  {
    var r := KeepLast(s, n);
    forall i, j | 0 <= i < j < |r| ensures r[i] != r[j] {
      assert r[i] == s[|s| - |r| + i] && r[j] == s[|s| - |r| + j];
    }
  }

  lemma KeepLastIn(s: seq<string>, n: nat, x: string)
    requires x in KeepLast(s, n)
    ensures x in s
  {
    var r := KeepLast(s, n);
    var i :| 0 <= i < |r| && r[i] == x;
    assert s[|s| - |r| + i] == x;
  }

  /** The history the loop leaves after it has posted `s`, starting from `init`. */
  function Window(init: seq<string>, s: seq<string>): seq<string> {
    if s == [] then init else KeepLast(init + s, PostedHistoryLimit)
  }

  lemma {:induction false} StepSuccesses(p: Progress, a: Article, pol: Policy)
    ensures var q := Step(p, a, pol);
      Successes(q.attempts) == Successes(p.attempts)
      || (q.posted == KeepLast(p.posted + [a.uri.v], PostedHistoryLimit) && a.uri.Val?
          && Successes(q.attempts) == Successes(p.attempts) + [a.uri.v])
    ensures var q := Step(p, a, pol);
      Successes(q.attempts) == Successes(p.attempts) ==> q.posted == p.posted
  {
    var q := Step(p, a, pol);
    if q.attempts != p.attempts {
      assert q.attempts[..|q.attempts| - 1] == p.attempts;
    }
  }

  lemma {:induction false} StepWindow(init: seq<string>, p: Progress, a: Article, pol: Policy)
    requires p.posted == Window(init, Successes(p.attempts))
    ensures var q := Step(p, a, pol); q.posted == Window(init, Successes(q.attempts))
  {
    StepSuccesses(p, a, pol);
    var q := Step(p, a, pol);
    var s := Successes(p.attempts);
    if Successes(q.attempts) != s {
      var u := a.uri.v;
      assert Successes(q.attempts) == s + [u];
      if s == [] {
        assert init + (s + [u]) == init + [u];
      } else {
        KeepLastSnoc(init + s, u, PostedHistoryLimit);
        assert init + s + [u] == init + (s + [u]);
      }
    }
  }

  /**
   * The history after the loop: the starting list when nothing was posted,
   * otherwise the last 250 of the starting list followed by the successful uris
   * in order.
   */
  lemma {:induction false} RunPostedWindow(init: seq<string>, articles: seq<Article>, pol: Policy)
    ensures var p := Run(init, articles, pol); p.posted == Window(init, Successes(p.attempts))
  {
    if articles != [] {
      var front := articles[..|articles| - 1];
      RunPostedWindow(init, front, pol);
      StepWindow(init, Run(init, front, pol), articles[|articles| - 1], pol);
    }
  }

  /** A history that fits in 250 entries still fits after the loop. */
  lemma RunHistoryBound(init: seq<string>, articles: seq<Article>, pol: Policy)
    requires |init| <= PostedHistoryLimit
    ensures |Run(init, articles, pol).posted| <= PostedHistoryLimit
  {
    RunPostedWindow(init, articles, pol);
  }

  /** The history never holds a uri twice when it did not start with one. */
  lemma {:induction false} RunNoDuplicates(init: seq<string>, articles: seq<Article>, pol: Policy)
    requires NoDuplicates(init)
    ensures NoDuplicates(Run(init, articles, pol).posted)
  {
    if articles != [] {
      var front := articles[..|articles| - 1];
      var p := Run(init, front, pol);
      RunNoDuplicates(init, front, pol);
      var a := articles[|articles| - 1];
      var q := Step(p, a, pol);
      if q.posted != p.posted {
        var s := p.posted + [a.uri.v];
        assert a.uri.v !in p.posted;
        assert NoDuplicates(s) by {
          forall i, j | 0 <= i < j < |s| ensures s[i] != s[j] {
            if j == |s| - 1 {
              assert s[i] == p.posted[i];
            }
          }
        }
        KeepLastNoDuplicates(s, PostedHistoryLimit);
      }
    }
  }

  // ----- order, cap, dry run -----

  lemma {:induction false} SubsequenceSnocRight(xs: seq<string>, ys: seq<string>, y: string)
    requires IsSubsequence(xs, ys)
    ensures IsSubsequence(xs, ys + [y])
    decreases 2 * |ys| + 1
  {
    if xs != [] {
      assert (ys + [y])[..|ys|] == ys;
      if xs[|xs| - 1] == y {
        // Matching the last element against `y` leaves `xs[..|xs|-1]`, a subsequence of `ys`.
        SubsequenceDropLast(xs, ys);
      }
    }
  }

  lemma {:induction false} SubsequenceDropLast(xs: seq<string>, ys: seq<string>)
    requires xs != [] && IsSubsequence(xs, ys)
    ensures IsSubsequence(xs[..|xs| - 1], ys)
    decreases 2 * |ys|
  {
    var front := ys[..|ys| - 1];
    if xs[|xs| - 1] == ys[|ys| - 1] {
      if xs[..|xs| - 1] != [] {
        SubsequenceSnocRight(xs[..|xs| - 1], front, ys[|ys| - 1]);
        assert front + [ys[|ys| - 1]] == ys;
      }
    } else {
      SubsequenceDropLast(xs, front);
      if xs[..|xs| - 1] != [] {
        SubsequenceSnocRight(xs[..|xs| - 1], front, ys[|ys| - 1]);
        assert front + [ys[|ys| - 1]] == ys;
      }
    }
  }

  lemma SubsequenceSnocBoth(xs: seq<string>, ys: seq<string>, y: string)
    requires IsSubsequence(xs, ys)
    ensures IsSubsequence(xs + [y], ys + [y])
  {
    assert (xs + [y])[..|xs|] == xs;
    assert (ys + [y])[..|ys|] == ys;
  }

  /** Each call is for a distinct candidate, and the calls follow the input order. */
  lemma {:induction false} RunOrder(init: seq<string>, articles: seq<Article>, pol: Policy)
    ensures IsSubsequence(AttemptUris(Run(init, articles, pol).attempts), CandidateUris(articles))
  {
    if articles != [] {
      var front := articles[..|articles| - 1];
      var p := Run(init, front, pol);
      RunOrder(init, front, pol);
      var a := articles[|articles| - 1];
      var q := Step(p, a, pol);
      var xs := AttemptUris(p.attempts);
      var ys := CandidateUris(front);
      if Truthy(a.uri) {
        assert CandidateUris(articles) == ys + [a.uri.v];
        if q.attempts != p.attempts {
          assert q.attempts[..|q.attempts| - 1] == p.attempts;
          assert AttemptUris(q.attempts) == xs + [a.uri.v];
          SubsequenceSnocBoth(xs, ys, a.uri.v);
        } else {
          SubsequenceSnocRight(xs, ys, a.uri.v);
        }
      } else {
        assert CandidateUris(articles) == ys;
      }
    }
  }

  /**
   * Each call formats and sends one of the candidates: the article of every
   * attempt is an input article, and it carries the uri the attempt records.
   */
  lemma {:induction false} RunAttemptsAreCandidates(init: seq<string>, articles: seq<Article>, pol: Policy)
    ensures forall k :: 0 <= k < |Run(init, articles, pol).attempts| ==>
      && Run(init, articles, pol).attempts[k].article in articles
      && Run(init, articles, pol).attempts[k].article.uri == Val(Run(init, articles, pol).attempts[k].uri)
  {
    if articles != [] {
      var front := articles[..|articles| - 1];
      var a := articles[|articles| - 1];
      RunAttemptsAreCandidates(init, front, pol);
      var p := Run(init, front, pol);
      var q := Step(p, a, pol);
      assert forall x :: x in front ==> x in articles;
      if q.attempts != p.attempts {
        var x := q.attempts[|q.attempts| - 1];
        assert q.attempts == p.attempts + [x];
        assert x.article == a && a.uri == Val(x.uri);
      }
    }
  }

  /** During a bootstrap run no more than `cap` articles are posted (or counted, in a dry run). */
  lemma {:induction false} RunCap(init: seq<string>, articles: seq<Article>, pol: Policy)
    requires pol.bootstrap && pol.cap >= 0
    ensures Run(init, articles, pol).count <= pol.cap
  {
    if articles != [] {
      RunCap(init, articles[..|articles| - 1], pol);
    }
  }

  /** Without a bootstrap cap the loop never breaks. */
  lemma {:induction false} RunUncapped(init: seq<string>, articles: seq<Article>, pol: Policy)
    requires !pol.bootstrap
    ensures !Run(init, articles, pol).stopped
  {
    if articles != [] {
      RunUncapped(init, articles[..|articles| - 1], pol);
    }
  }

  /** A dry run makes no call and leaves the working history as it was. */
  lemma {:induction false} RunDryRun(init: seq<string>, articles: seq<Article>, pol: Policy)
    requires pol.dryRun
    ensures var p := Run(init, articles, pol);
      p.attempts == [] && p.posted == init && !p.updated
  {
    if articles != [] {
      RunDryRun(init, articles[..|articles| - 1], pol);
    }
  }

  /** Outside a dry run, the count is the number of successful calls. */
  lemma {:induction false} RunCountsSuccesses(init: seq<string>, articles: seq<Article>, pol: Policy)
    requires !pol.dryRun
    ensures Run(init, articles, pol).count == |Successes(Run(init, articles, pol).attempts)|
    ensures Run(init, articles, pol).updated <==> Successes(Run(init, articles, pol).attempts) != []
  {
    if articles != [] {
      var front := articles[..|articles| - 1];
      RunCountsSuccesses(init, front, pol);
      var p := Run(init, front, pol);
      var q := Step(p, articles[|articles| - 1], pol);
      if q.attempts != p.attempts {
        assert q.attempts[..|q.attempts| - 1] == p.attempts;
      }
    }
  }

  /** Candidates without a uri change nothing: dropping them gives the same run. */
  lemma {:induction false} RunSkipsUriless(init: seq<string>, articles: seq<Article>, pol: Policy)
    ensures Run(init, WithUri(articles), pol) == Run(init, articles, pol)
  {
    if articles != [] {
      var front := articles[..|articles| - 1];
      RunSkipsUriless(init, front, pol);
      var a := articles[|articles| - 1];
      if Truthy(a.uri) {
        var w := WithUri(front) + [a];
        assert WithUri(articles) == w;
        assert w[..|w| - 1] == WithUri(front);
      } else {
        assert WithUri(articles) == WithUri(front);
      }
    }
  }

  /** Once the loop has broken, later candidates change nothing. */
  lemma {:induction false} RunStopped(init: seq<string>, articles: seq<Article>, pol: Policy, i: nat)
    requires i <= |articles| && Run(init, articles[..i], pol).stopped
    ensures Run(init, articles, pol) == Run(init, articles[..i], pol)
    decreases |articles| - i
  {
    if i < |articles| {
      var next := articles[..i + 1];
      assert next[..i] == articles[..i];
      assert Run(init, next, pol) == Run(init, articles[..i], pol);
      RunStopped(init, articles, pol, i + 1);
    } else {
      assert articles[..i] == articles;
    }
  }

  /** Processing a list one more candidate at a time. */
  lemma RunSnoc(init: seq<string>, articles: seq<Article>, pol: Policy, i: nat)
    requires i < |articles|
    ensures Run(init, articles[..i + 1], pol) == Step(Run(init, articles[..i], pol), articles[i], pol)
  {
    assert articles[..i + 1][..i] == articles[..i];
  }

  /** Fresh candidates: each has a uri, no two share one, and none is already in the history. */
  predicate Fresh(init: seq<string>, articles: seq<Article>) {
    && (forall k :: 0 <= k < |articles| ==> Truthy(articles[k].uri))
    && (forall k :: 0 <= k < |articles| ==> Str(articles[k].uri) !in init)
    && (forall k, l :: 0 <= k < l < |articles| ==> Str(articles[k].uri) != Str(articles[l].uri))
  }

  /** How many fresh candidates are posted: all of them, or the first `cap` in a bootstrap run. */
  function Quota(n: nat, pol: Policy): nat {
    if pol.bootstrap && pol.cap < n then (if pol.cap < 0 then 0 else pol.cap) else n
  }

  lemma WindowAvoids(init: seq<string>, s: seq<string>, x: string)
    requires x !in init && x !in s
    ensures x !in Window(init, s)
  {
    if s != [] && x in Window(init, s) {
      KeepLastIn(init + s, PostedHistoryLimit, x);
    }
  }

  /** One more fresh candidate, with a successful call, before the loop has broken. */
  lemma {:induction false} StepFresh(init: seq<string>, p: Progress, a: Article, pol: Policy)
    requires !pol.dryRun && !p.stopped && Truthy(a.uri)
    requires a.uri.v !in init && a.uri.v !in Successes(p.attempts)
    requires p.posted == Window(init, Successes(p.attempts))
    requires Outcome(pol.outcomes, |p.attempts|)
    ensures pol.bootstrap && p.count >= pol.cap ==> Step(p, a, pol) == p.(stopped := true)
    ensures !(pol.bootstrap && p.count >= pol.cap) ==>
      var q := Step(p, a, pol);
      && q.count == p.count + 1 && !q.stopped && |q.attempts| == |p.attempts| + 1
      && Successes(q.attempts) == Successes(p.attempts) + [a.uri.v]
  {
    WindowAvoids(init, Successes(p.attempts), a.uri.v);
    var q := Step(p, a, pol);
    if !(pol.bootstrap && p.count >= pol.cap) {
      assert q.attempts[..|q.attempts| - 1] == p.attempts;
    }
  }

  /** Every uri in `CandidateUris(articles)` is the uri of one of the candidates. */
  lemma {:induction false} CandidateUrisFrom(articles: seq<Article>, x: string)
    requires x in CandidateUris(articles)
    ensures exists k :: 0 <= k < |articles| && articles[k].uri == Val(x)
  {
    var n := |articles| - 1;
    if x !in CandidateUris(articles[..n]) {
      assert articles[n].uri == Val(x);
    } else {
      CandidateUrisFrom(articles[..n], x);
      var k :| 0 <= k < n && articles[..n][k].uri == Val(x);
      assert articles[k].uri == Val(x);
    }
  }

  /** After `articles`, every call having succeeded: the quota is posted, in order, and the loop broke iff candidates were left over. */
  predicate PostedQuota(articles: seq<Article>, pol: Policy, p: Progress) {
    var m := Quota(|articles|, pol);
    && p.count == m
    && Successes(p.attempts) == CandidateUris(articles[..m])
    && |p.attempts| == p.count
    && (p.stopped <==> m < |articles|)
  }

  lemma {:induction false} PostedQuotaStopped(front: seq<Article>, a: Article, pol: Policy, p: Progress)
    requires Quota(|front|, pol) < |front| && PostedQuota(front, pol, p)
    ensures PostedQuota(front + [a], pol, Step(p, a, pol))
  {
    var m := Quota(|front|, pol);
    assert (front + [a])[..m] == front[..m];
  }

  lemma {:induction false} PostedQuotaFull(init: seq<string>, front: seq<Article>, a: Article, pol: Policy, p: Progress)
    requires !pol.dryRun && Truthy(a.uri) && a.uri.v !in init && a.uri.v !in CandidateUris(front)
    requires Outcome(pol.outcomes, |front|)
    requires p.posted == Window(init, Successes(p.attempts))
    requires Quota(|front|, pol) == |front| && PostedQuota(front, pol, p)
    requires pol.bootstrap && p.count >= pol.cap
    ensures PostedQuota(front + [a], pol, Step(p, a, pol))
  {
    assert front[..Quota(|front|, pol)] == front;
    StepFresh(init, p, a, pol);
    assert (front + [a])[..|front|] == front;
  }

  lemma {:induction false} PostedQuotaPost(init: seq<string>, front: seq<Article>, a: Article, pol: Policy, p: Progress)
    requires !pol.dryRun && Truthy(a.uri) && a.uri.v !in init && a.uri.v !in CandidateUris(front)
    requires Outcome(pol.outcomes, |front|)
    requires p.posted == Window(init, Successes(p.attempts))
    requires Quota(|front|, pol) == |front| && PostedQuota(front, pol, p)
    requires !(pol.bootstrap && p.count >= pol.cap)
    ensures PostedQuota(front + [a], pol, Step(p, a, pol))
  {
    var articles := front + [a];
    assert front[..Quota(|front|, pol)] == front;
    StepFresh(init, p, a, pol);
    assert articles[..|articles|] == articles;
    assert articles[..|front|] == front;
    assert CandidateUris(articles) == CandidateUris(front) + [a.uri.v];
  }

  /** The loop over one more fresh candidate with a successful call keeps `PostedQuota`. */
  lemma {:induction false} PostedQuotaNext(init: seq<string>, front: seq<Article>, a: Article, pol: Policy)
    requires !pol.dryRun && Truthy(a.uri) && a.uri.v !in init && a.uri.v !in CandidateUris(front)
    requires Outcome(pol.outcomes, |front|)
    requires PostedQuota(front, pol, Run(init, front, pol))
    ensures PostedQuota(front + [a], pol, Run(init, front + [a], pol))
  {
    var p := Run(init, front, pol);
    RunPostedWindow(init, front, pol);
    assert (front + [a])[..|front|] == front;
    assert Run(init, front + [a], pol) == Step(p, a, pol);
    if Quota(|front|, pol) < |front| {
      PostedQuotaStopped(front, a, pol, p);
    } else if pol.bootstrap && p.count >= pol.cap {
      PostedQuotaFull(init, front, a, pol, p);
    } else {
      PostedQuotaPost(init, front, a, pol, p);
    }
  }

  /** A list of fresh candidates splits into fresh candidates and one more, whose uri is new to both. */
  lemma {:induction false} FreshSplit(init: seq<string>, articles: seq<Article>)
    requires articles != [] && Fresh(init, articles)
    ensures var n := |articles| - 1; var a := articles[n];
      && Fresh(init, articles[..n])
      && Truthy(a.uri) && a.uri.v !in init && a.uri.v !in CandidateUris(articles[..n])
      && articles == articles[..n] + [a]
  {
    var n := |articles| - 1;
    var a := articles[n];
    if a.uri.v in CandidateUris(articles[..n]) {
      CandidateUrisFrom(articles[..n], a.uri.v);
    }
  }

  /**
   * When every call succeeds, fresh candidates are posted in order: all of them
   * without the bootstrap cap (bootstrap already completed), the first `cap` with it;
   * the loop breaks exactly when candidates are left over.
   */
  lemma {:induction false} RunAllSucceed(init: seq<string>, articles: seq<Article>, pol: Policy)
    requires !pol.dryRun && Fresh(init, articles)
    requires forall k :: 0 <= k < |articles| ==> Outcome(pol.outcomes, k)
    ensures var p := Run(init, articles, pol);
      && p.count == Quota(|articles|, pol)
      && Successes(p.attempts) == CandidateUris(articles[..Quota(|articles|, pol)])
      && |p.attempts| == p.count
      && (p.stopped <==> Quota(|articles|, pol) < |articles|)
  {
    if articles != [] {
      var n := |articles| - 1;
      FreshSplit(init, articles);
      RunAllSucceed(init, articles[..n], pol);
      PostedQuotaNext(init, articles[..n], articles[n], pol);
    }
  }

  // ----- the writes after the loop -----

  /** What one call of `post_articles` does: raise, or leave a new state behind. */
  datatype Posting = ConfigurationError | Posted(state: Checkpoint, progress: Progress)

  /** The policy `post_articles` runs the loop with: the bootstrap cap applies on a first run with a positive count. */
  function PolicyOf(state: Checkpoint, dryRun: bool, bootstrapCount: int, outcomes: seq<bool>): Policy {
    Policy(bootstrapCount > 0 && !state.bootstrapCompleted, bootstrapCount, dryRun, outcomes)
  }

  /** bot/main.py and simplebot/main.py `post_articles`. */
  function Publish(state: Checkpoint, articles: seq<Article>, hasClient: bool, dryRun: bool,
                   bootstrapCount: int, outcomes: seq<bool>): Posting
  {
    if !dryRun && !hasClient then ConfigurationError
    else
      var pol := PolicyOf(state, dryRun, bootstrapCount, outcomes);
      var boot := pol.bootstrap;
      var p := Run(History(state), articles, pol);
      var flagged := if boot then state.(bootstrapCompleted := true) else state;
      var write := !dryRun && (p.updated || boot || !state.postedPresent);
      Posted(if write then flagged.(posted := p.posted, postedPresent := true) else flagged, p)
  }

  /** Posting without a client outside a dry run raises, and nothing else does. */
  lemma PublishConfigurationError(state: Checkpoint, articles: seq<Article>, hasClient: bool, dryRun: bool,
                                  bootstrapCount: int, outcomes: seq<bool>)
    ensures Publish(state, articles, hasClient, dryRun, bootstrapCount, outcomes).ConfigurationError?
      <==> !dryRun && !hasClient
  {
  }

  /**
   * The bootstrap flag becomes true exactly when a positive bootstrap count is
   * given, and is never cleared; the cursors are never touched.
   */
  lemma PublishFlags(state: Checkpoint, articles: seq<Article>, hasClient: bool, dryRun: bool,
                     bootstrapCount: int, outcomes: seq<bool>)
    requires hasClient || dryRun
    ensures var r := Publish(state, articles, hasClient, dryRun, bootstrapCount, outcomes);
      && r.Posted?
      && r.state.bootstrapCompleted == (state.bootstrapCompleted || bootstrapCount > 0)
      && r.state.news == state.news && r.state.blog == state.blog && r.state.pr == state.pr
  {
  }

  /**
   * The written history: a dry run leaves the history key as it was; otherwise
   * it holds the last 250 of the old history and the successful uris, and is
   * present afterwards.
   */
  lemma PublishHistory(state: Checkpoint, articles: seq<Article>, hasClient: bool, dryRun: bool,
                       bootstrapCount: int, outcomes: seq<bool>)
    requires WellFormed(state) && (hasClient || dryRun)
    ensures var r := Publish(state, articles, hasClient, dryRun, bootstrapCount, outcomes);
      && r.Posted?
      && (dryRun ==> (r.state.posted == state.posted && r.state.postedPresent == state.postedPresent
                      && r.progress.attempts == []))
      && (!dryRun ==> (r.state.postedPresent && r.state.posted ==
            (if Successes(r.progress.attempts) == [] then state.posted
             else KeepLast(state.posted + Successes(r.progress.attempts), PostedHistoryLimit))))
      && WellFormed(r.state)
  {
    var pol := PolicyOf(state, dryRun, bootstrapCount, outcomes);
    RunPostedWindow(History(state), articles, pol);
    if dryRun {
      RunDryRun(History(state), articles, pol);
    } else {
      RunCountsSuccesses(History(state), articles, pol);
    }
  }

  /** A history of at most 250 entries stays within 250, and stays free of duplicates. */
  lemma PublishHistoryBound(state: Checkpoint, articles: seq<Article>, hasClient: bool, dryRun: bool,
                            bootstrapCount: int, outcomes: seq<bool>)
    requires WellFormed(state) && (hasClient || dryRun)
    requires |state.posted| <= PostedHistoryLimit && NoDuplicates(state.posted)
    ensures var r := Publish(state, articles, hasClient, dryRun, bootstrapCount, outcomes);
      r.Posted? && |r.state.posted| <= PostedHistoryLimit && NoDuplicates(r.state.posted)
  {
    var pol := PolicyOf(state, dryRun, bootstrapCount, outcomes);
    RunHistoryBound(History(state), articles, pol);
    RunNoDuplicates(History(state), articles, pol);
  }

  /**
   * A first run with a positive bootstrap count posts at most that many
   * articles; once bootstrap is completed the loop never breaks.
   */
  lemma PublishBootstrapCap(state: Checkpoint, articles: seq<Article>, hasClient: bool, dryRun: bool,
                            bootstrapCount: int, outcomes: seq<bool>)
    requires hasClient || dryRun
    ensures var r := Publish(state, articles, hasClient, dryRun, bootstrapCount, outcomes);
      && r.Posted?
      && (bootstrapCount > 0 && !state.bootstrapCompleted ==> r.progress.count <= bootstrapCount)
      && (state.bootstrapCompleted || bootstrapCount <= 0 ==> !r.progress.stopped)
  {
    var pol := PolicyOf(state, dryRun, bootstrapCount, outcomes);
    if pol.bootstrap {
      RunCap(History(state), articles, pol);
    } else {
      RunUncapped(History(state), articles, pol);
    }
  }

  /**
   * The duplicate-skipping example: with history `["uri-1"]`, candidates
   * `uri-1` and `uri-2` and a client that accepts, one tweet is sent, for `uri-2`.
   */
  lemma PublishSkipsDuplicate(a1: Article, a2: Article)
    requires a1.uri == Val("uri-1") && a2.uri == Val("uri-2")
    ensures var r := Publish(Checkpoint(None, None, None, ["uri-1"], true, false), [a1, a2], true, false, 0, [true]);
      && r.Posted? && AttemptUris(r.progress.attempts) == ["uri-2"]
      && r.state.posted == ["uri-1", "uri-2"]
  {
    var st := Checkpoint(None, None, None, ["uri-1"], true, false);
    var pol := Policy(false, 0, false, [true]);
    assert PolicyOf(st, false, 0, [true]) == pol && History(st) == ["uri-1"];
    assert [a1, a2][..1] == [a1];
    assert [a1][..0] == [];
    var p0 := Run(["uri-1"], [], pol);
    assert p0 == Progress(["uri-1"], false, 0, [], false);
    assert "uri-1" in p0.posted;
    var p1 := Run(["uri-1"], [a1], pol);
    assert p1 == Step(p0, a1, pol);
    assert p1 == p0;
    var p2 := Run(["uri-1"], [a1, a2], pol);
    assert p2.attempts == [Attempt("uri-2", a2, true)];
    assert p2.attempts[..0] == [];
  }
}
