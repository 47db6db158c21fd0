/**
 * Relevance matching. Two near-identical copies exist: `IsBitcoinMiningArticle`
 * (bot/main.py) tests the query against each field on its own, `IsRelevantArticle`
 * (simplebot/filters.py) against the joined text. Both then apply the same
 * two-signal rule: a Bitcoin term and a mining term anywhere in the joined text.
 */
module Filters {
  import opened Text
  import opened Articles

  const BitcoinTerms: seq<string> := ["bitcoin", "btc"]

  const MiningTerms: seq<string> := [
    "mining", "miner", "miners", "hashrate", "hash rate", "hashpower", "hash power",
    "difficulty", "asic", "asics", "rig", "rigs", "exahash", "terahash",
    "proof-of-work", "proof of work"]

  /** The searchable texts of an article: title, body, then the English concept labels. */
  function Parts(a: Article): (ps: seq<string>)
    ensures |ps| >= 2 && ps[0] == Str(a.title) && ps[1] == Str(a.body)
  {
    [Str(a.title), Str(a.body)] + Labels(ConceptList(a))
  }

  /** `" ".join(parts).lower()`. */
  function Corpus(a: Article): string {
    Lower(JoinWith(" ", Parts(a)))
  }

  /** The relaxed rule: a subject term and an activity term, each anywhere in `text`. */
  predicate TwoSignals(text: string) {
    AnyOccurs(text, BitcoinTerms) && AnyOccurs(text, MiningTerms)
  }

  /** Some part, lower-cased on its own, contains `q`. */
  predicate SomePartContains(parts: seq<string>, q: string) {
    parts != [] && (Contains(Lower(parts[0]), q) || SomePartContains(parts[1..], q))
  }

  /** bot/main.py `is_bitcoin_mining_article`. */
  predicate IsBitcoinMiningArticle(a: Article, query: string) {
    SomePartContains(Parts(a), Lower(query)) || TwoSignals(Corpus(a))
  }

  /** simplebot/filters.py `is_relevant_article`. */
  predicate IsRelevantArticle(a: Article, query: string) {
    Contains(Corpus(a), Lower(query)) || TwoSignals(Corpus(a))
  }

  lemma {:induction false} SomePartContainsIff(parts: seq<string>, q: string)
    ensures SomePartContains(parts, q) <==> exists k :: 0 <= k < |parts| && Contains(Lower(parts[k]), q)
  {
    if parts != [] {
      SomePartContainsIff(parts[1..], q);
      if SomePartContains(parts[1..], q) {
        var k :| 0 <= k < |parts| - 1 && Contains(Lower(parts[1..][k]), q);
        assert Contains(Lower(parts[k + 1]), q);
      }
      if exists k :: 0 <= k < |parts| && Contains(Lower(parts[k]), q) {
        var k :| 0 <= k < |parts| && Contains(Lower(parts[k]), q);
        if k > 0 {
          assert parts[1..][k - 1] == parts[k];
        }
      }
    }
  }

  /**
   * The bot matcher, stated without its early-return scan: the lower-cased query
   * occurs in the title, the body or one English label taken on its own, or the
   * joined text holds a term of each list.
   */
  lemma BotMatcherRule(a: Article, query: string)
    ensures IsBitcoinMiningArticle(a, query) <==>
      || (exists k :: 0 <= k < |Parts(a)| && Contains(Lower(Parts(a)[k]), Lower(query)))
      || ((exists t :: 0 <= t < |BitcoinTerms| && Contains(Corpus(a), BitcoinTerms[t]))
          && (exists m :: 0 <= m < |MiningTerms| && Contains(Corpus(a), MiningTerms[m])))
  {
    SomePartContainsIff(Parts(a), Lower(query));
    AnyOccursIff(Corpus(a), BitcoinTerms);
    AnyOccursIff(Corpus(a), MiningTerms);
  }

  /** The simplebot matcher, stated with the term sets as existentials. */
  lemma RelevantArticleRule(a: Article, query: string)
    ensures IsRelevantArticle(a, query) <==>
      || Contains(Corpus(a), Lower(query))
      || ((exists t :: 0 <= t < |BitcoinTerms| && Contains(Corpus(a), BitcoinTerms[t]))
          && (exists m :: 0 <= m < |MiningTerms| && Contains(Corpus(a), MiningTerms[m])))
  {
    AnyOccursIff(Corpus(a), BitcoinTerms);
    AnyOccursIff(Corpus(a), MiningTerms);
  }

  /** Both signals make an article relevant whatever the query is, in both copies. */
  lemma TwoSignalsIgnoreQuery(a: Article, query: string)
    requires TwoSignals(Corpus(a))
    ensures IsRelevantArticle(a, query) && IsBitcoinMiningArticle(a, query)
  {
  }

  /** Without a query occurrence, a subject term alone or an activity term alone is rejected. */
  lemma OneSignalRejected(a: Article, query: string)
    requires !AnyOccurs(Corpus(a), BitcoinTerms) || !AnyOccurs(Corpus(a), MiningTerms)
    ensures !Contains(Corpus(a), Lower(query)) ==> !IsRelevantArticle(a, query)
    ensures !SomePartContains(Parts(a), Lower(query)) ==> !IsBitcoinMiningArticle(a, query)
  {
  }

  /** Every part of an article, lower-cased, occurs in its corpus. */
  lemma PartInCorpus(a: Article, k: nat)
    requires k < |Parts(a)|
    ensures Contains(Corpus(a), Lower(Parts(a)[k]))
  {
    LowerJoinWith(" ", Parts(a));
    JoinWithContainsPart(" ", LowerAll(Parts(a)), k);
  }

  /** Whatever the bot copy accepts, the simplebot copy accepts. */
  lemma BotMatchImpliesRelevant(a: Article, query: string)
    ensures IsBitcoinMiningArticle(a, query) ==> IsRelevantArticle(a, query)
  {
    if SomePartContains(Parts(a), Lower(query)) {
      SomePartContainsIff(Parts(a), Lower(query));
      var k :| 0 <= k < |Parts(a)| && Contains(Lower(Parts(a)[k]), Lower(query));
      PartInCorpus(a, k);
      ContainsTransitive(Corpus(a), Lower(Parts(a)[k]), Lower(query));
    }
  }

  /**
   * The converse fails: a query that spans the title/body boundary matches the
   * joined text of simplebot but no single field of the bot.
   */
  lemma BoundarySpanningQuery()
    ensures var a := Article(Absent, Val("x"), Val("y"), Absent, Absent, Absent);
      IsRelevantArticle(a, "x y") && !IsBitcoinMiningArticle(a, "x y")
  {
    var a := Article(Absent, Val("x"), Val("y"), Absent, Absent, Absent);
    assert Parts(a) == ["x", "y"];
    assert Corpus(a) == "x y";
    assert Lower("x y") == "x y";
    assert !Contains("x y", "btc") by {
      assert "x y"[..3][0] == 'x';
      assert !Contains("x y"[1..], "btc");
    }
    assert !AnyOccurs("x y", BitcoinTerms) by {
      AnyOccursIff("x y", BitcoinTerms);
    }
  }

  /** The same article with its title and body upper-cased (ASCII letters). */
  function Shouted(a: Article, title: string, body: string): Article {
    a.(title := Val(Upper(title)), body := Val(Upper(body)))
  }

  /** Matching ignores ASCII case: upper-casing title and body changes neither copy's verdict. */
  lemma CaseInsensitive(a: Article, title: string, body: string, query: string)
    ensures var plain := a.(title := Val(title), body := Val(body));
      && IsRelevantArticle(Shouted(a, title, body), query) == IsRelevantArticle(plain, query)
      && IsBitcoinMiningArticle(Shouted(a, title, body), query) == IsBitcoinMiningArticle(plain, query)
  {
    var plain := a.(title := Val(title), body := Val(body));
    var loud := Shouted(a, title, body);
    var ps, pl := Parts(plain), Parts(loud);
    LowerOfUpper(title);
    LowerOfUpper(body);
    assert LowerAll(ps) == LowerAll(pl) by {
      assert forall k :: 2 <= k < |ps| ==> ps[k] == pl[k];
    }
    LowerJoinWith(" ", ps);
    LowerJoinWith(" ", pl);
    SomePartContainsIff(ps, Lower(query));
    SomePartContainsIff(pl, Lower(query));
    assert forall k :: 0 <= k < |ps| ==> Lower(ps[k]) == Lower(pl[k]) by {
      assert forall k :: 0 <= k < |ps| ==> LowerAll(ps)[k] == LowerAll(pl)[k];
    }
  }

  /** The concepts that carry a truthy English label. */
  function Labelled(cs: seq<Concept>): (r: seq<Concept>)
    ensures |r| <= |cs|
  {
    if cs == [] then []
    else (if Truthy(EnglishLabel(cs[0])) then [cs[0]] else []) + Labelled(cs[1..])
  }

  lemma {:induction false} LabelledSameLabels(cs: seq<Concept>)
    ensures Labels(Labelled(cs)) == Labels(cs)
  {
    if cs != [] {
      LabelledSameLabels(cs[1..]);
      var head := if Truthy(EnglishLabel(cs[0])) then [cs[0]] else [];
      LabelsConcat(head, Labelled(cs[1..]));
    }
  }

  /** Concepts that are not objects or have no English label are skipped: dropping them changes nothing. */
  lemma UnlabelledConceptsIgnored(a: Article, query: string)
    ensures var b := a.(concepts := Val(Labelled(ConceptList(a))));
      && IsRelevantArticle(b, query) == IsRelevantArticle(a, query)
      && IsBitcoinMiningArticle(b, query) == IsBitcoinMiningArticle(a, query)
  {
    var b := a.(concepts := Val(Labelled(ConceptList(a))));
    LabelledSameLabels(ConceptList(a));
    assert Parts(b) == Parts(a);
  }

  /** Joining one more part after the others keeps the old lower-cased text as a prefix. */
  lemma JoinExtends(ps: seq<string>, extra: seq<string>)
    requires ps != [] && |extra| <= 1
    ensures Contains(Lower(JoinWith(" ", ps + extra)), Lower(JoinWith(" ", ps)))
  {
    var low := Lower(JoinWith(" ", ps));
    if extra == [] {
      assert ps + extra == ps;
      assert low[0..|low|] == low;
      ContainsAt(low, low, 0);
    } else {
      var x := extra[0];
      assert ps + extra == ps + [x];
      JoinWithSnoc(" ", ps, x);
      assert JoinWith(" ", ps + extra) == JoinWith(" ", ps) + (" " + x);
      LowerConcat(JoinWith(" ", ps), " " + x);
      var big := low + Lower(" " + x);
      assert big[0..|low|] == low;
      ContainsAt(big, low, 0);
    }
  }

  /** Adding a concept keeps every part and puts the old joined text at the start of the new one. */
  lemma AddedConceptExtends(a: Article, c: Concept)
    ensures var b := a.(concepts := Val(ConceptList(a) + [c]));
      && |Parts(a)| <= |Parts(b)| && (forall k :: 0 <= k < |Parts(a)| ==> Parts(b)[k] == Parts(a)[k])
      && Contains(Corpus(b), Corpus(a))
  {
    var b := a.(concepts := Val(ConceptList(a) + [c]));
    LabelsConcat(ConceptList(a), [c]);
    assert Labels([c]) == (if Truthy(EnglishLabel(c)) then [EnglishLabel(c).v] else []) by {
      assert [c][1..] == [];
    }
    assert Parts(b) == Parts(a) + Labels([c]);
    JoinExtends(Parts(a), Labels([c]));
  }

  /** Adding a concept can only add text at the end of the corpus, so a match is never lost. */
  lemma AddedConceptKeepsMatch(a: Article, c: Concept, query: string)
    ensures var b := a.(concepts := Val(ConceptList(a) + [c]));
      && (IsRelevantArticle(a, query) ==> IsRelevantArticle(b, query))
      && (IsBitcoinMiningArticle(a, query) ==> IsBitcoinMiningArticle(b, query))
  {
    var b := a.(concepts := Val(ConceptList(a) + [c]));
    AddedConceptExtends(a, c);
    if Contains(Corpus(a), Lower(query)) {
      ContainsTransitive(Corpus(b), Corpus(a), Lower(query));
    }
    AnyOccursGrows(Corpus(a), Corpus(b), BitcoinTerms);
    AnyOccursGrows(Corpus(a), Corpus(b), MiningTerms);
    SomePartContainsIff(Parts(a), Lower(query));
    SomePartContainsIff(Parts(b), Lower(query));
  }

  /** A title with "BTC" and "hashrate" but not the phrase "bitcoin mining" passes on the relaxed rule. */
  lemma RelaxedRuleExample()
    ensures var a := Article(Absent, Val("BTC hashrate up"), Val(""), Absent, Absent, Absent);
      IsRelevantArticle(a, "bitcoin mining") && IsBitcoinMiningArticle(a, "bitcoin mining")
  {
    var a := Article(Absent, Val("BTC hashrate up"), Val(""), Absent, Absent, Absent);
    var t := "BTC hashrate up";
    assert Parts(a) == [t, ""];
    assert JoinWith(" ", [t, ""]) == t + " ";
    var l := Lower(t + " ");
    assert Corpus(a) == l;
    assert l[0..3] == "btc";
    assert l[4..12] == "hashrate";
    assert OccursAt(l, "btc", 0);
    assert OccursAt(l, "hashrate", 4);
    ContainsAt(l, "btc", 0);
    ContainsAt(l, "hashrate", 4);
    AnyOccursIff(l, BitcoinTerms);
    AnyOccursIff(l, MiningTerms);
    assert MiningTerms[3] == "hashrate";
  }
}
