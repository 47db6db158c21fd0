/**
 * The merge step of `enrich_articles` (bot/main.py:229-273, simplebot/main.py:171-213):
 * detailed records returned by the article query are laid over the activity items
 * with the same uri. The query itself is not modelled; its response is a parameter.
 */
module Enrichment {
  import opened Articles

  /** One entry of `response["articles"]["results"]`: a record, or something that is not a dict. */
  datatype ResultItem = NonDictResult | DictResult(article: Article)

  /**
   * What `er.execQuery(query)` gave back, as far as the merge reads it. A
   * response without an `articles` key, or whose `articles` has no `results`,
   * reads as `Results([])`.
   */
  datatype EnrichResponse =
    | QueryFailed            // `execQuery` raised; the error is logged
    | NonDictPayload         // the payload is not a dict
    | ArticlesNotDict        // `articles` is present but not a dict, so `.get` raises
    | ResultsNotList         // `results` is present but not a list
    | Results(items: seq<ResultItem>)

  /** `item` is a dict whose truthy uri is `k`, so it is stored under `k`. */
  predicate Keyed(item: ResultItem, k: string) {
    item.DictResult? && Truthy(item.article.uri) && item.article.uri.v == k
  }

  /** The `detailed_by_uri` comprehension: a later result with the same uri replaces an earlier one. */
  function DetailedByUri(items: seq<ResultItem>): map<string, Article> {
    if items == [] then map[]
    else
      var m := DetailedByUri(items[..|items| - 1]);
      var last := items[|items| - 1];
      if last.DictResult? && Truthy(last.article.uri) then m[last.article.uri.v := last.article] else m
  }

  /**
   * A uri is a key exactly when some result carries it, and its record is the
   * last result carrying it.
   */
  lemma {:induction false} DetailedByUriSpec(items: seq<ResultItem>, k: string)
    ensures k in DetailedByUri(items) <==> exists i :: 0 <= i < |items| && Keyed(items[i], k)
    ensures k in DetailedByUri(items) ==>
      exists i :: 0 <= i < |items| && Keyed(items[i], k) && DetailedByUri(items)[k] == items[i].article
        && forall j :: i < j < |items| ==> !Keyed(items[j], k)
  {
    if items != [] {
      var front := items[..|items| - 1];
      DetailedByUriSpec(front, k);
      var n := |items| - 1;
      if Keyed(items[n], k) {
        assert DetailedByUri(items)[k] == items[n].article;
      } else {
        assert (k in DetailedByUri(items)) == (k in DetailedByUri(front));
        assert k in DetailedByUri(items) ==> DetailedByUri(items)[k] == DetailedByUri(front)[k];
        assert forall i :: 0 <= i < n ==> items[i] == front[i];
      }
    }
  }

  /** Every stored record carries the uri it is stored under. */
  lemma DetailedKeepsUri(items: seq<ResultItem>, k: string)
    requires k in DetailedByUri(items)
    ensures DetailedByUri(items)[k].uri == Val(k)
  {
    DetailedByUriSpec(items, k);
  }

  /** `{**item, **detailed}`: every key the detailed record has overrides the item's. */
  function Overlay(item: Article, detailed: Article): Article {
    Article(
      if detailed.uri.Absent? then item.uri else detailed.uri,
      if detailed.title.Absent? then item.title else detailed.title,
      if detailed.body.Absent? then item.body else detailed.body,
      if detailed.url.Absent? then item.url else detailed.url,
      if detailed.permalink.Absent? then item.permalink else detailed.permalink,
      if detailed.concepts.Absent? then item.concepts else detailed.concepts)
  }

  /** The record the loop finds for `item`: `detailed_by_uri.get(str(uri)) if uri is not None`. */
  function Lookup(item: Article, byUri: map<string, Article>): Option<Article> {
    if item.uri.Val? && item.uri.v in byUri then Some(byUri[item.uri.v]) else None
  }

  /** The `enriched` list: each item, overlaid with its detailed record when there is one. */
  function Merge(activity: seq<Article>, byUri: map<string, Article>): (r: seq<Article>)
    ensures |r| == |activity|
  {
    seq(|activity|, i requires 0 <= i < |activity| =>
      match Lookup(activity[i], byUri)
      case Some(d) => Overlay(activity[i], d)
      case None => activity[i])
  }

  /** Some item has a truthy uri, so the query is made. */
  predicate HasUris(activity: seq<Article>) {
    exists i :: 0 <= i < |activity| && Truthy(activity[i].uri)
  }

  /**
   * bot/main.py and simplebot/main.py `enrich_articles`, after the query:
   * `None` when it raises (a non-dict `articles`), the merged list otherwise.
   */
  function Enrich(activity: seq<Article>, response: EnrichResponse): Option<seq<Article>> {
    if !HasUris(activity) then Some(activity)
    else
      match response
      case QueryFailed => Some(activity)
      case NonDictPayload => Some(activity)
      case ArticlesNotDict => None
      case ResultsNotList => Some(activity)
      case Results(items) => Some(Merge(activity, DetailedByUri(items)))
  }

  /** Enrichment raises only on a non-dict `articles` value, and only when a query was made. */
  lemma EnrichRaises(activity: seq<Article>, response: EnrichResponse)
    ensures Enrich(activity, response).None? <==> HasUris(activity) && response.ArticlesNotDict?
  {
  }

  /** The input list comes back unchanged when no item has a uri, the query fails or the payload is malformed. */
  lemma EnrichFallsBack(activity: seq<Article>, response: EnrichResponse)
    requires !HasUris(activity) || response.QueryFailed? || response.NonDictPayload? || response.ResultsNotList?
    ensures Enrich(activity, response) == Some(activity)
  {
  }

  /**
   * The merged list has the input's length and order: position `i` holds the
   * `i`-th item, overlaid by the last result with its uri when there is one and
   * copied otherwise; its uri never changes.
   */
  lemma EnrichPointwise(activity: seq<Article>, items: seq<ResultItem>, i: nat)
    requires HasUris(activity) && i < |activity|
    ensures var r := Enrich(activity, Results(items));
      && r.Some? && |r.value| == |activity|
      && r.value[i].uri == activity[i].uri
      && (activity[i].uri.Val? && (exists j :: 0 <= j < |items| && Keyed(items[j], activity[i].uri.v)) ==>
            exists j :: 0 <= j < |items| && Keyed(items[j], activity[i].uri.v)
              && r.value[i] == Overlay(activity[i], items[j].article)
              && forall j' :: j < j' < |items| ==> !Keyed(items[j'], activity[i].uri.v))
      && (!activity[i].uri.Val? || !(exists j :: 0 <= j < |items| && Keyed(items[j], activity[i].uri.v)) ==>
            r.value[i] == activity[i])
  {
    var item := activity[i];
    if item.uri.Val? {
      DetailedByUriSpec(items, item.uri.v);
      if item.uri.v in DetailedByUri(items) {
        DetailedKeepsUri(items, item.uri.v);
      }
    }
  }

  /**
   * The merge example: the activity item `{"uri": "uri-1", "title": "Original"}`
   * and the result `{"uri": "uri-1", "title": "Detailed", "body": "Fresh context"}`.
   */
  lemma MergeExample()
    ensures var item := Article(Val("uri-1"), Val("Original"), Absent, Absent, Absent, Absent);
      var detailed := Article(Val("uri-1"), Val("Detailed"), Val("Fresh context"), Absent, Absent, Absent);
      var r := Enrich([item], Results([DictResult(detailed)]));
      r.Some? && |r.value| == 1 && r.value[0].title == Val("Detailed") && r.value[0].body == Val("Fresh context")
  {
    var item := Article(Val("uri-1"), Val("Original"), Absent, Absent, Absent, Absent);
    var detailed := Article(Val("uri-1"), Val("Detailed"), Val("Fresh context"), Absent, Absent, Absent);
    assert HasUris([item]) by {
      assert Truthy([item][0].uri);
    }
    var items := [DictResult(detailed)];
    assert DetailedByUri(items) == DetailedByUri([])["uri-1" := detailed] by {
      assert items[..0] == [];
    }
  }
}
