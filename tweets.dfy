/**
 * `format_tweet`, identical in bot/main.py and simplebot/main.py: a title, an
 * em-dash and a whitespace-collapsed summary of at most 160 characters, then the
 * url; when that is longer than 280 characters the text is cut and ends in a
 * single `…` before the url.
 */
module Tweets {
  import opened Text
  import opened Articles

  const MaxTweetLength: nat := 280
  const SummaryLimit: nat := 160
  const DefaultTitle: string := "Untitled article"
  const Ellipsis: char := '…'

  /** `(article.get("title") or "Untitled article").strip()`. */
  function Title(a: Article): (t: string)
    ensures NoEdgeSpace(t)
    ensures !Truthy(a.title) ==> t == DefaultTitle
    ensures Truthy(a.title) && NoEdgeSpace(a.title.v) ==> t == a.title.v
  {
    assert NoEdgeSpace(DefaultTitle) by {
      assert DefaultTitle[0] == 'U' && DefaultTitle[|DefaultTitle| - 1] == 'e';
    }
    StripNoEdgeSpace(OrElse(a.title, DefaultTitle));
    Strip(OrElse(a.title, DefaultTitle))
  }

  /** A given title loses only the whitespace at its edges: it is a piece of the title with only whitespace around it. */
  lemma TitleStripsEdges(a: Article)
    requires Truthy(a.title)
    ensures var s, t := a.title.v, Title(a);
      exists i :: 0 <= i <= |s| && t <= s[i..]
        && (forall j :: 0 <= j < i ==> IsSpace(s[j]))
        && (forall j :: i + |t| <= j < |s| ==> IsSpace(s[j]))
  {
    var s := a.title.v;
    var l := LStrip(s);
    LStripFacts(s);
    RStripFacts(l);
    var i := |s| - |l|;
    var t := Title(a);
    assert t == RStrip(l);
    assert l == s[i..];
    assert t <= s[i..];
    forall j | i + |t| <= j < |s| ensures IsSpace(s[j]) {
      assert s[j] == l[j - i];
    }
  }

  /** The body with whitespace runs collapsed, cut to 160 characters and right-stripped. */
  function Summary(a: Article): (s: string)
    ensures |s| <= SummaryLimit
    ensures IsCollapsed(s) && NoEdgeSpace(s)
    ensures |s| <= |Collapse(OrElse(a.body, ""))| && s == Collapse(OrElse(a.body, ""))[..|s|]
    ensures |Collapse(OrElse(a.body, ""))| <= SummaryLimit ==> s == Collapse(OrElse(a.body, ""))
    ensures |Collapse(OrElse(a.body, ""))| > SummaryLimit ==> |s| >= SummaryLimit - 1
  {
    var c := Collapse(OrElse(a.body, ""));
    CollapseIsCollapsed(OrElse(a.body, ""));
    CollapsedNoEdgeSpace(c);
    if c == [] then []
    else
      CutCollapsed(c, if |c| <= SummaryLimit then |c| else SummaryLimit);
      assert |c| > SummaryLimit ==> |RStrip(Take(c, SummaryLimit))| >= SummaryLimit - 1 by {
        if |c| > SummaryLimit {
          CutKeepsMost(c, SummaryLimit);
        }
      }
      CollapsedNoEdgeSpace(RStrip(Take(c, SummaryLimit)));
      assert |c| <= SummaryLimit ==> Take(c, SummaryLimit) == c;
      RStrip(Take(c, SummaryLimit))
  }

  /** Cutting a collapsed text inside it loses at most one trailing space to `rstrip()`. */
  lemma CutKeepsMost(c: string, n: nat)
    requires IsCollapsed(c) && 1 < n < |c|
    ensures |RStrip(Take(c, n))| >= n - 1
  {
    var p := Take(c, n);
    if IsSpace(p[n - 1]) {
      assert !IsSpace(c[n - 2]);
      TrailingSpacesUnique(p, 1);
    } else {
      TrailingSpacesUnique(p, 0);
    }
  }

  /** `article.get("url") or article.get("permalink") or ""`. */
  function Url(a: Article): (u: string)
    ensures Truthy(a.url) ==> u == a.url.v
    ensures !Truthy(a.url) && Truthy(a.permalink) ==> u == a.permalink.v
    ensures !Truthy(a.url) && !Truthy(a.permalink) ==> u == []
  {
    OrElse(a.url, OrElse(a.permalink, ""))
  }

  lemma CollapsedNoEdgeSpace(s: string)
    requires IsCollapsed(s)
    ensures NoEdgeSpace(s)
  {
    if s != [] {
      assert !IsSpace(s[0]);
      assert !IsSpace(s[|s| - 1]);
    }
  }

  /** The title, followed by `" — "` and the summary when there is one. */
  function BaseText(title: string, summary: string): string {
    if summary == [] then title else title + " — " + summary
  }

  /** The untruncated tweet: `f"{text} {url}".strip()`, or the text alone without a url. */
  function Candidate(text: string, url: string): string {
    if url == [] then text else Strip(text + " " + url)
  }

  /** Replace a trailing `.` by `…`, or append `…`. */
  function Ellipsize(t: string): (r: string)
    ensures r != [] && r[|r| - 1] == Ellipsis
    ensures |r| == if EndsWith(t, ".") then |t| else |t| + 1
    ensures r[..|r| - 1] == t[..|r| - 1]
  {
    if EndsWith(t, ".") then t[..|t| - 1] + [Ellipsis] else t + [Ellipsis]
  }

  /** Exactly one `…` is added, and a trailing `.` is the only character dropped. */
  lemma EllipsizeCounts(t: string)
    ensures CountChar(Ellipsize(t), Ellipsis) == CountChar(t, Ellipsis) + 1
    ensures CountChar(Ellipsize(t), '.') == CountChar(t, '.') - (if EndsWith(t, ".") then 1 else 0)
  {
    var r := Ellipsize(t);
    var kept := r[..|r| - 1];
    assert r == kept + [Ellipsis];
    CountCharConcat(kept, [Ellipsis], Ellipsis);
    CountCharConcat(kept, [Ellipsis], '.');
    CountCharSingle(Ellipsis, Ellipsis);
    CountCharSingle(Ellipsis, '.');
    if EndsWith(t, ".") {
      assert t == kept + ".";
      CountCharConcat(kept, ".", Ellipsis);
      CountCharConcat(kept, ".", '.');
      CountCharSingle('.', Ellipsis);
      CountCharSingle('.', '.');
    } else {
      assert kept == t;
    }
  }

  lemma CountCharSingle(x: char, c: char)
    ensures CountChar([x], c) == if x == c then 1 else 0
  {
    assert [x][..0] == [];
  }

  /** The number of text characters kept on the truncation path: `max(0, available - 1)`. */
  function Room(url: string): nat {
    var available := if url != [] then MaxTweetLength - |url| - 1 else MaxTweetLength;
    if available - 1 < 0 then 0 else available - 1
  }

  /** The truncation path: cut the text, right-strip it, add the ellipsis, then the url. */
  function Shorten(text: string, url: string): string {
    var truncated := Ellipsize(RStrip(Take(text, Room(url))));
    if url != [] then Strip(truncated + " " + url) else truncated
  }

  /** The candidate when it fits in 280 characters, the shortened text otherwise. */
  function Compose(text: string, url: string): string {
    var candidate := Candidate(text, url);
    if |candidate| <= MaxTweetLength then candidate else Shorten(text, url)
  }

  /** bot/main.py and simplebot/main.py `format_tweet`. */
  function FormatTweet(a: Article): string {
    Compose(BaseText(Title(a), Summary(a)), Url(a))
  }

  /** The result is never longer than 280 characters when the url leaves room for the ellipsis. */
  lemma ComposeBound(text: string, url: string)
    requires |url| <= MaxTweetLength - 2
    ensures |Compose(text, url)| <= MaxTweetLength
  {
    if |Candidate(text, url)| > MaxTweetLength {
      var cut := RStrip(Take(text, Room(url)));
      var e := Ellipsize(cut);
      assert |e| <= Room(url) + 1;
      if url != [] {
        StripShrinks(e + " " + url);
      }
    }
  }

  lemma FormatTweetBound(a: Article)
    requires |Url(a)| <= MaxTweetLength - 2
    ensures |FormatTweet(a)| <= MaxTweetLength
  {
    ComposeBound(BaseText(Title(a), Summary(a)), Url(a));
  }

  /** Joining a visible text and a visible url with one space survives `strip()` untouched. */
  lemma CandidateJoins(text: string, url: string)
    requires text != [] && NoEdgeSpace(text) && url != [] && NoEdgeSpace(url)
    ensures Candidate(text, url) == text + " " + url
  {
    StripJoined(text, url);
    StripNoEdgeSpace(url);
    assert LStrip(text) == text;
    assert RStrip(url) == url;
  }

  lemma ComposeFits(text: string, url: string)
    requires text != [] && NoEdgeSpace(text) && url != [] && NoEdgeSpace(url)
    requires |text| + 1 + |url| <= MaxTweetLength
    ensures Compose(text, url) == text + " " + url
  {
    assert Candidate(text, url) == text + " " + url by {
      CandidateJoins(text, url);
    }
    ComposeCandidate(text, url);
  }

  /** Both halves of `x + " " + y` occur in it. */
  lemma JoinedContainsBoth(x: string, y: string)
    ensures Contains(x + " " + y, x) && Contains(x + " " + y, y)
  {
    var r := x + " " + y;
    assert OccursAt(r, x, 0);
    ContainsAt(r, x, 0);
    assert OccursAt(r, y, |x| + 1);
    ContainsAt(r, y, |x| + 1);
  }

  /** A non-empty title makes the base text visible at both edges. */
  lemma BaseTextNoEdgeSpace(title: string, summary: string)
    requires title != [] && NoEdgeSpace(title) && NoEdgeSpace(summary)
    ensures BaseText(title, summary) != [] && NoEdgeSpace(BaseText(title, summary))
    ensures Contains(BaseText(title, summary), title)
  {
    var text := BaseText(title, summary);
    assert text[..|title|] == title && OccursAt(text, title, 0);
    ContainsAt(text, title, 0);
    assert text[0] == title[0];
    if summary != [] {
      assert text[|text| - 1] == summary[|summary| - 1];
    }
  }

  /**
   * When `"{text} {url}"` fits it is the tweet, verbatim: title, em-dash and
   * summary, a space, the url.
   */
  lemma FormatTweetVerbatim(a: Article)
    requires Title(a) != [] && Url(a) != [] && NoEdgeSpace(Url(a))
    requires |BaseText(Title(a), Summary(a))| + 1 + |Url(a)| <= MaxTweetLength
    ensures FormatTweet(a) == BaseText(Title(a), Summary(a)) + " " + Url(a)
    ensures Contains(FormatTweet(a), Title(a)) && Contains(FormatTweet(a), Url(a))
  {
    var text := BaseText(Title(a), Summary(a));
    BaseTextNoEdgeSpace(Title(a), Summary(a));
    ComposeFits(text, Url(a));
    JoinedContainsBoth(text, Url(a));
    ContainsTransitive(text + " " + Url(a), text, Title(a));
  }

  /** Without a url, a text that fits is the tweet. */
  lemma FormatTweetNoUrl(a: Article)
    requires Url(a) == [] && |BaseText(Title(a), Summary(a))| <= MaxTweetLength
    ensures FormatTweet(a) == BaseText(Title(a), Summary(a))
  {
  }

  lemma ComposeCandidate(text: string, url: string)
    requires |Candidate(text, url)| <= MaxTweetLength
    ensures Compose(text, url) == Candidate(text, url)
  {
  }

  lemma ComposeShortens(text: string, url: string)
    requires |Candidate(text, url)| > MaxTweetLength
    ensures Compose(text, url) == Shorten(text, url)
  {
  }

  /** With a visible url, the shortened tweet is the left-stripped cut text, a space and the url. */
  lemma ShortenWithUrl(text: string, url: string)
    requires url != [] && NoEdgeSpace(url)
    ensures Shorten(text, url) == LStrip(Ellipsize(RStrip(Take(text, Room(url))))) + " " + url
  {
    var e := Ellipsize(RStrip(Take(text, Room(url))));
    assert RStrip(url) == url;
    StripJoined(e, url);
  }

  /** The cut text, ellipsized and left-stripped, is a piece of the text followed by one `…`. */
  lemma EllipsizedPiece(text: string, n: nat)
    ensures var l := LStrip(Ellipsize(RStrip(Take(text, n))));
      l != [] && l[|l| - 1] == Ellipsis && Contains(text, l[..|l| - 1])
  {
    var cut := RStrip(Take(text, n));
    assert Contains(text, cut) by {
      assert cut == text[..|cut|];
      PrefixContained(text, cut);
    }
    var e := Ellipsize(cut);
    assert Contains(cut, e[..|e| - 1]) by {
      PrefixContained(cut, e[..|e| - 1]);
    }
    LStripDropLast(e);
    var l := LStrip(e);
    ContainsTransitive(cut, e[..|e| - 1], l[..|l| - 1]);
    ContainsTransitive(text, cut, l[..|l| - 1]);
  }

  /**
   * The shape of a shortened tweet with a url: a piece of the text, one added
   * `…`, a space and the url.
   */
  predicate TruncatedWithUrl(r: string, text: string, url: string) {
    && |r| >= |url| + 2
    && EndsWith(r, " " + url)
    && r[|r| - |url| - 2] == Ellipsis
    && Contains(text, r[..|r| - |url| - 2])
    && CountChar(r, Ellipsis) == CountChar(r[..|r| - |url| - 2], Ellipsis) + 1 + CountChar(url, Ellipsis)
  }

  /** On the truncation path with a visible url, the tweet has the shortened shape. */
  lemma ComposeTruncatedWithUrl(text: string, url: string)
    requires url != [] && NoEdgeSpace(url)
    requires |Candidate(text, url)| > MaxTweetLength
    ensures TruncatedWithUrl(Compose(text, url), text, url)
  {
    ComposeShortens(text, url);
    ShortenWithUrl(text, url);
    EllipsizedPiece(text, Room(url));
    PieceEllipsisUrl(LStrip(Ellipsize(RStrip(Take(text, Room(url))))), text, url);
  }

  /** A visible piece of the text ending in `…`, then a space and the url, has the shortened shape. */
  lemma PieceEllipsisUrl(l: string, text: string, url: string)
    requires l != [] && l[|l| - 1] == Ellipsis && Contains(text, l[..|l| - 1])
    ensures TruncatedWithUrl(l + " " + url, text, url)
  {
    var body := l[..|l| - 1];
    var r := l + " " + url;
    assert l == body + [Ellipsis];
    assert r == (body + [Ellipsis]) + (" " + url);
    assert r[..|r| - |url| - 2] == body;
    CountCharConcat(body + [Ellipsis], " " + url, Ellipsis);
    CountCharConcat(body, [Ellipsis], Ellipsis);
    CountCharConcat(" ", url, Ellipsis);
    CountCharSingle(Ellipsis, Ellipsis);
    CountCharSingle(' ', Ellipsis);
  }

  /** Without a url, the truncation path keeps a prefix of the text, adds a single `…` and fits. */
  lemma ComposeTruncatedNoUrl(text: string)
    requires |text| > MaxTweetLength
    ensures var r := Compose(text, []);
      && r != [] && r[|r| - 1] == Ellipsis
      && |r| <= MaxTweetLength
      && r[..|r| - 1] == text[..|r| - 1]
      && CountChar(r, Ellipsis) == CountChar(r[..|r| - 1], Ellipsis) + 1
  {
    ComposeShortens(text, []);
    var cut := RStrip(Take(text, Room([])));
    assert cut == text[..|cut|];
    var r := Ellipsize(cut);
    assert r == r[..|r| - 1] + [Ellipsis];
    CountCharConcat(r[..|r| - 1], [Ellipsis], Ellipsis);
    CountCharSingle(Ellipsis, Ellipsis);
  }

  /** A url that does not fit stays whole: the tweet is `"… " + url`, over 280 characters. */
  lemma LongUrlOverflows(text: string, url: string)
    requires |url| > MaxTweetLength && NoEdgeSpace(url)
    ensures Compose(text, url) == [Ellipsis] + " " + url
    ensures |Compose(text, url)| > MaxTweetLength
  {
    assert |Candidate(text, url)| > MaxTweetLength by {
      CandidateKeepsUrl(text, url);
    }
    ComposeShortens(text, url);
    ShortenWithUrl(text, url);
    assert Room(url) == 0;
    assert RStrip(Take(text, 0)) == [];
    assert Ellipsize([]) == [Ellipsis];
  }

  /**
   * A url of more than 278 characters leaves no room for text: a candidate
   * that does not fit becomes `… url`, over the limit.
   */
  lemma OverflowingCandidate(text: string, url: string)
    requires |url| > MaxTweetLength - 2 && NoEdgeSpace(url) && |Candidate(text, url)| > MaxTweetLength
    ensures Compose(text, url) == [Ellipsis] + " " + url
    ensures |Compose(text, url)| > MaxTweetLength
  {
    ComposeShortens(text, url);
    ShortenWithUrl(text, url);
    assert Room(url) == 0;
    assert RStrip(Take(text, 0)) == [];
    assert Ellipsize([]) == [Ellipsis];
  }

  /** Stripping `text + " " + url` never cuts into a visible url. */
  lemma CandidateKeepsUrl(text: string, url: string)
    requires url != [] && NoEdgeSpace(url)
    ensures |Candidate(text, url)| >= |url|
  {
    var s := text + " " + url;
    assert s[|text| + 1] == url[0];
    var l := LStrip(s);
    assert |l| >= |url|;
    assert l[|l| - 1] == url[|url| - 1];
    TrailingSpacesUnique(l, 0);
  }
}
