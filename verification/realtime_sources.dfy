/**
 * The real-time news source: headlines from a news API turned into out-of-network
 * candidates authored by a synthetic `news_api` user. The HTTP request, the environment
 * and the ISO-8601 parser are inputs: `response` is the decoded article list (None when
 * the request or the import fails) and `parseTimestamp` is `datetime.fromisoformat(..)
 * .timestamp()` (None where it raises).
 */
module RealtimeSources {
  import opened Wrappers
  import opened Schemas
  import opened Sequences
  import opened Text
  import opened RankingTypes

  /** The id, handle and bio of the synthetic author of news candidates. */
  const NewsUser: User := User("news_api", "news_api", "News", "Headlines from News API", None, [News], None, [], 0, 0)

  /** The news API's categories and the topic each stands for. */
  const CategoryTopics: map<string, Topic> :=
    map["business" := Finance, "entertainment" := Culture, "general" := News, "health" := OtherTopic,
        "science" := Tech, "sports" := Culture, "technology" := Tech]

  /** Every news candidate starts with no engagement. */
  const ZeroCounts: map<string, int> := map["like" := 0, "repost" := 0, "reply" := 0, "quote" := 0]

  /** The longest text a news post may carry. */
  const NewsTextLimit: int := 280

  /**
   * `_CATEGORY_TO_TOPIC.get(cat, Topic.NEWS)`: the topic of a category, read backwards:
   * each topic is reached from exactly the categories listed for it, NEWS also from every
   * unknown category, and POLITICS and MEMES never.
   */
  function TopicForCategory(cat: string): (t: Topic)
    ensures t == News <==> cat == "general" || cat !in CategoryTopics
    ensures t == Tech <==> cat == "science" || cat == "technology"
    ensures t == Culture <==> cat == "entertainment" || cat == "sports"
    ensures t == Finance <==> cat == "business"
    ensures t == OtherTopic <==> cat == "health"
    ensures t != Politics && t != Memes
  {
    if cat in CategoryTopics then CategoryTopics[cat] else News
  }

  /**
   * `_sanitize_text`: "" for empty or all-whitespace text; otherwise the stripped text with
   * every whitespace run collapsed to one space, that is the text's words joined by single
   * spaces, cut to `maxLen - 3` characters plus "..." when longer than `maxLen`.
   */
  function SanitizeText(s: string, maxLen: int): (r: string)
    ensures AllSpace(s) ==> r == ""
    ensures !AllSpace(s) ==> r == Fit(JoinWords(" ", Words(s)), maxLen)
    ensures maxLen >= 3 ==> |r| <= maxLen
  {
    if s == [] || Strip(s) == [] then ""
    else
      CollapseWords(s);
      Fit(CollapseSpaces(Strip(s)), maxLen)
  }

  /** The collapsed text as is when it fits in `maxLen`, else cut to `maxLen - 3` plus "...". */
  function Fit(t: string, maxLen: int): (r: string)
    ensures maxLen >= 3 ==> |r| <= maxLen
  {
    if |t| > maxLen then Prefix(t, maxLen - 3) + "..." else t
  }

  /**
   * Fitting non-empty, trimmed, single-spaced text keeps it so: unchanged when it fits,
   * otherwise exactly `maxLen` characters, the text's first `maxLen - 3` then "...".
   */
  lemma FitShape(t: string, maxLen: int)
    requires maxLen >= 3 && t != [] && Trimmed(t) && SingleSpaced(t)
    ensures var r := Fit(t, maxLen);
            && (|t| <= maxLen ==> r == t)
            && (|t| > maxLen ==> |r| == maxLen && r[..maxLen - 3] == t[..maxLen - 3] && r[maxLen - 3..] == "...")
            && r != [] && Trimmed(r) && SingleSpaced(r)
  {
    if |t| > maxLen {
      TruncatedShape(t, maxLen - 3);
      assert Fit(t, maxLen) == t[..maxLen - 3] + "...";
    }
  }

  /**
   * The collapsed text of an input with something visible in it is the input's words
   * joined by single spaces; it is non-empty, trimmed, single-spaced, and has exactly the
   * input's non-whitespace characters.
   */
  lemma CollapsedShape(s: string)
    requires !AllSpace(s)
    ensures var t := CollapseSpaces(Strip(s));
            t == JoinWords(" ", Words(s))
            && t != [] && Trimmed(t) && SingleSpaced(t) && NonSpace(t) == NonSpace(s)
  {
    var u := Strip(s);
    assert u != [];
    CollapseWords(s);
    CollapseSingleSpaced(u);
    CollapseTrimmed(u);
    CollapseNonSpace(u);
    StripNonSpace(s);
  }

  /** Cutting trimmed, single-spaced text and appending "..." keeps it trimmed and single-spaced. */
  lemma TruncatedShape(t: string, n: nat)
    requires Trimmed(t) && SingleSpaced(t) && n < |t|
    ensures var r := t[..n] + "...";
            |r| == n + 3 && Trimmed(r) && SingleSpaced(r)
  {
    var p := t[..n];
    var r := p + "...";
    SingleSpacedPrefix(t, n);
    forall i | 0 <= i < |r| && IsSpace(r[i]) ensures r[i] == ' ' && (i + 1 < |r| ==> !IsSpace(r[i + 1])) {
      assert i < |p|;
      assert r[i] == p[i];
      if i + 1 < |p| {
        assert r[i + 1] == p[i + 1];
      }
    }
    if p != [] {
      assert r[0] == t[0];
    }
  }

  /**
   * For text with something visible in it and `maxLen >= 3`: the collapsed text (the
   * input's words joined by single spaces: trimmed, single-spaced, with exactly the
   * input's non-whitespace characters) is returned as is when it fits, and otherwise cut
   * to exactly `maxLen` characters ending in "...". The result is never empty, and is
   * itself trimmed and single-spaced.
   */
  lemma SanitizeTextShape(s: string, maxLen: int)
    requires maxLen >= 3 && !AllSpace(s)
    ensures var t := CollapseSpaces(Strip(s));
            var r := SanitizeText(s, maxLen);
            && t == JoinWords(" ", Words(s))
            && Trimmed(t) && SingleSpaced(t) && NonSpace(t) == NonSpace(s)
            && (|t| <= maxLen ==> r == t)
            && (|t| > maxLen ==> |r| == maxLen && r[..maxLen - 3] == t[..maxLen - 3] && r[maxLen - 3..] == "...")
            && r != [] && Trimmed(r) && SingleSpaced(r)
  {
    var u := Strip(s);
    var t := CollapseSpaces(u);
    assert s != [] && u != [];
    CollapsedShape(s);
    assert SanitizeText(s, maxLen) == Fit(t, maxLen);
    FitShape(t, maxLen);
  }

  /** Trimmed, single-spaced text that fits comes back unchanged. */
  lemma SanitizeTextFixed(r: string, maxLen: int)
    requires r != [] && Trimmed(r) && SingleSpaced(r) && |r| <= maxLen
    ensures SanitizeText(r, maxLen) == r
  {
    StripTrimmed(r);
    CollapseSingleSpacedFixed(r);
  }

  /** Sanitising twice is sanitising once, for any `maxLen >= 3`. */
  lemma SanitizeTextIdempotent(s: string, maxLen: int)
    requires maxLen >= 3
    ensures SanitizeText(SanitizeText(s, maxLen), maxLen) == SanitizeText(s, maxLen)
  {
    if !AllSpace(s) {
      SanitizeTextShape(s, maxLen);
      SanitizeTextFixed(SanitizeText(s, maxLen), maxLen);
    }
  }

  /** Python's `x or default` on an optional string: the default for None and for "". */
  function OrElse(x: Option<string>, default: string): string {
    if x.Some? && x.value != "" then x.value else default
  }

  /** `str.replace("Z", "+00:00")`. */
  function ReplaceZulu(s: string): string
    decreases |s|
  {
    if s == [] then [] else (if s[0] == 'Z' then "+00:00" else [s[0]]) + ReplaceZulu(s[1..])
  }

  /** One decoded article of the news API response (`source.name` flattened into `sourceName`). */
  datatype Article = Article(
    title: Option<string>,
    description: Option<string>,
    sourceName: Option<string>,
    category: Option<string>,
    publishedAt: Option<string>)

  /** The stripped title of an article; an article whose title is empty yields no candidate. */
  function ArticleTitle(a: Article): string {
    Strip(OrElse(a.title, ""))
  }

  /**
   * The timestamp of the `i`-th article: its parsed publish time when it has one that
   * parses, else `now - 60 * i`.
   */
  function ArticleCreatedAt(a: Article, i: int, now: real, parseTimestamp: string -> Option<real>): (t: real)
    ensures (a.publishedAt.None? || a.publishedAt == Some("")) ==> t == now - (60 * i) as real
  {
    var published := OrElse(a.publishedAt, "");
    if published != "" && parseTimestamp(Prefix(ReplaceZulu(published), 22)).Some? then
      parseTimestamp(Prefix(ReplaceZulu(published), 22)).value
    else now - (i * 60) as real
  }

  /** The text of a titled article: its title, then its description after a space if it has one, sanitised. */
  function ArticleText(title: string, a: Article): (text: string)
    requires title != [] && Trimmed(title)
    ensures 0 < |text| <= NewsTextLimit
  {
    var desc := Strip(OrElse(a.description, ""));
    var raw := if desc != "" then title + " " + desc else title;
    assert raw[0] == title[0];
    SanitizeTextShape(raw, NewsTextLimit);
    SanitizeText(raw, NewsTextLimit)
  }

  /** The `i`-th news candidate: an original post by `news_api` on one topic, with no engagement yet. */
  function NewsCandidateOf(text: string, sourceName: string, topic: Topic, createdAt: real, i: int): (c: Candidate)
    requires 0 < |text| <= NewsTextLimit
    ensures NewsCandidate(c) && c.post.createdAt == createdAt
  {
    var postId := "news_" + IntToString(TruncateToInt(createdAt)) + "_" + IntToString(i);
    var post := Post(postId, NewsUser.id, text, Original, None, None, [topic], createdAt, 0, 0, 0, 0, 0);
    var author := User(NewsUser.id, NewsUser.handle, sourceName, NewsUser.bio, None, [topic], None, [], 0, 0);
    Candidate(post, Some(author), OutOfNetwork, ZeroCounts)
  }

  /** The candidate made from the `i`-th article, or None when its title is empty. */
  function ArticleCandidate(a: Article, i: int, category: string, now: real,
                            parseTimestamp: string -> Option<real>): (r: Option<Candidate>)
    ensures r.None? <==> ArticleTitle(a) == ""
    ensures r.Some? ==> NewsCandidate(r.value) && r.value.post.createdAt == ArticleCreatedAt(a, i, now, parseTimestamp)
  {
    var title := ArticleTitle(a);
    if title == "" then None
    else
      var topic := TopicForCategory(Lower(OrElse(a.category, OrElse(Some(category), "general"))));
      Some(NewsCandidateOf(ArticleText(title, a), OrElse(a.sourceName, "News"), topic,
                           ArticleCreatedAt(a, i, now, parseTimestamp), i))
  }

  /**
   * What every news candidate is: out-of-network, an original post by `news_api` with no
   * parent, no quote and zero counts, non-empty text of at most 280 characters, and the
   * `news_api` author.
   */
  predicate NewsCandidate(c: Candidate) {
    && c.source == OutOfNetwork
    && c.post.authorId == "news_api" && c.post.postType == Original
    && c.post.parentId.None? && c.post.quotedId.None?
    && c.post.likeCount == 0 && c.post.repostCount == 0 && c.post.replyCount == 0 && c.post.quoteCount == 0
    && c.engagementCounts == ZeroCounts
    && 0 < |c.post.text| <= NewsTextLimit
    && c.author.Some? && c.author.value.id == "news_api"
  }

  /** The values `f(xs[i], i)` that are present, in order of `i`. */
  function CollectSome<T, U>(xs: seq<T>, f: (T, int) -> Option<U>): (r: seq<U>)
    ensures |r| <= |xs|
    decreases |xs|
  {
    if xs == [] then []
    else
      var r := CollectSome(xs[..|xs| - 1], f);
      var y := f(xs[|xs| - 1], |xs| - 1);
      if y.Some? then r + [y.value] else r
  }

  /** Every collected value is the value of `f` at some index. */
  lemma {:induction false} CollectSomeSound<T, U>(xs: seq<T>, f: (T, int) -> Option<U>)
    ensures var r := CollectSome(xs, f);
            forall k :: 0 <= k < |r| ==> exists i :: 0 <= i < |xs| && f(xs[i], i) == Some(r[k])
    decreases |xs|
  {
    if xs != [] {
      var xs' := xs[..|xs| - 1];
      var r' := CollectSome(xs', f);
      var r := CollectSome(xs, f);
      var last := |xs| - 1;
      var y := f(xs[last], last);
      assert r == if y.Some? then r' + [y.value] else r';
      CollectSomeSound(xs', f);
      assert var r0 := CollectSome(xs', f);
             forall k :: 0 <= k < |r0| ==> exists i :: 0 <= i < |xs'| && f(xs'[i], i) == Some(r0[k]);
      forall k | 0 <= k < |r| ensures exists i :: 0 <= i < |xs| && f(xs[i], i) == Some(r[k]) {
        if k < |r'| {
          assert r[k] == r'[k];
          var i :| 0 <= i < |xs'| && f(xs'[i], i) == Some(r'[k]);
          assert xs[i] == xs'[i];
        } else {
          assert f(xs[last], last) == Some(r[k]);
        }
      }
    }
  }

  /** Every present value of `f` is collected. */
  lemma {:induction false} CollectSomeComplete<T, U>(xs: seq<T>, f: (T, int) -> Option<U>)
    ensures var r := CollectSome(xs, f);
            forall i :: 0 <= i < |xs| && f(xs[i], i).Some? ==> f(xs[i], i).value in r
    decreases |xs|
  {
    if xs != [] {
      var xs' := xs[..|xs| - 1];
      var r' := CollectSome(xs', f);
      var r := CollectSome(xs, f);
      CollectSomeComplete(xs', f);
      forall i | 0 <= i < |xs| && f(xs[i], i).Some? ensures f(xs[i], i).value in r {
        if i < |xs| - 1 {
          assert xs[i] == xs'[i];
          assert f(xs'[i], i).value in r';
        }
      }
    }
  }

  /** The candidates of a list of articles, the `i`-th article at index `i`, in order. */
  function ArticlesToCandidates(arts: seq<Article>, category: string, now: real,
                                parseTimestamp: string -> Option<real>): seq<Candidate>
  {
    CollectSome(arts, (a: Article, i: int) => ArticleCandidate(a, i, category, now, parseTimestamp))
  }

  /**
   * The articles become candidates one for one, dropping exactly those with an empty title:
   * there are no more candidates than articles, every candidate is the candidate of the
   * article at some index and so a news candidate, and every titled article yields its
   * candidate.
   */
  lemma ArticlesToCandidatesFacts(arts: seq<Article>, category: string, now: real,
                                  parseTimestamp: string -> Option<real>)
    ensures var r := ArticlesToCandidates(arts, category, now, parseTimestamp);
            && |r| <= |arts|
            && (forall k :: 0 <= k < |r| ==>
                  exists i :: 0 <= i < |arts| && ArticleCandidate(arts[i], i, category, now, parseTimestamp) == Some(r[k]))
            && (forall k :: 0 <= k < |r| ==> NewsCandidate(r[k]))
            && (forall i :: 0 <= i < |arts| && ArticleTitle(arts[i]) != "" ==>
                  ArticleCandidate(arts[i], i, category, now, parseTimestamp).value in r)
  {
    var f := (a: Article, i: int) => ArticleCandidate(a, i, category, now, parseTimestamp);
    assert ArticlesToCandidates(arts, category, now, parseTimestamp) == CollectSome(arts, f);
    CollectSomeSound(arts, f);
    ArticlesNews(arts, category, now, parseTimestamp);
    ArticlesComplete(arts, category, now, parseTimestamp);
  }

  lemma ArticlesNews(arts: seq<Article>, category: string, now: real, parseTimestamp: string -> Option<real>)
    ensures var r := ArticlesToCandidates(arts, category, now, parseTimestamp);
            forall k :: 0 <= k < |r| ==> NewsCandidate(r[k])
  {
    var f := (a: Article, i: int) => ArticleCandidate(a, i, category, now, parseTimestamp);
    var r := ArticlesToCandidates(arts, category, now, parseTimestamp);
    assert r == CollectSome(arts, f);
    CollectSomeSound(arts, f);
    forall k | 0 <= k < |r| ensures NewsCandidate(r[k]) {
      var i :| 0 <= i < |arts| && f(arts[i], i) == Some(r[k]);
      assert ArticleCandidate(arts[i], i, category, now, parseTimestamp) == Some(r[k]);
    }
  }

  lemma ArticlesComplete(arts: seq<Article>, category: string, now: real, parseTimestamp: string -> Option<real>)
    ensures var r := ArticlesToCandidates(arts, category, now, parseTimestamp);
            forall i :: 0 <= i < |arts| && ArticleTitle(arts[i]) != "" ==>
              ArticleCandidate(arts[i], i, category, now, parseTimestamp).value in r
  {
    var f := (a: Article, i: int) => ArticleCandidate(a, i, category, now, parseTimestamp);
    var r := ArticlesToCandidates(arts, category, now, parseTimestamp);
    assert r == CollectSome(arts, f);
    CollectSomeComplete(arts, f);
    forall i | 0 <= i < |arts| && ArticleTitle(arts[i]) != ""
      ensures ArticleCandidate(arts[i], i, category, now, parseTimestamp).value in r
    {
      var c := ArticleCandidate(arts[i], i, category, now, parseTimestamp);
      assert f(arts[i], i) == c && c.Some?;
    }
  }

  /** The candidates of one more article: its candidate appended when its title is not empty. */
  lemma ArticlesStep(arts: seq<Article>, i: int, category: string, now: real, parseTimestamp: string -> Option<real>)
    requires 0 <= i < |arts|
    ensures var c := ArticleCandidate(arts[i], i, category, now, parseTimestamp);
            var r := ArticlesToCandidates(arts[..i], category, now, parseTimestamp);
            ArticlesToCandidates(arts[..i + 1], category, now, parseTimestamp) == if c.Some? then r + [c.value] else r
  {
    var f := (a: Article, i: int) => ArticleCandidate(a, i, category, now, parseTimestamp);
    assert arts[..i + 1][..i] == arts[..i];
    assert ArticlesToCandidates(arts[..i + 1], category, now, parseTimestamp) == CollectSome(arts[..i + 1], f);
    assert ArticlesToCandidates(arts[..i], category, now, parseTimestamp) == CollectSome(arts[..i], f);
  }

  /** The category sent to the API and used as the fallback for articles without one. */
  function RequestCategory(categoryEnv: Option<string>): string {
    Lower(Strip(if categoryEnv.Some? then categoryEnv.value else "general"))
  }

  /**
   * `_fetch_news_api`: nothing without an API key or when the request fails, else the
   * candidates of the first `limit` articles.
   */
  function NewsApiCandidates(apiKey: string, categoryEnv: Option<string>, response: Option<seq<Article>>,
                             limit: int, now: real, parseTimestamp: string -> Option<real>): seq<Candidate>
  {
    if Strip(apiKey) == [] || response.None? then []
    else ArticlesToCandidates(Prefix(response.value, limit), RequestCategory(categoryEnv), now, parseTimestamp)
  }

  /**
   * The news candidates: none without a key or a response; otherwise at most `limit`
   * (for a non-negative `limit`), all news candidates, and one for each of the first
   * `limit` articles that has a title.
   */
  lemma NewsApiFacts(apiKey: string, categoryEnv: Option<string>, response: Option<seq<Article>>,
                     limit: int, now: real, parseTimestamp: string -> Option<real>)
    ensures var r := NewsApiCandidates(apiKey, categoryEnv, response, limit, now, parseTimestamp);
            && (AllSpace(apiKey) || response.None? ==> r == [])
            && (limit >= 0 ==> |r| <= limit)
            && (forall k :: 0 <= k < |r| ==> NewsCandidate(r[k]))
            && (forall i :: (!AllSpace(apiKey) && response.Some? && 0 <= i < |response.value| && i < limit
                             && ArticleTitle(response.value[i]) != "") ==>
                  ArticleCandidate(response.value[i], i, RequestCategory(categoryEnv), now, parseTimestamp).value in r)
  {
    var r := NewsApiCandidates(apiKey, categoryEnv, response, limit, now, parseTimestamp);
    if AllSpace(apiKey) || response.None? {
      assert Strip(apiKey) == [] || response.None?;
      assert r == [];
    } else {
      var category := RequestCategory(categoryEnv);
      assert Strip(apiKey) != [];
      assert r == ArticlesToCandidates(Prefix(response.value, limit), category, now, parseTimestamp);
      FirstArticlesFacts(response.value, limit, category, now, parseTimestamp);
    }
  }

  /** The candidates of the first `limit` articles, as `NewsApiFacts` states them. */
  lemma FirstArticlesFacts(all: seq<Article>, limit: int, category: string, now: real,
                           parseTimestamp: string -> Option<real>)
    ensures var r := ArticlesToCandidates(Prefix(all, limit), category, now, parseTimestamp);
            && (limit >= 0 ==> |r| <= limit)
            && (forall k :: 0 <= k < |r| ==> NewsCandidate(r[k]))
            && (forall i :: 0 <= i < |all| && i < limit && ArticleTitle(all[i]) != "" ==>
                  ArticleCandidate(all[i], i, category, now, parseTimestamp).value in r)
  {
    var arts := Prefix(all, limit);
    var r := ArticlesToCandidates(arts, category, now, parseTimestamp);
    ArticlesNews(arts, category, now, parseTimestamp);
    ArticlesComplete(arts, category, now, parseTimestamp);
    ArticlesLength(arts, category, now, parseTimestamp);
    forall i | 0 <= i < |all| && i < limit && ArticleTitle(all[i]) != ""
      ensures ArticleCandidate(all[i], i, category, now, parseTimestamp).value in r
    {
      assert arts[i] == all[i];
    }
  }

  lemma ArticlesLength(arts: seq<Article>, category: string, now: real, parseTimestamp: string -> Option<real>)
    ensures |ArticlesToCandidates(arts, category, now, parseTimestamp)| <= |arts|
  {
    var f := (a: Article, i: int) => ArticleCandidate(a, i, category, now, parseTimestamp);
    assert ArticlesToCandidates(arts, category, now, parseTimestamp) == CollectSome(arts, f);
  }

  /** `_fetch_news_api`, with its article loop appending one candidate per titled article. */
  method FetchNewsApi(apiKey: string, categoryEnv: Option<string>, response: Option<seq<Article>>,
                      limit: int, now: real, parseTimestamp: string -> Option<real>)
    returns (candidates: seq<Candidate>)
    ensures candidates == NewsApiCandidates(apiKey, categoryEnv, response, limit, now, parseTimestamp)
  {
    var key := Strip(apiKey);
    if key == [] {
      return [];
    }
    var category := RequestCategory(categoryEnv);
    if response.None? {
      return [];
    }
    var articles := Prefix(response.value, limit);
    candidates := [];
    for i := 0 to |articles|
      invariant candidates == ArticlesToCandidates(articles[..i], category, now, parseTimestamp)
    {
      var c := ArticleCandidate(articles[i], i, category, now, parseTimestamp);
      ArticlesStep(articles, i, category, now, parseTimestamp);
      if c.Some? {
        candidates := candidates + [c.value];
      }
    }
    assert articles[..|articles|] == articles;
  }
}
