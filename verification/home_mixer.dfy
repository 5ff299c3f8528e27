/**
 * The home mixer: source candidates, filter them, score them, rescore for author
 * diversity, keep the top `limit` and turn each into a feed item. One `now` stands for
 * every clock reading of a request.
 */
module HomeMixerModel {
  import opened Wrappers
  import opened Schemas
  import opened Sequences
  import opened RankingTypes
  import opened StoreModel
  import opened Filters
  import opened Scorers
  import opened Sources

  /** The in-network cap of the Following tab. */
  const FollowingTabLimit: int := 300
  /** The `(in-network, out-of-network)` caps of the For You feed. */
  const ForYouLimits: (int, int) := (200, 150)
  /** Candidates older than a week are dropped before scoring. */
  const MaxAgeHours: real := 168.0

  /** `preferences or AlgorithmPreferences()`. */
  function PrefsOrDefault(preferences: Option<AlgorithmPreferences>): AlgorithmPreferences {
    if preferences.Some? then preferences.value else DefaultPreferences
  }

  /** `seen_post_ids or set()`. */
  function SeenOrEmpty(seenPostIds: Option<set<string>>): set<string> {
    if seenPostIds.Some? then seenPostIds.value else {}
  }

  /** No stored post is stamped exactly one hour after `now`, where the recency boost divides by zero. */
  predicate ScorableAt(s: Snapshot, now: real) {
    forall pid :: pid in s.posts ==> RecencyDefined(s.posts[pid].createdAt, now)
  }

  /** Stage 1: the Following tab reads only the in-network source. */
  function FeedCandidates(s: Snapshot, userId: string, followingOnly: bool, now: real): seq<Candidate> {
    if followingOnly then InNetworkCandidates(s, userId, FollowingTabLimit, now)
    else InNetworkCandidates(s, userId, ForYouLimits.0, now) + OutOfNetworkCandidates(s, userId, ForYouLimits.1, now)
  }

  /** Stage 2: the pre-scoring filters with the one-week window. */
  function FeedFiltered(s: Snapshot, userId: string, seen: set<string>, followingOnly: bool, now: real): seq<Candidate> {
    PreScoringFiltered(FeedCandidates(s, userId, followingOnly, now), userId, MaxAgeHours, seen, now)
  }

  /** Every sourced candidate is hydrated from the store; on the Following tab all are in-network. */
  lemma FeedCandidatesHydrated(s: Snapshot, userId: string, followingOnly: bool, now: real)
    requires SnapshotValid(s)
    ensures var cs := FeedCandidates(s, userId, followingOnly, now);
            forall c :: c in cs ==> Hydrated(s, c) && (followingOnly ==> c.source == InNetwork)
  {
    if followingOnly {
      InNetworkHydrated(s, userId, FollowingTabLimit, now);
    } else {
      InNetworkHydrated(s, userId, ForYouLimits.0, now);
      OutOfNetworkHydrated(s, userId, ForYouLimits.1, now);
      var a := InNetworkCandidates(s, userId, ForYouLimits.0, now);
      var b := OutOfNetworkCandidates(s, userId, ForYouLimits.1, now);
      assert forall c :: c in a + b ==> c in a || c in b;
    }
  }

  /**
   * The candidates that reach the scorer: hydrated, distinct by post id, each eligible
   * (recent, not the viewer's own, not seen), and in-network on the Following tab.
   */
  lemma FeedFilteredFacts(s: Snapshot, userId: string, seen: set<string>, followingOnly: bool, now: real)
    requires SnapshotValid(s)
    ensures var f := FeedFiltered(s, userId, seen, followingOnly, now);
            && DistinctPostIds(f)
            && forall i :: 0 <= i < |f| ==>
                 && Hydrated(s, f[i])
                 && Eligible(f[i], userId, MaxAgeHours, seen, now)
                 && (followingOnly ==> f[i].source == InNetwork)
  {
    var cs := FeedCandidates(s, userId, followingOnly, now);
    var f := FeedFiltered(s, userId, seen, followingOnly, now);
    FeedCandidatesHydrated(s, userId, followingOnly, now);
    PreScoringFilteredFacts(cs, userId, MaxAgeHours, seen, now);
    SubseqElements(f, cs);
  }

  /** Stage 3: `weighted_scorer` applied to every filtered candidate. */
  function ScoreAll(cs: seq<Candidate>, prefs: AlgorithmPreferences, now: real, tanh: real -> real)
    : (r: seq<ScoredCandidate>)
    requires forall c :: c in cs ==> RecencyDefined(c.post.createdAt, now)
    ensures |r| == |cs| && forall i :: 0 <= i < |cs| ==> r[i] == ScoreCandidate(cs[i], prefs, now, tanh)
  {
    seq(|cs|, i requires 0 <= i < |cs| => ScoreCandidate(cs[i], prefs, now, tanh))
  }

  /** Stages 3 and 4: score, then rescore for author diversity. */
  function FeedRescored(s: Snapshot, userId: string, prefs: AlgorithmPreferences, seen: set<string>,
                        followingOnly: bool, now: real, tanh: real -> real): seq<ScoredCandidate>
    requires SnapshotValid(s) && ScorableAt(s, now)
  {
    var f := FeedFiltered(s, userId, seen, followingOnly, now);
    FeedFilteredScorable(s, userId, seen, followingOnly, now);
    DiversityRescore(ScoreAll(f, prefs, now, tanh), prefs.diversityStrength)
  }

  /** Every filtered candidate is a stored post, so the recency boost is defined for it. */
  lemma FeedFilteredScorable(s: Snapshot, userId: string, seen: set<string>, followingOnly: bool, now: real)
    requires SnapshotValid(s) && ScorableAt(s, now)
    ensures forall c :: c in FeedFiltered(s, userId, seen, followingOnly, now) ==> RecencyDefined(c.post.createdAt, now)
  {
    var f := FeedFiltered(s, userId, seen, followingOnly, now);
    FeedFilteredFacts(s, userId, seen, followingOnly, now);
    HydratedScorable(s, f, now);
  }

  /** A hydrated candidate carries its stored record, so a store scorable at `now` makes it scorable. */
  lemma HydratedScorable(s: Snapshot, cs: seq<Candidate>, now: real)
    requires ScorableAt(s, now)
    requires forall i :: 0 <= i < |cs| ==> Hydrated(s, cs[i])
    ensures forall c :: c in cs ==> RecencyDefined(c.post.createdAt, now)
  {
    forall c | c in cs ensures RecencyDefined(c.post.createdAt, now) {
      var k :| 0 <= k < |cs| && cs[k] == c;
      assert Hydrated(s, cs[k]);
    }
  }

  /** Stage 5: `sorted(scored, key=final_score, reverse=True)[:limit]`. */
  function FeedTop(s: Snapshot, userId: string, prefs: AlgorithmPreferences, limit: int, seen: set<string>,
                   followingOnly: bool, now: real, tanh: real -> real): seq<ScoredCandidate>
    requires SnapshotValid(s) && ScorableAt(s, now)
  {
    Prefix(SortDesc(FeedRescored(s, userId, prefs, seen, followingOnly, now, tanh), FinalScore), limit)
  }

  /**
   * Selection after rescoring: the re-sort finds the rescored list already in order, so
   * the top is a prefix of it, with at most `limit` entries for a non-negative `limit`,
   * non-increasing scores, ranks exactly 1..n, and each score non-negative and recorded in
   * an explanation of its own candidate.
   */
  lemma SelectionOrder(scored: seq<ScoredCandidate>, strength: real, limit: int)
    requires forall x :: x in scored ==> ScoredConsistently(x) && ExplainsOwnCandidate(x)
    ensures var rescored := DiversityRescore(scored, strength);
            var top := Prefix(SortDesc(rescored, FinalScore), limit);
            && top == Prefix(rescored, limit)
            && (limit >= 0 ==> |top| <= limit)
            && SortedDesc(top, FinalScore)
            && forall i :: 0 <= i < |top| ==>
                 && top[i].explanation.rank == i + 1
                 && top[i].finalScore == top[i].explanation.finalScore >= 0.0
                 && ExplainsOwnCandidate(top[i])
  {
    var rescored := DiversityRescore(scored, strength);
    DiversityRescoreOrder(scored, strength);
    DiversityRescoreExplained(scored, strength);
    DiversityRescoreKeepsSubjects(scored, strength);
    SortDescOfSorted(rescored, FinalScore);
    var top := Prefix(rescored, limit);
    forall i | 0 <= i < |top|
      ensures top[i].explanation.rank == i + 1
      ensures top[i].finalScore == top[i].explanation.finalScore >= 0.0
      ensures ExplainsOwnCandidate(top[i])
    {
      assert top[i] == rescored[i];
      assert RescoredConsistently(rescored[i]);
    }
  }

  /** Selection after rescoring keeps candidates of the input only, and no post twice when the input has none twice. */
  lemma SelectionCandidates(scored: seq<ScoredCandidate>, strength: real, limit: int)
    requires DistinctPostIds(Map(scored, CandidateOf))
    ensures var top := Prefix(SortDesc(DiversityRescore(scored, strength), FinalScore), limit);
            && (forall i, j :: 0 <= i < j < |top| ==> top[i].candidate.post.id != top[j].candidate.post.id)
            && forall i :: 0 <= i < |top| ==> top[i].candidate in Map(scored, CandidateOf)
  {
    var f := Map(scored, CandidateOf);
    var rescored := DiversityRescore(scored, strength);
    DiversityRescoreOrder(scored, strength);
    SortDescOfSorted(rescored, FinalScore);
    var cands := Map(rescored, CandidateOf);
    PermutedCandidates(f, cands);
    var top := Prefix(rescored, limit);
    forall i | 0 <= i < |top| ensures top[i].candidate == cands[i] {
      assert top[i] == rescored[i];
    }
  }

  /** A reordering of candidates with distinct post ids keeps those candidates, with distinct post ids. */
  lemma PermutedCandidates(f: seq<Candidate>, cands: seq<Candidate>)
    requires DistinctPostIds(f) && multiset(cands) == multiset(f)
    ensures DistinctPostIds(cands) && forall c :: c in cands ==> c in f
  {
    assert Distinct(f) by {
      forall i, j | 0 <= i < j < |f| ensures f[i] != f[j] {
        assert f[i].post.id != f[j].post.id;
      }
    }
    DistinctPermutation(f, cands);
    forall c | c in cands ensures c in f {
      assert c in multiset(f);
    }
    forall i, j | 0 <= i < j < |cands| ensures cands[i].post.id != cands[j].post.id {
      assert cands[i] in f && cands[j] in f;
      var k :| 0 <= k < |f| && f[k] == cands[i];
      var l :| 0 <= l < |f| && f[l] == cands[j];
    }
  }

  /** Scoring keeps the candidates in order and explains each score by its own candidate. */
  lemma ScoreAllFacts(cs: seq<Candidate>, prefs: AlgorithmPreferences, now: real, tanh: real -> real)
    requires forall c :: c in cs ==> RecencyDefined(c.post.createdAt, now)
    ensures var scored := ScoreAll(cs, prefs, now, tanh);
            && Map(scored, CandidateOf) == cs
            && forall x :: x in scored ==> ScoredConsistently(x) && ExplainsOwnCandidate(x)
  {
    var scored := ScoreAll(cs, prefs, now, tanh);
    forall x | x in scored ensures ScoredConsistently(x) && ExplainsOwnCandidate(x) {
      var i :| 0 <= i < |scored| && scored[i] == x;
    }
  }

  /** The scored filtered candidates: each explained consistently, and no post twice. */
  lemma FeedScoredFacts(s: Snapshot, userId: string, prefs: AlgorithmPreferences, seen: set<string>,
                        followingOnly: bool, now: real, tanh: real -> real)
    requires SnapshotValid(s) && ScorableAt(s, now)
    ensures var f := FeedFiltered(s, userId, seen, followingOnly, now);
            && (forall c :: c in f ==> RecencyDefined(c.post.createdAt, now))
            && var scored := ScoreAll(f, prefs, now, tanh);
               && FeedRescored(s, userId, prefs, seen, followingOnly, now, tanh) == DiversityRescore(scored, prefs.diversityStrength)
               && Map(scored, CandidateOf) == f
               && DistinctPostIds(f)
               && forall x :: x in scored ==> ScoredConsistently(x) && ExplainsOwnCandidate(x)
  {
    var f := FeedFiltered(s, userId, seen, followingOnly, now);
    FeedFilteredFacts(s, userId, seen, followingOnly, now);
    ScoreAllFacts(f, prefs, now, tanh);
  }

  /**
   * The feed is a prefix of the rescored list: at most `limit` entries for a non-negative
   * `limit`, non-increasing scores, ranks exactly 1..n, each score non-negative and
   * recorded in an explanation of its own candidate.
   */
  lemma FeedTopOrder(s: Snapshot, userId: string, prefs: AlgorithmPreferences, limit: int, seen: set<string>,
                     followingOnly: bool, now: real, tanh: real -> real)
    requires SnapshotValid(s) && ScorableAt(s, now)
    ensures var rescored := FeedRescored(s, userId, prefs, seen, followingOnly, now, tanh);
            var top := FeedTop(s, userId, prefs, limit, seen, followingOnly, now, tanh);
            && top == Prefix(rescored, limit)
            && (limit >= 0 ==> |top| <= limit)
            && SortedDesc(top, FinalScore)
            && forall i :: 0 <= i < |top| ==>
                 && top[i].explanation.rank == i + 1
                 && top[i].finalScore == top[i].explanation.finalScore >= 0.0
                 && ExplainsOwnCandidate(top[i])
  {
    var f := FeedFiltered(s, userId, seen, followingOnly, now);
    FeedScoredFacts(s, userId, prefs, seen, followingOnly, now, tanh);
    var scored := ScoreAll(f, prefs, now, tanh);
    var rescored := FeedRescored(s, userId, prefs, seen, followingOnly, now, tanh);
    assert rescored == DiversityRescore(scored, prefs.diversityStrength);
    var top := FeedTop(s, userId, prefs, limit, seen, followingOnly, now, tanh);
    assert top == Prefix(SortDesc(rescored, FinalScore), limit);
    SelectionOrder(scored, prefs.diversityStrength, limit);
  }

  /**
   * The feed's candidates are filtered candidates, none twice: each is hydrated from the
   * store, eligible, and in-network on the Following tab.
   */
  lemma FeedTopCandidates(s: Snapshot, userId: string, prefs: AlgorithmPreferences, limit: int, seen: set<string>,
                          followingOnly: bool, now: real, tanh: real -> real)
    requires SnapshotValid(s) && ScorableAt(s, now)
    ensures var top := FeedTop(s, userId, prefs, limit, seen, followingOnly, now, tanh);
            && (forall i, j :: 0 <= i < j < |top| ==> top[i].candidate.post.id != top[j].candidate.post.id)
            && forall i :: 0 <= i < |top| ==>
                 && Hydrated(s, top[i].candidate)
                 && Eligible(top[i].candidate, userId, MaxAgeHours, seen, now)
                 && (followingOnly ==> top[i].candidate.source == InNetwork)
  {
    var f := FeedFiltered(s, userId, seen, followingOnly, now);
    FeedFilteredFacts(s, userId, seen, followingOnly, now);
    FeedScoredFacts(s, userId, prefs, seen, followingOnly, now, tanh);
    var scored := ScoreAll(f, prefs, now, tanh);
    var rescored := FeedRescored(s, userId, prefs, seen, followingOnly, now, tanh);
    assert rescored == DiversityRescore(scored, prefs.diversityStrength);
    var top := FeedTop(s, userId, prefs, limit, seen, followingOnly, now, tanh);
    assert top == Prefix(SortDesc(rescored, FinalScore), limit);
    SelectionCandidates(scored, prefs.diversityStrength, limit);
    forall i | 0 <= i < |top|
      ensures Hydrated(s, top[i].candidate) && Eligible(top[i].candidate, userId, MaxAgeHours, seen, now)
      ensures followingOnly ==> top[i].candidate.source == InNetwork
    {
      assert top[i].candidate in f;
      var k :| 0 <= k < |f| && f[k] == top[i].candidate;
    }
  }

  /** A referenced post attached to an item: present only when the id is non-empty and resolves. */
  function Attached(s: Snapshot, ref: Option<string>): Option<PostWithAuthor> {
    if ref.Some? && ref.value != "" && ref.value in s.posts then
      Some(PostWithAuthor(s.posts[ref.value], StoredAuthor(s, s.posts[ref.value].authorId)))
    else None
  }

  /** The post shown in an item: the candidate's record with its four counts taken from the candidate's tallies. */
  function DisplayedPost(c: Candidate): Post {
    c.post.(likeCount := CountOf(c.engagementCounts, "like"),
            repostCount := CountOf(c.engagementCounts, "repost"),
            replyCount := CountOf(c.engagementCounts, "reply"),
            quoteCount := CountOf(c.engagementCounts, "quote"))
  }

  /** Stage 6: the feed item built for one selected candidate. */
  function FeedItemFor(s: Snapshot, sc: ScoredCandidate, includeExplanations: bool): FeedItem {
    var post := sc.candidate.post;
    FeedItem(PostWithAuthor(DisplayedPost(sc.candidate), sc.candidate.author),
             if includeExplanations then Some(sc.explanation) else None,
             Attached(s, post.parentId),
             Attached(s, post.quotedId))
  }

  function FeedItems(s: Snapshot, top: seq<ScoredCandidate>, includeExplanations: bool): (r: seq<FeedItem>)
    ensures |r| == |top| && forall i :: 0 <= i < |top| ==> r[i] == FeedItemFor(s, top[i], includeExplanations)
  {
    seq(|top|, i requires 0 <= i < |top| => FeedItemFor(s, top[i], includeExplanations))
  }

  /** The response `get_feed` returns; there is never a next cursor. */
  function Feed(s: Snapshot, userId: string, prefs: AlgorithmPreferences, limit: int, seen: set<string>,
                includeExplanations: bool, followingOnly: bool, now: real, tanh: real -> real): FeedResponse
    requires SnapshotValid(s) && ScorableAt(s, now)
  {
    FeedResponse(FeedItems(s, FeedTop(s, userId, prefs, limit, seen, followingOnly, now, tanh), includeExplanations), None)
  }

  /**
   * A displayed post is the stored record with its like, repost, reply and quote counts
   * replaced by the number of such engagements in the log.
   */
  lemma DisplayedCounts(s: Snapshot, c: Candidate)
    requires Hydrated(s, c)
    ensures var p := DisplayedPost(c);
            p == s.posts[c.post.id].(likeCount := CountEngagements(s.engagements, c.post.id, Like),
                                     repostCount := CountEngagements(s.engagements, c.post.id, Repost),
                                     replyCount := CountEngagements(s.engagements, c.post.id, Reply),
                                     quoteCount := CountEngagements(s.engagements, c.post.id, Quote))
  {
    assert EngagementValue(Like) == "like" && EngagementValue(Repost) == "repost";
    assert EngagementValue(Reply) == "reply" && EngagementValue(Quote) == "quote";
  }

  /**
   * The items built from a selection that is ranked, sorted, hydrated and eligible: each
   * post is an eligible stored post shown with its logged counts and its stored author;
   * with explanations, ranks 1..n for the item's own post with non-increasing scores (and
   * in-network provenance where the selection is in-network), without them none; a parent
   * or quoted post exactly when its id is non-empty and stored.
   */
  lemma ItemsFacts(s: Snapshot, top: seq<ScoredCandidate>, includeExplanations: bool, userId: string,
                   seen: set<string>, followingOnly: bool, now: real)
    requires ShowableSelection(s, top, userId, seen, followingOnly, now)
    ensures FeedItemsShown(s, FeedItems(s, top, includeExplanations), userId, seen, includeExplanations, followingOnly, now)
  {
    var items := FeedItems(s, top, includeExplanations);
    forall i | 0 <= i < |items|
      ensures items[i].post.post.id == top[i].candidate.post.id
      ensures ItemShowsStoredPost(s, items[i], userId, seen, now)
      ensures ItemExplained(items[i], i, includeExplanations, followingOnly)
    {
      DisplayedCounts(s, top[i].candidate);
    }
    if includeExplanations {
      forall i, j | 0 <= i < j < |items|
        ensures items[i].rankingExplanation.value.finalScore >= items[j].rankingExplanation.value.finalScore
      {
        assert FinalScore(top[i]) >= FinalScore(top[j]);
      }
    }
  }

  /**
   * A selection ready to be shown: sorted by score, no post twice, ranks 1..n, each
   * explanation recording its own candidate and score, each candidate hydrated from the
   * store and eligible, and in-network on the Following tab.
   */
  predicate ShowableSelection(s: Snapshot, top: seq<ScoredCandidate>, userId: string, seen: set<string>,
                              followingOnly: bool, now: real) {
    && SortedDesc(top, FinalScore)
    && (forall i, j :: 0 <= i < j < |top| ==> top[i].candidate.post.id != top[j].candidate.post.id)
    && forall i :: 0 <= i < |top| ==>
         && top[i].explanation.rank == i + 1
         && top[i].finalScore == top[i].explanation.finalScore
         && ExplainsOwnCandidate(top[i])
         && Hydrated(s, top[i].candidate)
         && Eligible(top[i].candidate, userId, MaxAgeHours, seen, now)
         && (followingOnly ==> top[i].candidate.source == InNetwork)
  }

  /** The feed's selection is showable and holds at most `limit` entries for a non-negative `limit`. */
  lemma FeedTopShowable(s: Snapshot, userId: string, prefs: AlgorithmPreferences, limit: int, seen: set<string>,
                        followingOnly: bool, now: real, tanh: real -> real)
    requires SnapshotValid(s) && ScorableAt(s, now)
    ensures var top := FeedTop(s, userId, prefs, limit, seen, followingOnly, now, tanh);
            && (limit >= 0 ==> |top| <= limit)
            && ShowableSelection(s, top, userId, seen, followingOnly, now)
  {
    FeedTopOrder(s, userId, prefs, limit, seen, followingOnly, now, tanh);
    FeedTopCandidates(s, userId, prefs, limit, seen, followingOnly, now, tanh);
  }

  /**
   * What the items of a feed hold: no post twice, each showing an eligible stored post
   * with its logged counts, each explained (or not) as requested, and with explanations
   * the scores non-increasing down the feed.
   */
  predicate FeedItemsShown(s: Snapshot, items: seq<FeedItem>, userId: string, seen: set<string>,
                           includeExplanations: bool, followingOnly: bool, now: real) {
    && (forall i, j :: 0 <= i < j < |items| ==> items[i].post.post.id != items[j].post.post.id)
    && (forall i :: 0 <= i < |items| ==> ItemShowsStoredPost(s, items[i], userId, seen, now))
    && (forall i :: 0 <= i < |items| ==> ItemExplained(items[i], i, includeExplanations, followingOnly))
    && (includeExplanations ==>
          forall i, j :: 0 <= i < j < |items| ==>
            items[i].rankingExplanation.value.finalScore >= items[j].rankingExplanation.value.finalScore)
  }

  /**
   * An item shows an eligible stored post with its logged like, repost, reply and quote
   * counts and its stored author, and carries a parent or quoted post exactly when that id
   * is non-empty and stored.
   */
  predicate ItemShowsStoredPost(s: Snapshot, item: FeedItem, userId: string, seen: set<string>, now: real) {
    var p := item.post.post;
    && p.id in s.posts
    && p == s.posts[p.id].(likeCount := CountEngagements(s.engagements, p.id, Like),
                           repostCount := CountEngagements(s.engagements, p.id, Repost),
                           replyCount := CountEngagements(s.engagements, p.id, Reply),
                           quoteCount := CountEngagements(s.engagements, p.id, Quote))
    && item.post.author == StoredAuthor(s, p.authorId)
    && p.createdAt >= now - MaxAgeHours * 3600.0 && p.authorId != userId && p.id !in seen
    && (item.parentPost.Some? <==> p.parentId.Some? && p.parentId.value != "" && p.parentId.value in s.posts)
    && (item.quotedPost.Some? <==> p.quotedId.Some? && p.quotedId.value != "" && p.quotedId.value in s.posts)
  }

  /** With explanations, the item at position `i` carries rank `i + 1` for its own post; without, none. */
  predicate ItemExplained(item: FeedItem, i: int, includeExplanations: bool, followingOnly: bool) {
    if includeExplanations then
      && item.rankingExplanation.Some?
      && item.rankingExplanation.value.rank == i + 1
      && item.rankingExplanation.value.postId == item.post.post.id
      && (followingOnly ==> item.rankingExplanation.value.source == InNetwork)
    else item.rankingExplanation == None
  }

  /**
   * What `get_feed` returns: no next cursor, at most `limit` items for a non-negative
   * `limit`, no post twice, each item showing an eligible stored post with its logged
   * counts, explained (or not) as requested, and scores non-increasing down the feed.
   */
  lemma FeedFacts(s: Snapshot, userId: string, prefs: AlgorithmPreferences, limit: int, seen: set<string>,
                  includeExplanations: bool, followingOnly: bool, now: real, tanh: real -> real)
    requires SnapshotValid(s) && ScorableAt(s, now)
    ensures var resp := Feed(s, userId, prefs, limit, seen, includeExplanations, followingOnly, now, tanh);
            var items := resp.items;
            && resp.nextCursor == None
            && (limit >= 0 ==> |items| <= limit)
            && FeedItemsShown(s, items, userId, seen, includeExplanations, followingOnly, now)
  {
    var top := FeedTop(s, userId, prefs, limit, seen, followingOnly, now, tanh);
    FeedTopShowable(s, userId, prefs, limit, seen, followingOnly, now, tanh);
    ItemsFacts(s, top, includeExplanations, userId, seen, followingOnly, now);
    assert Feed(s, userId, prefs, limit, seen, includeExplanations, followingOnly, now, tanh).items
        == FeedItems(s, top, includeExplanations);
  }

  /** Turning explanations off clears each item's explanation and changes nothing else, order included. */
  lemma ExplanationToggle(s: Snapshot, userId: string, prefs: AlgorithmPreferences, limit: int, seen: set<string>,
                          followingOnly: bool, now: real, tanh: real -> real)
    requires SnapshotValid(s) && ScorableAt(s, now)
    ensures var on := Feed(s, userId, prefs, limit, seen, true, followingOnly, now, tanh).items;
            var off := Feed(s, userId, prefs, limit, seen, false, followingOnly, now, tanh).items;
            |off| == |on| && forall i :: 0 <= i < |on| ==> off[i] == on[i].(rankingExplanation := None)
  {
    var top := FeedTop(s, userId, prefs, limit, seen, followingOnly, now, tanh);
    var on := FeedItems(s, top, true);
    var off := FeedItems(s, top, false);
    forall i | 0 <= i < |on| ensures off[i] == on[i].(rankingExplanation := None) {
      assert on[i] == FeedItemFor(s, top[i], true);
    }
  }

  /** Stages 3 to 5 of `get_feed`: score, rescore for author diversity, sort and keep the top `limit`. */
  method Rank(filtered: seq<Candidate>, prefs: AlgorithmPreferences, limit: int, now: real, tanh: real -> real)
    returns (top: seq<ScoredCandidate>)
    requires forall c :: c in filtered ==> RecencyDefined(c.post.createdAt, now)
    ensures top == Prefix(SortDesc(DiversityRescore(ScoreAll(filtered, prefs, now, tanh), prefs.diversityStrength),
                                   FinalScore), limit)
  {
    var scored := WeightedScorer(filtered, prefs, now, tanh);
    assert scored == ScoreAll(filtered, prefs, now, tanh);
    scored := AuthorDiversityScorer(scored, prefs);
    top := Prefix(SortDesc(scored, FinalScore), limit);
  }

  class HomeMixer {
    const store: Store

    constructor(store: Store)
      ensures this.store == store
    {
      this.store := store;
    }

    /**
     * `get_feed`: the response of the six stages on the current store, with missing
     * preferences replaced by the defaults and a missing seen set by the empty set.
     */
    method GetFeed(userId: string, preferences: Option<AlgorithmPreferences>, limit: int,
                   seenPostIds: Option<set<string>>, includeExplanations: bool, followingOnly: bool,
                   now: real, tanh: real -> real)
      returns (resp: FeedResponse)
      requires SnapshotValid(SnapshotOf(store)) && ScorableAt(SnapshotOf(store), now)
      ensures var prefs := if preferences.Some? then preferences.value else DefaultPreferences;
              var seen := if seenPostIds.Some? then seenPostIds.value else {};
              resp == Feed(SnapshotOf(store), userId, prefs, limit, seen, includeExplanations, followingOnly, now, tanh)
    {
      var prefs := PrefsOrDefault(preferences);
      var seen := SeenOrEmpty(seenPostIds);
      var top := Select(userId, prefs, limit, seen, followingOnly, now, tanh);
      var items := BuildItems(top, includeExplanations);
      resp := FeedResponse(items, None);
    }

    /** Stages 1 to 5 of `get_feed`: source, filter, score, rescore, sort and cut. */
    method Select(userId: string, prefs: AlgorithmPreferences, limit: int, seen: set<string>,
                  followingOnly: bool, now: real, tanh: real -> real)
      returns (top: seq<ScoredCandidate>)
      requires SnapshotValid(SnapshotOf(store)) && ScorableAt(SnapshotOf(store), now)
      ensures top == FeedTop(SnapshotOf(store), userId, prefs, limit, seen, followingOnly, now, tanh)
    {
      var s := SnapshotOf(store);
      var filtered := FilteredCandidates(userId, prefs, seen, followingOnly, now);
      FeedFilteredScorable(s, userId, seen, followingOnly, now);
      top := Rank(filtered, prefs, limit, now, tanh);
      assert FeedRescored(s, userId, prefs, seen, followingOnly, now, tanh)
          == DiversityRescore(ScoreAll(filtered, prefs, now, tanh), prefs.diversityStrength);
    }

    /** Stages 1 and 2 of `get_feed`: source the candidates, then apply the pre-scoring filters. */
    method FilteredCandidates(userId: string, prefs: AlgorithmPreferences, seen: set<string>,
                              followingOnly: bool, now: real)
      returns (filtered: seq<Candidate>)
      requires SnapshotValid(SnapshotOf(store))
      ensures filtered == FeedFiltered(SnapshotOf(store), userId, seen, followingOnly, now)
    {
      var candidates := Fetch(userId, followingOnly, prefs, now);
      filtered := ApplyPreScoringFilters(candidates, userId, MaxAgeHours, seen, now);
    }

    /** Stage 1 of `get_feed`: the Thunder source alone on the Following tab, both sources otherwise. */
    method Fetch(userId: string, followingOnly: bool, prefs: AlgorithmPreferences, now: real)
      returns (candidates: seq<Candidate>)
      requires SnapshotValid(SnapshotOf(store))
      ensures candidates == FeedCandidates(SnapshotOf(store), userId, followingOnly, now)
    {
      if followingOnly {
        candidates := ThunderSource(store, userId, FollowingTabLimit, now);
      } else {
        candidates := GetCandidates(store, userId, prefs.friendsVsGlobal, ForYouLimits, now);
      }
    }

    /** The item loop of `get_feed`: overwrite the counts, toggle the explanation, attach parent and quoted posts. */
    method BuildItems(top: seq<ScoredCandidate>, includeExplanations: bool) returns (items: seq<FeedItem>)
      ensures items == FeedItems(SnapshotOf(store), top, includeExplanations)
    {
      items := [];
      for i := 0 to |top|
        invariant |items| == i
        invariant forall k :: 0 <= k < i ==> items[k] == FeedItemFor(SnapshotOf(store), top[k], includeExplanations)
      {
        var sc := top[i];
        var post := sc.candidate.post;
        var counts := sc.candidate.engagementCounts;
        var shown := post.(likeCount := CountOf(counts, "like"), repostCount := CountOf(counts, "repost"),
                           replyCount := CountOf(counts, "reply"), quoteCount := CountOf(counts, "quote"));
        var postWithAuthor := PostWithAuthor(shown, sc.candidate.author);
        var parentPost := Lookup(post.parentId);
        var quotedPost := Lookup(post.quotedId);
        var explanation := if includeExplanations then Some(sc.explanation) else None;
        items := items + [FeedItem(postWithAuthor, explanation, parentPost, quotedPost)];
      }
    }

    /** `if ref: p = store.get_post(ref); if p: PostWithAuthor(p, store.get_user(p.author_id))`. */
    method Lookup(ref: Option<string>) returns (attached: Option<PostWithAuthor>)
      ensures attached == Attached(SnapshotOf(store), ref)
    {
      attached := None;
      if ref.Some? && ref.value != "" {
        var p := store.GetPost(ref.value);
        if p.Some? {
          var author := store.GetUser(p.value.authorId);
          attached := Some(PostWithAuthor(p.value, author));
        }
      }
    }
  }
}
