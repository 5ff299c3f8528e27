/**
 * The weighted multi-action scorer and the author-diversity rescorer.
 * Scores are reals: no claim is made about floating-point rounding.
 */
module Scorers {
  import opened Wrappers
  import opened Schemas
  import opened RankingTypes
  import opened Sequences

  function Min(a: real, b: real): real { if a <= b then a else b }

  /** Python's `max(a, b)` on numbers. */
  function Max(a: real, b: real): real { if a >= b then a else b }

  /** Positive actions with their weights, in the scorer's iteration order. */
  const PositiveWeights: seq<(string, real)> :=
    [("like", 1.0), ("repost", 1.2), ("reply", 1.0), ("quote", 0.8),
     ("click", 0.6), ("share", 0.9), ("follow_author", 0.7)]

  /** Negative actions with their weights, scored after the positive ones. */
  const NegativeWeights: seq<(string, real)> :=
    [("not_interested", -1.5), ("block_author", -2.0), ("mute_author", -1.8), ("report", -2.0)]

  /**
   * `1 + age/3600` is zero exactly when the post is stamped one hour after `now`;
   * the source then raises ZeroDivisionError, so scoring requires this.
   */
  predicate RecencyDefined(createdAt: real, now: real) {
    createdAt != now + 3600.0
  }

  /** `_recency_boost`: `1 / (1 + age/3600)` with `age = now - createdAt`. */
  function RecencyBoost(createdAt: real, now: real): (r: real)
    requires RecencyDefined(createdAt, now)
    ensures createdAt <= now ==> 0.0 < r <= 1.0
  {
    var d := 1.0 + (now - createdAt) / 3600.0;
    assert createdAt <= now ==> d >= 1.0;
    1.0 / d
  }

  /** `1/a <= 1/b` for `a >= b > 0`. */
  lemma ReciprocalAntitone(a: real, b: real)
    requires a >= b > 0.0
    ensures 1.0 / a <= 1.0 / b
  {
    assert (1.0 / a) * a == 1.0 == (1.0 / b) * b;
    assert (1.0 / a) * b <= (1.0 / a) * a;
    assert (1.0 / a) * b <= (1.0 / b) * b;
  }

  /** An older post never gets a larger recency boost than a newer one. */
  lemma RecencyBoostMonotone(older: real, newer: real, now: real)
    requires older <= newer <= now
    ensures RecencyBoost(older, now) <= RecencyBoost(newer, now)
  {
    ReciprocalAntitone(1.0 + (now - older) / 3600.0, 1.0 + (now - newer) / 3600.0);
  }

  /** `probs.get(action, 0)`. */
  function ProbOf(probs: map<string, real>, action: string): real {
    if action in probs then probs[action] else 0.0
  }

  /** The recency/popularity blend that every positive probability scales. */
  function BasePositive(c: Candidate, prefs: AlgorithmPreferences, now: real, tanh: real -> real): real
    requires RecencyDefined(c.post.createdAt, now)
  {
    var likes := CountOf(c.engagementCounts, "like") as real;
    var reposts := CountOf(c.engagementCounts, "repost") as real;
    var replies := CountOf(c.engagementCounts, "reply") as real;
    var pop := likes * 1.0 + reposts * 2.0 + replies * 1.5;
    var popScore := Min(1.0, tanh(pop / 10.0) * 0.5 + 0.5);
    var rv := prefs.recencyVsPopularity;
    (1.0 - rv) * RecencyBoost(c.post.createdAt, now) + rv * popScore
  }

  /**
   * `_heuristic_action_scores`: one "probability" per action. The positive ones scale a
   * blend of recency and bounded popularity; the negative ones are fixed constants times
   * `negativeSignalStrength`, whatever the candidate. `tanh` is `math.tanh`.
   */
  function HeuristicActionScores(c: Candidate, prefs: AlgorithmPreferences, now: real, tanh: real -> real)
    : (r: map<string, real>)
    requires RecencyDefined(c.post.createdAt, now)
    ensures ProbOf(r, "not_interested") == 0.05 * prefs.negativeSignalStrength
    ensures ProbOf(r, "block_author") == 0.02 * prefs.negativeSignalStrength
    ensures ProbOf(r, "mute_author") == 0.03 * prefs.negativeSignalStrength
    ensures ProbOf(r, "report") == 0.01 * prefs.negativeSignalStrength
  {
    var likes := CountOf(c.engagementCounts, "like") as real;
    var reposts := CountOf(c.engagementCounts, "repost") as real;
    var b := BasePositive(c, prefs, now, tanh);
    map[
      "like" := b * LikeFactor(likes),
      "repost" := b * RepostFactor(reposts),
      "reply" := b * 0.25,
      "quote" := b * 0.15,
      "click" := b * 0.5,
      "share" := b * 0.2,
      "follow_author" := b * 0.1,
      "not_interested" := 0.05 * prefs.negativeSignalStrength,
      "block_author" := 0.02 * prefs.negativeSignalStrength,
      "mute_author" := 0.03 * prefs.negativeSignalStrength,
      "report" := 0.01 * prefs.negativeSignalStrength
    ]
  }

  /** The like probability's factor: 0.4, growing linearly to 0.7 at 20 likes. */
  function LikeFactor(likes: real): real {
    0.4 + 0.3 * Min(1.0, likes / 20.0)
  }

  /** The repost probability's factor: 0.2, growing linearly to 0.4 at 10 reposts. */
  function RepostFactor(reposts: real): real {
    0.2 + 0.2 * Min(1.0, reposts / 10.0)
  }

  /**
   * Both count factors grow with their count, stay between their floor and cap for
   * non-negative counts, and reach the cap at 20 likes (10 reposts).
   */
  lemma CountFactorsGrow(x: real, y: real)
    requires 0.0 <= x <= y
    ensures LikeFactor(x) <= LikeFactor(y) && RepostFactor(x) <= RepostFactor(y)
    ensures 0.4 <= LikeFactor(x) <= 0.7 && 0.2 <= RepostFactor(x) <= 0.4
    ensures x >= 20.0 ==> LikeFactor(x) == 0.7
    ensures x >= 10.0 ==> RepostFactor(x) == 0.4
  {
    assert x / 20.0 <= y / 20.0 && x / 10.0 <= y / 10.0;
  }

  /**
   * With `recencyVsPopularity` in [0,1], a post that is not in the future and a `tanh`
   * bounded by 1, the blend lies in [0,1].
   */
  lemma BasePositiveInUnitRange(c: Candidate, prefs: AlgorithmPreferences, now: real, tanh: real -> real)
    requires c.post.createdAt <= now
    requires 0.0 <= prefs.recencyVsPopularity <= 1.0
    requires forall x :: -1.0 <= tanh(x) <= 1.0
    ensures 0.0 <= BasePositive(c, prefs, now, tanh) <= 1.0
  {
    var likes := CountOf(c.engagementCounts, "like") as real;
    var reposts := CountOf(c.engagementCounts, "repost") as real;
    var replies := CountOf(c.engagementCounts, "reply") as real;
    var pop := likes * 1.0 + reposts * 2.0 + replies * 1.5;
    var popScore := Min(1.0, tanh(pop / 10.0) * 0.5 + 0.5);
    assert -1.0 <= tanh(pop / 10.0) <= 1.0;
    BlendInUnitRange(prefs.recencyVsPopularity, RecencyBoost(c.post.createdAt, now), popScore);
  }

  /** A convex combination of two values in [0,1] is in [0,1]. */
  lemma BlendInUnitRange(w: real, x: real, y: real)
    requires 0.0 <= w <= 1.0 && 0.0 <= x <= 1.0 && 0.0 <= y <= 1.0
    ensures 0.0 <= (1.0 - w) * x + w * y <= 1.0
  {
    assert 0.0 <= (1.0 - w) * x <= 1.0 - w;
    assert 0.0 <= w * y <= w;
  }

  /** Scaling a value in [0,1] by a factor in [0,1] stays in [0,1]. */
  lemma ScaleInUnitRange(b: real, f: real)
    requires 0.0 <= b <= 1.0 && 0.0 <= f <= 1.0
    ensures 0.0 <= b * f <= 1.0
  {
    assert b * (1.0 - f) >= 0.0 by {
      if b > 0.0 && f < 1.0 {
        assert b * (1.0 - f) > 0.0;
      }
    }
    assert b * f >= 0.0 by {
      if b > 0.0 && f > 0.0 {
        assert b * f > 0.0;
      }
    }
  }

  /**
   * Under the same conditions and with non-negative like and repost counts, the like and
   * repost probabilities, whose factors grow with those counts, lie in [0,1].
   */
  lemma CountScaledProbabilitiesInUnitRange(c: Candidate, prefs: AlgorithmPreferences, now: real, tanh: real -> real)
    requires c.post.createdAt <= now
    requires 0.0 <= prefs.recencyVsPopularity <= 1.0
    requires CountOf(c.engagementCounts, "like") >= 0 && CountOf(c.engagementCounts, "repost") >= 0
    requires forall x :: -1.0 <= tanh(x) <= 1.0
    ensures var probs := HeuristicActionScores(c, prefs, now, tanh);
            0.0 <= ProbOf(probs, "like") <= 1.0 && 0.0 <= ProbOf(probs, "repost") <= 1.0
  {
    BasePositiveInUnitRange(c, prefs, now, tanh);
    CountScaledEntries(c, prefs, now, tanh);
    var b := BasePositive(c, prefs, now, tanh);
    var probs := HeuristicActionScores(c, prefs, now, tanh);
    CountScaledInUnitRange(b, CountOf(c.engagementCounts, "like") as real, CountOf(c.engagementCounts, "repost") as real,
                           ProbOf(probs, "like"), ProbOf(probs, "repost"));
  }

  lemma CountScaledInUnitRange(b: real, likes: real, reposts: real, like: real, repost: real)
    requires 0.0 <= b <= 1.0 && likes >= 0.0 && reposts >= 0.0
    requires like == b * LikeFactor(likes) && repost == b * RepostFactor(reposts)
    ensures 0.0 <= like <= 1.0 && 0.0 <= repost <= 1.0
  {
    CountFactorsGrow(likes, likes);
    CountFactorsGrow(reposts, reposts);
    ScaleInUnitRange(b, LikeFactor(likes));
    ScaleInUnitRange(b, RepostFactor(reposts));
  }

  /**
   * The like (repost) probability is the blend `b` times a factor of the like (repost)
   * count. For a non-negative blend and count it lies between 0.4b and 0.7b (0.2b and
   * 0.4b), and from 20 likes (10 reposts) on it is exactly 0.7b (0.4b).
   */
  lemma CountScaledProbs(c: Candidate, prefs: AlgorithmPreferences, now: real, tanh: real -> real)
    requires RecencyDefined(c.post.createdAt, now)
    ensures var probs := HeuristicActionScores(c, prefs, now, tanh);
            var b := BasePositive(c, prefs, now, tanh);
            var likes := CountOf(c.engagementCounts, "like") as real;
            var reposts := CountOf(c.engagementCounts, "repost") as real;
            && ProbOf(probs, "like") == b * LikeFactor(likes)
            && ProbOf(probs, "repost") == b * RepostFactor(reposts)
            && (likes >= 20.0 ==> ProbOf(probs, "like") == 0.7 * b)
            && (reposts >= 10.0 ==> ProbOf(probs, "repost") == 0.4 * b)
            && (b >= 0.0 && likes >= 0.0 ==> 0.4 * b <= ProbOf(probs, "like") <= 0.7 * b)
            && (b >= 0.0 && reposts >= 0.0 ==> 0.2 * b <= ProbOf(probs, "repost") <= 0.4 * b)
  {
    var probs := HeuristicActionScores(c, prefs, now, tanh);
    CountScaledEntries(c, prefs, now, tanh);
    CountScaledBounds(BasePositive(c, prefs, now, tanh),
                      CountOf(c.engagementCounts, "like") as real, CountOf(c.engagementCounts, "repost") as real,
                      ProbOf(probs, "like"), ProbOf(probs, "repost"));
  }

  /** The like and repost entries of the probability map. */
  lemma CountScaledEntries(c: Candidate, prefs: AlgorithmPreferences, now: real, tanh: real -> real)
    requires RecencyDefined(c.post.createdAt, now)
    ensures var probs := HeuristicActionScores(c, prefs, now, tanh);
            var b := BasePositive(c, prefs, now, tanh);
            && ProbOf(probs, "like") == b * LikeFactor(CountOf(c.engagementCounts, "like") as real)
            && ProbOf(probs, "repost") == b * RepostFactor(CountOf(c.engagementCounts, "repost") as real)
  {
  }

  /** The floor, cap and saturation of a blend scaled by the count factors. */
  lemma CountScaledBounds(b: real, likes: real, reposts: real, like: real, repost: real)
    requires like == b * LikeFactor(likes) && repost == b * RepostFactor(reposts)
    ensures likes >= 20.0 ==> like == 0.7 * b
    ensures reposts >= 10.0 ==> repost == 0.4 * b
    ensures b >= 0.0 && likes >= 0.0 ==> 0.4 * b <= like <= 0.7 * b
    ensures b >= 0.0 && reposts >= 0.0 ==> 0.2 * b <= repost <= 0.4 * b
  {
    if likes >= 0.0 {
      CountFactorsGrow(likes, likes);
      ScaledFactorBounds(b, LikeFactor(likes), 0.4, 0.7, like);
    }
    if reposts >= 0.0 {
      CountFactorsGrow(reposts, reposts);
      ScaledFactorBounds(b, RepostFactor(reposts), 0.2, 0.4, repost);
    }
  }

  /** A blend scaled by a factor between `lo` and `hi`: at the cap it is `hi * b`, and for `b >= 0` between `lo * b` and `hi * b`. */
  lemma ScaledFactorBounds(b: real, f: real, lo: real, hi: real, scaled: real)
    requires lo <= f <= hi && scaled == b * f
    ensures f == hi ==> scaled == hi * b
    ensures b >= 0.0 ==> lo * b <= scaled <= hi * b
  {
    if b >= 0.0 {
      ScaleBetween(b, f, lo, hi);
    }
  }

  /** A non-negative blend keeps the order of the factors it scales. */
  lemma ScaleBetween(b: real, f: real, lo: real, hi: real)
    requires b >= 0.0 && lo <= f <= hi
    ensures lo * b <= b * f <= hi * b
  {
    assert b * (f - lo) >= 0.0 by {
      if b > 0.0 && f > lo {
        assert b * (f - lo) > 0.0;
      }
    }
    assert b * (hi - f) >= 0.0 by {
      if b > 0.0 && hi > f {
        assert b * (hi - f) > 0.0;
      }
    }
  }

  /**
   * For a fixed non-negative blend, more likes (reposts) never lower the like (repost)
   * probability.
   */
  lemma CountScaledMonotone(b: real, x: real, y: real)
    requires b >= 0.0 && 0.0 <= x <= y
    ensures b * LikeFactor(x) <= b * LikeFactor(y) && b * RepostFactor(x) <= b * RepostFactor(y)
  {
    CountFactorsGrow(x, y);
    ScaleBetween(b, LikeFactor(x), LikeFactor(x), LikeFactor(y));
    ScaleBetween(b, RepostFactor(x), RepostFactor(x), RepostFactor(y));
  }

  /** The other positive probabilities, each the blend times its action's fixed factor. */
  lemma FixedScaledProbs(c: Candidate, prefs: AlgorithmPreferences, now: real, tanh: real -> real)
    requires RecencyDefined(c.post.createdAt, now)
    ensures var probs := HeuristicActionScores(c, prefs, now, tanh);
            var b := BasePositive(c, prefs, now, tanh);
            && ProbOf(probs, "reply") == b * 0.25 && ProbOf(probs, "quote") == b * 0.15
            && ProbOf(probs, "click") == b * 0.5 && ProbOf(probs, "share") == b * 0.2
            && ProbOf(probs, "follow_author") == b * 0.1
  {
  }

  /** Under the same conditions the reply, quote, click, share and follow probabilities lie in [0,1]. */
  lemma FixedScaledProbabilitiesInUnitRange(c: Candidate, prefs: AlgorithmPreferences, now: real, tanh: real -> real)
    requires c.post.createdAt <= now
    requires 0.0 <= prefs.recencyVsPopularity <= 1.0
    requires forall x :: -1.0 <= tanh(x) <= 1.0
    ensures var probs := HeuristicActionScores(c, prefs, now, tanh);
            && 0.0 <= ProbOf(probs, "reply") <= 1.0 && 0.0 <= ProbOf(probs, "quote") <= 1.0
            && 0.0 <= ProbOf(probs, "click") <= 1.0 && 0.0 <= ProbOf(probs, "share") <= 1.0
            && 0.0 <= ProbOf(probs, "follow_author") <= 1.0
  {
    BasePositiveInUnitRange(c, prefs, now, tanh);
    FixedScaledProbs(c, prefs, now, tanh);
    var b := BasePositive(c, prefs, now, tanh);
    ScaleInUnitRange(b, 0.25);
    ScaleInUnitRange(b, 0.15);
    ScaleInUnitRange(b, 0.5);
    ScaleInUnitRange(b, 0.2);
    ScaleInUnitRange(b, 0.1);
  }

  /** `w.get(t, 0.1)`: the preference weight of one topic value. */
  function TopicWeight(t: string, prefs: AlgorithmPreferences): real {
    if t == "tech" then prefs.techWeight
    else if t == "politics" then prefs.politicsWeight
    else if t == "culture" then prefs.cultureWeight
    else if t == "memes" then prefs.memesWeight
    else if t == "finance" then prefs.financeWeight
    else 0.1
  }

  function TopicWeightSum(ts: seq<string>, prefs: AlgorithmPreferences): real
    decreases |ts|
  {
    if ts == [] then 0.0 else TopicWeightSum(ts[..|ts| - 1], prefs) + TopicWeight(ts[|ts| - 1], prefs)
  }

  /** `_topic_boost`: 0.5 with no topics, otherwise the mean topic weight. */
  function TopicBoost(postTopics: seq<string>, prefs: AlgorithmPreferences): (r: real)
    ensures postTopics == [] ==> r == 0.5
    ensures postTopics != [] ==> r * (|postTopics| as real) == TopicWeightSum(postTopics, prefs)
  {
    if postTopics == [] then 0.5
    else
      var n := if 1 < |postTopics| then |postTopics| else 1;
      TopicWeightSum(postTopics, prefs) / (n as real)
  }

  /** Each topic weight within [0,1] (0.1 for the unweighted topics) keeps the sum within [0, n]. */
  lemma {:induction false} TopicWeightSumBounds(ts: seq<string>, prefs: AlgorithmPreferences)
    requires 0.0 <= prefs.techWeight <= 1.0 && 0.0 <= prefs.politicsWeight <= 1.0
    requires 0.0 <= prefs.cultureWeight <= 1.0 && 0.0 <= prefs.memesWeight <= 1.0
    requires 0.0 <= prefs.financeWeight <= 1.0
    ensures 0.0 <= TopicWeightSum(ts, prefs) <= |ts| as real
    decreases |ts|
  {
    if ts != [] {
      TopicWeightSumBounds(ts[..|ts| - 1], prefs);
    }
  }

  /** With topic weights in [0,1], the topic boost is in [0,1]. */
  lemma TopicBoostInUnitRange(ts: seq<string>, prefs: AlgorithmPreferences)
    requires 0.0 <= prefs.techWeight <= 1.0 && 0.0 <= prefs.politicsWeight <= 1.0
    requires 0.0 <= prefs.cultureWeight <= 1.0 && 0.0 <= prefs.memesWeight <= 1.0
    requires 0.0 <= prefs.financeWeight <= 1.0
    ensures 0.0 <= TopicBoost(ts, prefs) <= 1.0
  {
    TopicWeightSumBounds(ts, prefs);
    if ts != [] {
      assert TopicBoost(ts, prefs) == TopicWeightSum(ts, prefs) / (|ts| as real);
      QuotientInUnitRange(TopicWeightSum(ts, prefs), |ts| as real);
    }
  }

  /** A sum within [0, n] divided by n >= 1 lies in [0,1]. */
  lemma QuotientInUnitRange(sum: real, n: real)
    requires n >= 1.0 && 0.0 <= sum <= n
    ensures 0.0 <= sum / n <= 1.0
  {
    assert (sum / n) * n == sum;
  }

  /** The ActionScore row of one weight-table entry: contribution = weight x probability. */
  function ActionRow(e: (string, real), probs: map<string, real>): (r: ActionScore)
    ensures r.action == e.0 && r.weight == e.1 && r.probability == ProbOf(probs, e.0)
    ensures r.contribution == r.weight * r.probability
  {
    ActionScore(e.0, e.1, ProbOf(probs, e.0), e.1 * ProbOf(probs, e.0))
  }

  /** The ActionScore rows for a weight table, in table order. */
  function ActionScoresFor(table: seq<(string, real)>, probs: map<string, real>): (r: seq<ActionScore>)
    ensures |r| == |table| && forall k :: 0 <= k < |r| ==> r[k] == ActionRow(table[k], probs)
  {
    seq(|table|, k requires 0 <= k < |table| => ActionRow(table[k], probs))
  }

  function SumContributions(rows: seq<ActionScore>): real
    decreases |rows|
  {
    if rows == [] then 0.0 else SumContributions(rows[..|rows| - 1]) + rows[|rows| - 1].contribution
  }

  /** `1 + 0.5 (1 - friends_vs_global)` for in-network candidates, 1 otherwise. */
  function InNetworkBoost(source: NetworkSource, prefs: AlgorithmPreferences): real {
    if source == InNetwork then 1.0 + (1.0 - prefs.friendsVsGlobal) * 0.5 else 1.0
  }

  /** The pre-diversity score recomputed from an explanation's recorded components. */
  function ExplainedScore(e: RankingExplanation): real {
    SumContributions(e.actionScores) * e.inNetworkBoost + (0.2 * (e.topicBoost - 0.5) + 0.1 * (e.recencyBoost - 0.5))
  }

  function FinalScore(s: ScoredCandidate): real { s.finalScore }

  /** Every action in the score tables, positive first. */
  const ScoreTable: seq<(string, real)> := PositiveWeights + NegativeWeights

  /**
   * The scored candidate `weighted_scorer` produces for one input: one ActionScore per
   * table entry in table order, each contributing weight x probability; an in-network
   * boost of `1 + 0.5 (1 - friendsVsGlobal)` for in-network candidates and 1 otherwise;
   * the candidate's topic and recency boosts; and a score that these recorded components
   * reconstruct exactly, at rank 0 with no diversity penalty.
   */
  function ScoreCandidate(c: Candidate, prefs: AlgorithmPreferences, now: real, tanh: real -> real)
    : (sc: ScoredCandidate)
    requires RecencyDefined(c.post.createdAt, now)
    ensures sc.candidate == c
    ensures sc.explanation.postId == c.post.id && sc.explanation.source == c.source
    ensures sc.explanation.rank == 0 && sc.explanation.diversityPenalty == 0.0
    ensures sc.explanation.probs == HeuristicActionScores(c, prefs, now, tanh)
    ensures sc.explanation.actionScores == ActionScoresFor(ScoreTable, sc.explanation.probs)
    ensures c.source == InNetwork ==> sc.explanation.inNetworkBoost == 1.0 + 0.5 * (1.0 - prefs.friendsVsGlobal)
    ensures c.source != InNetwork ==> sc.explanation.inNetworkBoost == 1.0
    ensures sc.explanation.topicBoost == TopicBoost(Map(c.post.topics, TopicValue), prefs)
    ensures sc.explanation.recencyBoost == RecencyBoost(c.post.createdAt, now)
    ensures sc.finalScore == sc.explanation.finalScore == ExplainedScore(sc.explanation)
  {
    var probs := HeuristicActionScores(c, prefs, now, tanh);
    var topicBoost := TopicBoost(Map(c.post.topics, TopicValue), prefs);
    var recencyBoost := RecencyBoost(c.post.createdAt, now);
    var rows := ActionScoresFor(ScoreTable, probs);
    var boost := InNetworkBoost(c.source, prefs);
    var weighted := SumContributions(rows) * boost + (0.2 * (topicBoost - 0.5) + 0.1 * (recencyBoost - 0.5));
    ScoredCandidate(c, weighted,
      RankingExplanation(c.post.id, weighted, 0, c.source, rows, 0.0, recencyBoost, topicBoost, boost, probs))
  }

  /**
   * The inner loop of `weighted_scorer`: walk the table, record one row per action and
   * accumulate the weighted sum.
   */
  method AccumulateActions(table: seq<(string, real)>, probs: map<string, real>)
    returns (rows: seq<ActionScore>, weighted: real)
    ensures rows == ActionScoresFor(table, probs)
    ensures weighted == SumContributions(rows)
  {
    weighted := 0.0;
    rows := [];
    for k := 0 to |table|
      invariant |rows| == k && forall j :: 0 <= j < k ==> rows[j] == ActionRow(table[j], probs)
      invariant weighted == SumContributions(rows)
    {
      var action, w := table[k].0, table[k].1;
      var p := ProbOf(probs, action);
      var contrib := w * p;
      var row := ActionScore(action, w, p, contrib);
      assert row == ActionRow(table[k], probs);
      SumSnoc(rows, row);
      weighted := weighted + contrib;
      rows := rows + [row];
    }
  }

  /** Summing one more row adds its contribution. */
  lemma SumSnoc(rows: seq<ActionScore>, x: ActionScore)
    ensures SumContributions(rows + [x]) == SumContributions(rows) + x.contribution
  {
    assert (rows + [x])[..|rows|] == rows;
  }

  /** The body of `weighted_scorer`'s outer loop, for one candidate. */
  method ScoreOne(c: Candidate, prefs: AlgorithmPreferences, now: real, tanh: real -> real)
    returns (sc: ScoredCandidate)
    requires RecencyDefined(c.post.createdAt, now)
    ensures sc == ScoreCandidate(c, prefs, now, tanh)
  {
    var probs := HeuristicActionScores(c, prefs, now, tanh);
    var topicBoost := TopicBoost(Map(c.post.topics, TopicValue), prefs);
    var recencyBoost := RecencyBoost(c.post.createdAt, now);
    var rows, weighted := AccumulateActions(ScoreTable, probs);
    var boost := InNetworkBoost(c.source, prefs);
    weighted := weighted * boost;
    weighted := weighted + (0.2 * (topicBoost - 0.5) + 0.1 * (recencyBoost - 0.5));
    var expl := RankingExplanation(c.post.id, weighted, 0, c.source, rows, 0.0, recencyBoost, topicBoost, boost, probs);
    sc := ScoredCandidate(c, weighted, expl);
  }

  /**
   * `weighted_scorer`: one scored candidate per input, in input order, each accumulated
   * action by action exactly as `ScoreCandidate` describes.
   */
  method WeightedScorer(cs: seq<Candidate>, prefs: AlgorithmPreferences, now: real, tanh: real -> real)
    returns (out: seq<ScoredCandidate>)
    requires forall c :: c in cs ==> RecencyDefined(c.post.createdAt, now)
    ensures |out| == |cs|
    ensures forall i :: 0 <= i < |cs| ==> out[i] == ScoreCandidate(cs[i], prefs, now, tanh)
  {
    out := [];
    for i := 0 to |cs|
      invariant |out| == i
      invariant forall k :: 0 <= k < i ==> out[k] == ScoreCandidate(cs[k], prefs, now, tanh)
    {
      var sc := ScoreOne(cs[i], prefs, now, tanh);
      out := out + [sc];
    }
  }

  function AuthorOf(s: ScoredCandidate): string { s.candidate.post.authorId }

  function CandidateOf(s: ScoredCandidate): Candidate { s.candidate }

  /** How many entries of `s` are by author `a`. */
  function AuthorOccurrences(s: seq<ScoredCandidate>, a: string): nat
    decreases |s|
  {
    if s == [] then 0
    else AuthorOccurrences(s[..|s| - 1], a) + (if AuthorOf(s[|s| - 1]) == a then 1 else 0)
  }

  /**
   * The rescored entry at 0-based position `index` of the descending list, whose author
   * has already appeared `earlier` times: penalty `earlier * strength * 0.15`, score
   * clamped at 0, recorded in both the candidate and its explanation.
   */
  function PenalizeOne(s: ScoredCandidate, index: int, earlier: nat, strength: real): ScoredCandidate {
    var penalty := (earlier as real) * strength * 0.15;
    var newScore := Max(0.0, s.finalScore - penalty);
    ScoredCandidate(s.candidate, newScore,
      s.explanation.(finalScore := newScore, rank := index + 1, diversityPenalty := penalty))
  }

  /**
   * The first pass of `author_diversity_scorer` over a list already in descending score
   * order: each entry is penalised by how often its author appeared before it.
   */
  function Penalize(s: seq<ScoredCandidate>, strength: real): (r: seq<ScoredCandidate>)
    ensures |r| == |s|
    decreases |s|
  {
    if s == [] then []
    else
      var s' := s[..|s| - 1];
      var last := s[|s| - 1];
      Penalize(s', strength) + [PenalizeOne(last, |s'|, AuthorOccurrences(s', AuthorOf(last)), strength)]
  }

  /** Entry `i` of `Penalize(s)` is `s[i]` penalised for the earlier entries by the same author. */
  lemma {:induction false} PenalizeAt(s: seq<ScoredCandidate>, strength: real, i: int)
    requires 0 <= i < |s|
    ensures Penalize(s, strength)[i] == PenalizeOne(s[i], i, AuthorOccurrences(s[..i], AuthorOf(s[i])), strength)
    decreases |s|
  {
    if i < |s| - 1 {
      PenalizeAt(s[..|s| - 1], strength, i);
      assert s[..|s| - 1][..i] == s[..i];
    }
  }

  /** Penalising keeps every candidate in place. */
  lemma PenalizeCandidates(s: seq<ScoredCandidate>, strength: real)
    ensures Map(Penalize(s, strength), CandidateOf) == Map(s, CandidateOf)
  {
    forall i | 0 <= i < |s| ensures Penalize(s, strength)[i].candidate == s[i].candidate {
      PenalizeAt(s, strength, i);
    }
  }

  /**
   * An entry whose author appeared `earlier` times before it is penalised by
   * `earlier * strength * 0.15`, so an author's first entry is not penalised; the new score
   * is never negative and, for a non-negative strength, never above `max(0, old)`.
   */
  lemma PenalizeOneFacts(s: ScoredCandidate, index: int, earlier: nat, strength: real)
    ensures var p := PenalizeOne(s, index, earlier, strength);
            && p.candidate == s.candidate
            && p.explanation.rank == index + 1
            && ExplainedScore(p.explanation) == ExplainedScore(s.explanation)
            && (earlier == 0 ==> p.explanation.diversityPenalty == 0.0)
            && p.finalScore == p.explanation.finalScore == Max(0.0, s.finalScore - p.explanation.diversityPenalty)
            && p.finalScore >= 0.0
            && (strength >= 0.0 ==> p.explanation.diversityPenalty >= 0.0 && p.finalScore <= Max(0.0, s.finalScore))
  {
    if strength >= 0.0 {
      assert (earlier as real) * strength >= 0.0;
    }
  }

  /** The pre-diversity explanation reconstructs the score. */
  predicate ScoredConsistently(s: ScoredCandidate) {
    s.finalScore == s.explanation.finalScore == ExplainedScore(s.explanation)
  }

  /** After the diversity step the score is the reconstructed score minus the penalty, floored at 0. */
  predicate RescoredConsistently(s: ScoredCandidate) {
    s.finalScore == s.explanation.finalScore == Max(0.0, ExplainedScore(s.explanation) - s.explanation.diversityPenalty)
  }

  /** Numbering the ranks changes neither candidates, scores, order nor consistency. */
  lemma AssignRanksFacts(s: seq<ScoredCandidate>)
    ensures Map(AssignRanks(s), CandidateOf) == Map(s, CandidateOf)
    ensures Map(AssignRanks(s), FinalScore) == Map(s, FinalScore)
    ensures SortedDesc(s, FinalScore) ==> SortedDesc(AssignRanks(s), FinalScore)
    ensures (forall i :: 0 <= i < |s| ==> RescoredConsistently(s[i])) ==>
              forall i :: 0 <= i < |s| ==> RescoredConsistently(AssignRanks(s)[i])
  {
    var r := AssignRanks(s);
    assert forall i :: 0 <= i < |s| ==> FinalScore(r[i]) == FinalScore(s[i]);
  }

  /** The second loop of `author_diversity_scorer`: rank `i + 1` at position `i`. */
  function AssignRanks(s: seq<ScoredCandidate>): (r: seq<ScoredCandidate>)
    ensures |r| == |s|
    ensures forall i :: 0 <= i < |s| ==> r[i] == s[i].(explanation := s[i].explanation.(rank := i + 1))
  {
    seq(|s|, i requires 0 <= i < |s| => s[i].(explanation := s[i].explanation.(rank := i + 1)))
  }

  /** The list `author_diversity_scorer` returns. */
  function DiversityRescore(scored: seq<ScoredCandidate>, strength: real): seq<ScoredCandidate> {
    AssignRanks(SortDesc(Penalize(SortDesc(scored, FinalScore), strength), FinalScore))
  }

  /**
   * `author_diversity_scorer`'s result is a permutation of its input's candidates, sorted
   * non-increasingly by the new score and ranked exactly 1..N.
   */
  lemma DiversityRescoreOrder(scored: seq<ScoredCandidate>, strength: real)
    ensures var r := DiversityRescore(scored, strength);
            && |r| == |scored|
            && SortedDesc(r, FinalScore)
            && (forall i :: 0 <= i < |r| ==> r[i].explanation.rank == i + 1)
            && multiset(Map(r, CandidateOf)) == multiset(Map(scored, CandidateOf))
  {
    var byScore := SortDesc(scored, FinalScore);
    var pen := Penalize(byScore, strength);
    var byNew := SortDesc(pen, FinalScore);
    var r := AssignRanks(byNew);
    assert r == DiversityRescore(scored, strength);
    AssignRanksFacts(byNew);
    assert SortedDesc(byNew, FinalScore);
    MapSortDesc(pen, FinalScore, CandidateOf);
    PenalizeCandidates(byScore, strength);
    MapSortDesc(scored, FinalScore, CandidateOf);
    assert multiset(Map(r, CandidateOf)) == multiset(Map(byNew, CandidateOf))
           == multiset(Map(pen, CandidateOf)) == multiset(Map(byScore, CandidateOf));
  }

  /** Penalising a list of explained scores yields non-negative scores explained up to the penalty. */
  lemma PenalizeExplained(s: seq<ScoredCandidate>, strength: real)
    requires forall i :: 0 <= i < |s| ==> ScoredConsistently(s[i])
    ensures forall i :: 0 <= i < |s| ==>
              Penalize(s, strength)[i].finalScore >= 0.0 && RescoredConsistently(Penalize(s, strength)[i])
  {
    forall i | 0 <= i < |s|
      ensures Penalize(s, strength)[i].finalScore >= 0.0 && RescoredConsistently(Penalize(s, strength)[i])
    {
      PenalizeAt(s, strength, i);
      PenalizeOneFacts(s[i], i, AuthorOccurrences(s[..i], AuthorOf(s[i])), strength);
    }
  }

  /**
   * When every input score is explained by its components, every output score is
   * non-negative and equals the explained score minus the recorded penalty, floored at 0.
   */
  lemma DiversityRescoreExplained(scored: seq<ScoredCandidate>, strength: real)
    requires forall s :: s in scored ==> ScoredConsistently(s)
    ensures var r := DiversityRescore(scored, strength);
            forall i :: 0 <= i < |r| ==> r[i].finalScore >= 0.0 && RescoredConsistently(r[i])
  {
    var byScore := SortDesc(scored, FinalScore);
    forall i | 0 <= i < |byScore| ensures ScoredConsistently(byScore[i]) {
      assert byScore[i] in multiset(scored);
    }
    PenalizeExplained(byScore, strength);
    var pen := Penalize(byScore, strength);
    var byNew := SortDesc(pen, FinalScore);
    forall i | 0 <= i < |byNew| ensures byNew[i].finalScore >= 0.0 && RescoredConsistently(byNew[i]) {
      assert byNew[i] in multiset(pen);
    }
    AssignRanksFacts(byNew);
  }

  /**
   * An entry rescored from one of `scored`: a non-negative penalty, a score at most the
   * explained score floored at 0, and an explained score equal to that of an input entry
   * for the same candidate.
   */
  predicate BoundedRescore(x: ScoredCandidate, scored: seq<ScoredCandidate>) {
    && 0.0 <= x.explanation.diversityPenalty
    && x.finalScore <= Max(0.0, ExplainedScore(x.explanation))
    && exists j :: 0 <= j < |scored| && scored[j].candidate == x.candidate
                   && ExplainedScore(scored[j].explanation) == ExplainedScore(x.explanation)
  }

  /**
   * With a non-negative diversity strength and explained input scores, rescoring only
   * lowers: every output entry carries a non-negative penalty, scores at most
   * `max(0, old)`, and keeps the explained score of its candidate's input entry.
   */
  lemma DiversityRescoreBounded(scored: seq<ScoredCandidate>, strength: real)
    requires strength >= 0.0
    requires forall s :: s in scored ==> ScoredConsistently(s)
    ensures forall i :: 0 <= i < |DiversityRescore(scored, strength)| ==>
              BoundedRescore(DiversityRescore(scored, strength)[i], scored)
  {
    var byScore := SortDesc(scored, FinalScore);
    var pen := Penalize(byScore, strength);
    forall k | 0 <= k < |pen| ensures BoundedRescore(pen[k], scored) {
      PenalizeBounded(byScore, scored, strength, k);
    }
    var byNew := SortDesc(pen, FinalScore);
    assert AssignRanks(byNew) == DiversityRescore(scored, strength);
    SortKeepsBounded(pen, scored);
    RanksKeepBounded(byNew, scored);
  }

  /** Re-sorting bounded rescorings gives bounded rescorings. */
  lemma SortKeepsBounded(pen: seq<ScoredCandidate>, scored: seq<ScoredCandidate>)
    requires forall k :: 0 <= k < |pen| ==> BoundedRescore(pen[k], scored)
    ensures forall i :: 0 <= i < |SortDesc(pen, FinalScore)| ==> BoundedRescore(SortDesc(pen, FinalScore)[i], scored)
  {
    var byNew := SortDesc(pen, FinalScore);
    forall i | 0 <= i < |byNew| ensures BoundedRescore(byNew[i], scored) {
      var k := SortedEntryFrom(byNew, pen, i);
    }
  }

  /** Numbering the ranks of bounded rescorings keeps them bounded. */
  lemma RanksKeepBounded(byNew: seq<ScoredCandidate>, scored: seq<ScoredCandidate>)
    requires forall i :: 0 <= i < |byNew| ==> BoundedRescore(byNew[i], scored)
    ensures forall i :: 0 <= i < |AssignRanks(byNew)| ==> BoundedRescore(AssignRanks(byNew)[i], scored)
  {
    var r := AssignRanks(byNew);
    forall i | 0 <= i < |r| ensures BoundedRescore(r[i], scored) {
      RankedBounded(byNew[i], scored, i + 1);
    }
  }

  /** Numbering the rank keeps a bounded rescoring bounded. */
  lemma RankedBounded(x: ScoredCandidate, scored: seq<ScoredCandidate>, rank: int)
    requires BoundedRescore(x, scored)
    ensures BoundedRescore(x.(explanation := x.explanation.(rank := rank)), scored)
  {
    var y := x.(explanation := x.explanation.(rank := rank));
    assert ExplainedScore(y.explanation) == ExplainedScore(x.explanation);
  }

  /** Entry `k` of the penalised sorted input is a bounded rescoring of an input entry. */
  lemma PenalizeBounded(byScore: seq<ScoredCandidate>, scored: seq<ScoredCandidate>, strength: real, k: int)
    requires byScore == SortDesc(scored, FinalScore) && strength >= 0.0 && 0 <= k < |byScore|
    requires forall s :: s in scored ==> ScoredConsistently(s)
    ensures BoundedRescore(Penalize(byScore, strength)[k], scored)
  {
    var x := byScore[k];
    var j := SortedEntryFrom(byScore, scored, k);
    assert ScoredConsistently(scored[j]);
    var e := AuthorOccurrences(byScore[..k], AuthorOf(x));
    PenalizeAt(byScore, strength, k);
    PenalizeOneFacts(x, k, e, strength);
    BoundedRescoreIntro(PenalizeOne(x, k, e, strength), scored, j);
  }

  /** Every entry of the sorted list is an entry of the input. */
  lemma SortedEntryFrom(byScore: seq<ScoredCandidate>, scored: seq<ScoredCandidate>, k: int) returns (j: int)
    requires byScore == SortDesc(scored, FinalScore) && 0 <= k < |byScore|
    ensures 0 <= j < |scored| && scored[j] == byScore[k]
  {
    assert byScore[k] in multiset(scored);
    j :| 0 <= j < |scored| && scored[j] == byScore[k];
  }

  /** The witness for `BoundedRescore`. */
  lemma BoundedRescoreIntro(x: ScoredCandidate, scored: seq<ScoredCandidate>, j: int)
    requires 0 <= j < |scored| && scored[j].candidate == x.candidate
    requires ExplainedScore(scored[j].explanation) == ExplainedScore(x.explanation)
    requires 0.0 <= x.explanation.diversityPenalty
    requires x.finalScore <= Max(0.0, scored[j].finalScore)
    requires scored[j].finalScore == ExplainedScore(scored[j].explanation)
    ensures BoundedRescore(x, scored)
  {
  }

  /** The explanation names the candidate's own post and provenance. */
  predicate ExplainsOwnCandidate(s: ScoredCandidate) {
    s.explanation.postId == s.candidate.post.id && s.explanation.source == s.candidate.source
  }

  /** Rescoring rewrites scores, penalties and ranks only: every explanation still names its candidate. */
  lemma DiversityRescoreKeepsSubjects(scored: seq<ScoredCandidate>, strength: real)
    requires forall s :: s in scored ==> ExplainsOwnCandidate(s)
    ensures var r := DiversityRescore(scored, strength);
            forall i :: 0 <= i < |r| ==> ExplainsOwnCandidate(r[i])
  {
    var byScore := SortDesc(scored, FinalScore);
    var pen := Penalize(byScore, strength);
    forall i | 0 <= i < |pen| ensures ExplainsOwnCandidate(pen[i]) {
      assert byScore[i] in multiset(scored);
      PenalizeAt(byScore, strength, i);
      assert ExplainsOwnCandidate(byScore[i]);
    }
    var byNew := SortDesc(pen, FinalScore);
    forall i | 0 <= i < |byNew| ensures ExplainsOwnCandidate(byNew[i]) {
      assert byNew[i] in multiset(pen);
      var k :| 0 <= k < |pen| && pen[k] == byNew[i];
    }
    var r := AssignRanks(byNew);
    assert r == DiversityRescore(scored, strength);
    forall i | 0 <= i < |r| ensures ExplainsOwnCandidate(r[i]) {
      assert r[i] == byNew[i].(explanation := byNew[i].explanation.(rank := i + 1));
    }
  }

  /**
   * The first loop of `author_diversity_scorer`: count each author in a dictionary and
   * penalise an entry by the count before it.
   */
  method PenalizeRepeatedAuthors(byScore: seq<ScoredCandidate>, strength: real)
    returns (newList: seq<ScoredCandidate>)
    ensures newList == Penalize(byScore, strength)
  {
    var authorCounts: map<string, int> := map[];
    newList := [];
    for i := 0 to |byScore|
      invariant newList == Penalize(byScore[..i], strength)
      invariant forall a :: CountOf(authorCounts, a) == AuthorOccurrences(byScore[..i], a)
    {
      var s := byScore[i];
      var aid := s.candidate.post.authorId;
      var before := CountOf(authorCounts, aid);
      PenalizeStep(byScore, i, authorCounts, strength);
      CountStep(authorCounts, byScore[..i], s);
      authorCounts := authorCounts[aid := before + 1];
      var penalty := ((authorCounts[aid] - 1) as real) * strength * 0.15;
      var newScore := Max(0.0, s.finalScore - penalty);
      var expl := s.explanation.(finalScore := newScore, rank := i + 1, diversityPenalty := penalty);
      assert ScoredCandidate(s.candidate, newScore, expl) == PenalizeOne(s, i, before, strength);
      newList := newList + [ScoredCandidate(s.candidate, newScore, expl)];
    }
    assert byScore[..|byScore|] == byScore;
  }

  /** One step of the penalising loop: the next entry's penalised copy is appended. */
  lemma PenalizeStep(byScore: seq<ScoredCandidate>, i: int, counts: map<string, int>, strength: real)
    requires 0 <= i < |byScore|
    requires forall a :: CountOf(counts, a) == AuthorOccurrences(byScore[..i], a)
    ensures CountOf(counts, AuthorOf(byScore[i])) >= 0
    ensures Penalize(byScore[..i + 1], strength)
            == Penalize(byScore[..i], strength) + [PenalizeOne(byScore[i], i, CountOf(counts, AuthorOf(byScore[i])), strength)]
    ensures byScore[..i + 1] == byScore[..i] + [byScore[i]]
  {
    TakeSnoc(byScore, i);
    PenalizeSnoc(byScore[..i], byScore[i], strength);
  }

  /** Penalising one more entry appends its penalised copy. */
  lemma PenalizeSnoc(s: seq<ScoredCandidate>, x: ScoredCandidate, strength: real)
    ensures Penalize(s + [x], strength)
            == Penalize(s, strength) + [PenalizeOne(x, |s|, AuthorOccurrences(s, AuthorOf(x)), strength)]
  {
    assert (s + [x])[..|s|] == s;
  }

  /** Bumping the author's entry keeps the dictionary equal to the occurrence counts. */
  lemma CountStep(counts: map<string, int>, s: seq<ScoredCandidate>, x: ScoredCandidate)
    requires forall a :: CountOf(counts, a) == AuthorOccurrences(s, a)
    ensures forall a :: CountOf(counts[AuthorOf(x) := CountOf(counts, AuthorOf(x)) + 1], a) == AuthorOccurrences(s + [x], a)
  {
    assert (s + [x])[..|s|] == s;
  }

  /** The second loop of `author_diversity_scorer`: number the ranks from 1 in list order. */
  method NumberRanks(byNew: seq<ScoredCandidate>) returns (out: seq<ScoredCandidate>)
    ensures out == AssignRanks(byNew)
  {
    out := byNew;
    for r := 0 to |byNew|
      invariant |out| == |byNew|
      invariant forall k :: 0 <= k < r ==> out[k] == byNew[k].(explanation := byNew[k].explanation.(rank := k + 1))
      invariant forall k :: r <= k < |out| ==> out[k] == byNew[k]
    {
      out := out[r := out[r].(explanation := out[r].explanation.(rank := r + 1))];
    }
  }

  /**
   * `author_diversity_scorer`: sort by score, penalise repeated authors, re-sort by the
   * new score, then number the ranks from 1.
   */
  method AuthorDiversityScorer(scored: seq<ScoredCandidate>, prefs: AlgorithmPreferences)
    returns (out: seq<ScoredCandidate>)
    ensures out == DiversityRescore(scored, prefs.diversityStrength)
    ensures |out| == |scored| && SortedDesc(out, FinalScore)
    ensures forall i :: 0 <= i < |out| ==> out[i].explanation.rank == i + 1
    ensures multiset(Map(out, CandidateOf)) == multiset(Map(scored, CandidateOf))
  {
    var byScore := SortDesc(scored, FinalScore);
    var newList := PenalizeRepeatedAuthors(byScore, prefs.diversityStrength);
    var byNew := SortDesc(newList, FinalScore);
    out := NumberRanks(byNew);
    DiversityRescoreOrder(scored, prefs.diversityStrength);
  }
}
