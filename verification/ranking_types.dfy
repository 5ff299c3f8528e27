/** The pipeline's internal records: a candidate post and a scored candidate. */
module RankingTypes {
  import opened Wrappers
  import opened Schemas
  import opened Sequences

  /** A post under consideration, with its author (if known), provenance and engagement tallies. */
  datatype Candidate = Candidate(
    post: Post,
    author: Option<User>,
    source: NetworkSource,
    engagementCounts: map<string, int>)

  datatype ScoredCandidate = ScoredCandidate(
    candidate: Candidate,
    finalScore: real,
    explanation: RankingExplanation)

  /** `d.get(k, 0)` on a count dictionary. */
  function CountOf(m: map<string, int>, k: string): int {
    if k in m then m[k] else 0
  }

  /** The set of post ids of a candidate list. */
  function PostIds(cs: seq<Candidate>): set<string> {
    set c | c in cs :: c.post.id
  }

  /** No two candidates share a post id. */
  predicate DistinctPostIds(cs: seq<Candidate>) {
    forall i, j :: 0 <= i < j < |cs| ==> cs[i].post.id != cs[j].post.id
  }

  lemma PostIdsSnoc(cs: seq<Candidate>, c: Candidate)
    ensures PostIds(cs + [c]) == PostIds(cs) + {c.post.id}
  {
    assert forall d :: d in cs + [c] <==> d in cs || d == c;
  }

  /** Dropping candidates never creates a repeated post id. */
  lemma SubseqDistinctPostIds(xs: seq<Candidate>, ys: seq<Candidate>)
    requires IsSubseq(xs, ys) && DistinctPostIds(ys)
    ensures DistinctPostIds(xs)
  {
    var id := (c: Candidate) => c.post.id;
    SubseqMap(xs, ys, id);
    SubseqDistinct(Map(xs, id), Map(ys, id));
    forall i, j | 0 <= i < j < |xs| ensures xs[i].post.id != xs[j].post.id {
      assert Map(xs, id)[i] != Map(xs, id)[j];
    }
  }
}
