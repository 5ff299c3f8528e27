/** The pre-scoring filters: each one only removes candidates and keeps the order of the rest. */
module Filters {
  import opened Sequences
  import opened RankingTypes

  /**
   * The candidates left when every post id is kept at its first occurrence only:
   * the list `drop_duplicates` builds.
   */
  function FirstOccurrences(cs: seq<Candidate>): seq<Candidate>
    decreases |cs|
  {
    if cs == [] then []
    else
      var r' := FirstOccurrences(cs[..|cs| - 1]);
      var c := cs[|cs| - 1];
      if c.post.id in PostIds(r') then r' else r' + [c]
  }

  lemma {:induction false} FirstOccurrencesSubseq(cs: seq<Candidate>)
    ensures IsSubseq(FirstOccurrences(cs), cs)
    decreases |cs|
  {
    if cs != [] {
      var cs', c := cs[..|cs| - 1], cs[|cs| - 1];
      var r' := FirstOccurrences(cs');
      FirstOccurrencesSubseq(cs');
      assert cs == cs' + [c];
      if c.post.id in PostIds(r') {
        SubseqExtend(r', cs', c);
      } else {
        SubseqSnoc(r', cs', c);
      }
    }
  }

  /** Every post id of the input survives deduplication. */
  lemma {:induction false} FirstOccurrencesIds(cs: seq<Candidate>)
    ensures PostIds(FirstOccurrences(cs)) == PostIds(cs)
    decreases |cs|
  {
    if cs != [] {
      var cs', c := cs[..|cs| - 1], cs[|cs| - 1];
      var r' := FirstOccurrences(cs');
      FirstOccurrencesIds(cs');
      assert cs == cs' + [c];
      PostIdsSnoc(cs', c);
      PostIdsSnoc(r', c);
    }
  }

  /** Deduplication leaves no repeated post id. */
  lemma {:induction false} FirstOccurrencesDistinct(cs: seq<Candidate>)
    ensures DistinctPostIds(FirstOccurrences(cs))
    decreases |cs|
  {
    if cs != [] {
      var cs', c := cs[..|cs| - 1], cs[|cs| - 1];
      var r' := FirstOccurrences(cs');
      FirstOccurrencesDistinct(cs');
      if c.post.id !in PostIds(r') {
        var r := r' + [c];
        forall i, j | 0 <= i < j < |r| ensures r[i].post.id != r[j].post.id {
          if j == |r'| {
            assert r[i] in r';
          } else {
            assert r[i] == r'[i] && r[j] == r'[j];
          }
        }
      }
    }
  }

  /** Each candidate whose id has not appeared earlier in the input is kept. */
  lemma {:induction false} FirstOccurrencesKeepsFirst(cs: seq<Candidate>, i: int)
    requires 0 <= i < |cs| && cs[i].post.id !in PostIds(cs[..i])
    ensures cs[i] in FirstOccurrences(cs)
    decreases |cs|
  {
    var cs', c := cs[..|cs| - 1], cs[|cs| - 1];
    var r' := FirstOccurrences(cs');
    if i < |cs| - 1 {
      assert cs'[..i] == cs[..i];
      FirstOccurrencesKeepsFirst(cs', i);
    } else {
      FirstOccurrencesIds(cs');
      assert cs[..i] == cs';
    }
  }

  /** `drop_duplicates`: one pass with a `seen` set, appending each id's first candidate. */
  method DropDuplicates(cs: seq<Candidate>) returns (out: seq<Candidate>)
    ensures out == FirstOccurrences(cs)
    ensures IsSubseq(out, cs) && DistinctPostIds(out) && PostIds(out) == PostIds(cs)
    ensures forall i :: 0 <= i < |cs| && cs[i].post.id !in PostIds(cs[..i]) ==> cs[i] in out
  {
    var seen: set<string> := {};
    out := [];
    for i := 0 to |cs|
      invariant out == FirstOccurrences(cs[..i])
      invariant seen == PostIds(out)
    {
      var c := cs[i];
      TakeSnoc(cs, i);
      if c.post.id !in seen {
        PostIdsSnoc(out, c);
        seen := seen + {c.post.id};
        out := out + [c];
      }
    }
    assert cs[..|cs|] == cs;
    FirstOccurrencesSubseq(cs);
    FirstOccurrencesIds(cs);
    FirstOccurrencesDistinct(cs);
    forall i | 0 <= i < |cs| && cs[i].post.id !in PostIds(cs[..i]) ensures cs[i] in out {
      FirstOccurrencesKeepsFirst(cs, i);
    }
  }

  /** `age_filter`: keeps exactly the candidates created at or after `now - maxAgeHours * 3600`. */
  function AgeFilter(cs: seq<Candidate>, maxAgeHours: real, now: real): (r: seq<Candidate>)
    ensures forall c :: c in r <==> c in cs && c.post.createdAt >= now - maxAgeHours * 3600.0
    ensures IsSubseq(r, cs)
  {
    var cutoff := now - maxAgeHours * 3600.0;
    var keep := (c: Candidate) => c.post.createdAt >= cutoff;
    FilterSubseq(cs, keep);
    Filter(cs, keep)
  }

  /** `self_post_filter`: removes exactly the viewer's own posts. */
  function SelfPostFilter(cs: seq<Candidate>, viewerId: string): (r: seq<Candidate>)
    ensures forall c :: c in r <==> c in cs && c.post.authorId != viewerId
    ensures IsSubseq(r, cs)
  {
    var keep := (c: Candidate) => c.post.authorId != viewerId;
    FilterSubseq(cs, keep);
    Filter(cs, keep)
  }

  /** `previously_seen_filter`: the identity for an empty seen set, else removes exactly the seen ids. */
  function PreviouslySeenFilter(cs: seq<Candidate>, seenPostIds: set<string>): (r: seq<Candidate>)
    ensures seenPostIds == {} ==> r == cs
    ensures forall c :: c in r <==> c in cs && c.post.id !in seenPostIds
    ensures IsSubseq(r, cs)
  {
    if seenPostIds == {} then
      SubseqRefl(cs);
      cs
    else
      var keep := (c: Candidate) => c.post.id !in seenPostIds;
      FilterSubseq(cs, keep);
      Filter(cs, keep)
  }

  /** A candidate that passes the age, self-post and seen filters. */
  predicate Eligible(c: Candidate, viewerId: string, maxAgeHours: real, seenPostIds: set<string>, now: real) {
    c.post.createdAt >= now - maxAgeHours * 3600.0 && c.post.authorId != viewerId && c.post.id !in seenPostIds
  }

  /** The list `apply_pre_scoring_filters` returns, stage by stage. */
  function PreScoringFiltered(cs: seq<Candidate>, viewerId: string, maxAgeHours: real,
                              seenPostIds: set<string>, now: real): seq<Candidate>
  {
    var deduped := FirstOccurrences(cs);
    var recent := AgeFilter(deduped, maxAgeHours, now);
    var others := SelfPostFilter(recent, viewerId);
    if seenPostIds != {} then PreviouslySeenFilter(others, seenPostIds) else others
  }

  /**
   * The filtered list is a subsequence of the input with distinct ids and only eligible
   * candidates, and it keeps the first occurrence of every id whose candidate is eligible.
   */
  lemma PreScoringFilteredFacts(cs: seq<Candidate>, viewerId: string, maxAgeHours: real,
                                seenPostIds: set<string>, now: real)
    ensures var r := PreScoringFiltered(cs, viewerId, maxAgeHours, seenPostIds, now);
            && IsSubseq(r, cs)
            && DistinctPostIds(r)
            && (forall i :: 0 <= i < |r| ==> Eligible(r[i], viewerId, maxAgeHours, seenPostIds, now))
            && (forall i :: (0 <= i < |cs| && cs[i].post.id !in PostIds(cs[..i])
                             && Eligible(cs[i], viewerId, maxAgeHours, seenPostIds, now)) ==> cs[i] in r)
  {
    var deduped := FirstOccurrences(cs);
    var recent := AgeFilter(deduped, maxAgeHours, now);
    var others := SelfPostFilter(recent, viewerId);
    var r := PreScoringFiltered(cs, viewerId, maxAgeHours, seenPostIds, now);
    if seenPostIds == {} {
      SubseqRefl(others);
    }
    FirstOccurrencesSubseq(cs);
    FirstOccurrencesDistinct(cs);
    SubseqTrans(others, recent, deduped);
    SubseqTrans(r, others, deduped);
    SubseqTrans(r, deduped, cs);
    SubseqDistinctPostIds(r, deduped);
    forall i | 0 <= i < |r| ensures Eligible(r[i], viewerId, maxAgeHours, seenPostIds, now) {
      assert r[i] in others;
      assert r[i] in recent;
    }
    forall i | (0 <= i < |cs| && cs[i].post.id !in PostIds(cs[..i])
                && Eligible(cs[i], viewerId, maxAgeHours, seenPostIds, now))
      ensures cs[i] in r
    {
      FirstOccurrencesKeepsFirst(cs, i);
      assert cs[i] in recent;
      assert cs[i] in others;
    }
  }

  /** `apply_pre_scoring_filters`: the four filters in order, the seen filter only for a non-empty set. */
  method ApplyPreScoringFilters(cs: seq<Candidate>, viewerId: string, maxAgeHours: real,
                                seenPostIds: set<string>, now: real) returns (out: seq<Candidate>)
    ensures out == PreScoringFiltered(cs, viewerId, maxAgeHours, seenPostIds, now)
  {
    var deduped := DropDuplicates(cs);
    var recent := AgeFilter(deduped, maxAgeHours, now);
    var others := SelfPostFilter(recent, viewerId);
    out := others;
    if seenPostIds != {} {
      out := PreviouslySeenFilter(others, seenPostIds);
    }
  }
}
