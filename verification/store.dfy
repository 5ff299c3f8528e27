/**
 * The in-memory store: users and posts by id, the append-only engagement log and the
 * per-author index of post ids (the recent-post cache). Python dicts keep insertion
 * order, which the queries expose, so the order of the post dict is kept beside it.
 * `time.time()` becomes a `now` parameter.
 */
module StoreModel {
  import opened Wrappers
  import opened Schemas
  import opened Sequences

  /** Seven days, the store's default retention window. */
  const DefaultRetentionSeconds: real := 604800.0

  /** `max_age_seconds or self._retention_seconds`: both None and 0.0 fall back to retention. */
  function Window(maxAgeSeconds: Option<real>, retentionSeconds: real): real {
    if maxAgeSeconds.Some? && maxAgeSeconds.value != 0.0 then maxAgeSeconds.value else retentionSeconds
  }

  function Cutoff(now: real, maxAgeSeconds: Option<real>, retentionSeconds: real): real {
    now - Window(maxAgeSeconds, retentionSeconds)
  }

  /** The index list of an author, empty when the author has none. */
  function IndexOf(index: map<string, seq<string>>, authorId: string): seq<string> {
    if authorId in index then index[authorId] else []
  }

  function CreatedAt(p: Post): real { p.createdAt }

  // ---------------------------------------------------------------------------
  // Recent posts of followed accounts

  /** `pid` names a stored post created at or after `cutoff`. */
  predicate RecentPost(posts: map<string, Post>, pid: string, cutoff: real) {
    pid in posts && posts[pid].createdAt >= cutoff
  }

  /**
   * Walk `newestFirst` collecting the ids of recent stored posts, stopping once `budget`
   * have been collected.
   */
  function TakeRecent(newestFirst: seq<string>, posts: map<string, Post>, budget: nat, cutoff: real): seq<string>
    decreases |newestFirst|
  {
    if newestFirst == [] || budget == 0 then []
    else if RecentPost(posts, newestFirst[0], cutoff) then
      [newestFirst[0]] + TakeRecent(newestFirst[1..], posts, budget - 1, cutoff)
    else TakeRecent(newestFirst[1..], posts, budget, cutoff)
  }

  /** At most `budget` ids, each a recent stored post, in the walked order. */
  lemma {:induction false} TakeRecentFacts(newestFirst: seq<string>, posts: map<string, Post>, budget: nat, cutoff: real)
    ensures var r := TakeRecent(newestFirst, posts, budget, cutoff);
            && |r| <= budget
            && (forall i :: 0 <= i < |r| ==> RecentPost(posts, r[i], cutoff))
            && IsSubseq(r, newestFirst)
    decreases |newestFirst|
  {
    if newestFirst != [] && budget != 0 {
      var x, rest := newestFirst[0], newestFirst[1..];
      assert newestFirst == [x] + rest;
      var take := RecentPost(posts, x, cutoff);
      var b' := if take then budget - 1 else budget;
      var r', r := TakeRecent(rest, posts, b', cutoff), TakeRecent(newestFirst, posts, budget, cutoff);
      TakeRecentFacts(rest, posts, b', cutoff);
      SubseqCons(r', rest, x, take);
      assert r == (if take then [x] else []) + r';
      forall i | 0 <= i < |r| ensures RecentPost(posts, r[i], cutoff) {
        if take && i > 0 {
          assert r[i] == r'[i - 1];
        } else if !take {
          assert r[i] == r'[i];
        }
      }
    }
  }

  /** Prepending an element keeps a subsequence, with or without that element in front. */
  lemma {:induction false} SubseqCons(xs: seq<string>, ys: seq<string>, y: string, take: bool)
    requires IsSubseq(xs, ys)
    ensures IsSubseq((if take then [y] else []) + xs, [y] + ys)
    decreases |ys|
  {
    if ys == [] {
      assert xs == [];
      if take {
        SubseqRefl([y]);
      } else {
        SubseqRefl([] + xs);
        SubseqExtend([], [], y);
      }
    } else {
      var ys', z := ys[..|ys| - 1], ys[|ys| - 1];
      assert [y] + ys == ([y] + ys') + [z];
      if xs != [] && xs[|xs| - 1] == z && IsSubseq(xs[..|xs| - 1], ys') {
        SubseqCons(xs[..|xs| - 1], ys', y, take);
        assert (if take then [y] else []) + xs == ((if take then [y] else []) + xs[..|xs| - 1]) + [z];
        SubseqSnoc((if take then [y] else []) + xs[..|xs| - 1], [y] + ys', z);
      } else {
        SubseqCons(xs, ys', y, take);
        SubseqExtend((if take then [y] else []) + xs, [y] + ys', z);
      }
    }
  }

  /**
   * One followed author's contribution: the index walked newest-inserted first, the
   * recent stored posts kept, at most `limitPerAuthor` of them (none when it is not
   * positive, because the cap is tested before every step).
   */
  function RecentBlock(index: map<string, seq<string>>, posts: map<string, Post>, authorId: string,
                       limitPerAuthor: int, cutoff: real): seq<string>
  {
    if authorId !in index then []
    else TakeRecent(Reverse(index[authorId]), posts, if limitPerAuthor > 0 then limitPerAuthor else 0, cutoff)
  }

  /** The blocks of all followed authors, in `following` order. */
  function RecentForFollowing(index: map<string, seq<string>>, posts: map<string, Post>, following: seq<string>,
                              limitPerAuthor: int, cutoff: real): seq<string>
    decreases |following|
  {
    if following == [] then []
    else RecentForFollowing(index, posts, following[..|following| - 1], limitPerAuthor, cutoff)
         + RecentBlock(index, posts, following[|following| - 1], limitPerAuthor, cutoff)
  }

  /**
   * An author's block holds at most `limitPerAuthor` ids, all recent stored posts, in
   * newest-inserted-first order of that author's index; an author missing from the index
   * contributes nothing.
   */
  lemma RecentBlockFacts(index: map<string, seq<string>>, posts: map<string, Post>, authorId: string,
                         limitPerAuthor: int, cutoff: real)
    ensures var b := RecentBlock(index, posts, authorId, limitPerAuthor, cutoff);
            && |b| <= (if limitPerAuthor > 0 then limitPerAuthor else 0)
            && (forall i :: 0 <= i < |b| ==> RecentPost(posts, b[i], cutoff))
            && IsSubseq(b, Reverse(IndexOf(index, authorId)))
            && (authorId !in index ==> b == [])
  {
    if authorId in index {
      TakeRecentFacts(Reverse(index[authorId]), posts, if limitPerAuthor > 0 then limitPerAuthor else 0, cutoff);
    }
  }

  /** `pid` is listed in the index of one of the accounts in `following`. */
  predicate ListedUnder(index: map<string, seq<string>>, following: seq<string>, pid: string) {
    exists k :: 0 <= k < |following| && following[k] in index && pid in index[following[k]]
  }

  lemma ListedUnderSnoc(index: map<string, seq<string>>, following: seq<string>, authorId: string, pid: string)
    requires ListedUnder(index, following, pid) || (authorId in index && pid in index[authorId])
    ensures ListedUnder(index, following + [authorId], pid)
  {
    var f := following + [authorId];
    if ListedUnder(index, following, pid) {
      var k :| 0 <= k < |following| && following[k] in index && pid in index[following[k]];
      assert f[k] == following[k];
    } else {
      assert f[|following|] == authorId;
    }
  }

  /** At most `limitPerAuthor` ids per entry of `following`. */
  lemma {:induction false} RecentForFollowingLength(index: map<string, seq<string>>, posts: map<string, Post>,
                                                    following: seq<string>, limitPerAuthor: int, cutoff: real)
    ensures |RecentForFollowing(index, posts, following, limitPerAuthor, cutoff)|
            <= |following| * (if limitPerAuthor > 0 then limitPerAuthor else 0)
    decreases |following|
  {
    if following != [] {
      var f' := following[..|following| - 1];
      var cap := if limitPerAuthor > 0 then limitPerAuthor else 0;
      RecentForFollowingLength(index, posts, f', limitPerAuthor, cutoff);
      RecentBlockFacts(index, posts, following[|following| - 1], limitPerAuthor, cutoff);
      var prev := |RecentForFollowing(index, posts, f', limitPerAuthor, cutoff)|;
      var block := |RecentBlock(index, posts, following[|following| - 1], limitPerAuthor, cutoff)|;
      assert |RecentForFollowing(index, posts, following, limitPerAuthor, cutoff)| == prev + block;
      MulSucc(|f'|, cap);
    }
  }

  lemma MulSucc(n: nat, c: nat)
    ensures (n + 1) * c == n * c + c
  {
  }

  /**
   * Every id returned for the followed accounts is a recent stored post listed in the index
   * of one of them.
   */
  lemma {:induction false} RecentForFollowingMembers(index: map<string, seq<string>>, posts: map<string, Post>,
                                                     following: seq<string>, limitPerAuthor: int, cutoff: real)
    ensures var r := RecentForFollowing(index, posts, following, limitPerAuthor, cutoff);
            forall i :: 0 <= i < |r| ==> RecentPost(posts, r[i], cutoff) && ListedUnder(index, following, r[i])
    decreases |following|
  {
    if following != [] {
      var f' := following[..|following| - 1];
      var aid := following[|following| - 1];
      assert following == f' + [aid];
      var prev := RecentForFollowing(index, posts, f', limitPerAuthor, cutoff);
      var b := RecentBlock(index, posts, aid, limitPerAuthor, cutoff);
      RecentForFollowingMembers(index, posts, f', limitPerAuthor, cutoff);
      assert var r0 := RecentForFollowing(index, posts, f', limitPerAuthor, cutoff);
             forall i :: 0 <= i < |r0| ==> RecentPost(posts, r0[i], cutoff) && ListedUnder(index, f', r0[i]);
      RecentBlockFacts(index, posts, aid, limitPerAuthor, cutoff);
      var r := prev + b;
      forall i | 0 <= i < |r|
        ensures RecentPost(posts, r[i], cutoff) && ListedUnder(index, following, r[i])
      {
        if i < |prev| {
          assert r[i] == prev[i];
          ListedUnderSnoc(index, f', aid, r[i]);
        } else {
          var k := i - |prev|;
          assert r[i] == b[k];
          assert RecentPost(posts, b[k], cutoff);
          assert aid in index;
          SubseqElements(b, Reverse(index[aid]));
          assert b[k] in Reverse(index[aid]);
          ReverseMembers(index[aid]);
          ListedUnderSnoc(index, f', aid, r[i]);
        }
      }
    }
  }

  // ---------------------------------------------------------------------------
  // The global recent pool

  /** The `(created_at, id)` pairs of the recent ORIGINAL posts, in post-dict order. */
  function RecentOriginals(order: seq<string>, posts: map<string, Post>, cutoff: real): seq<(real, string)>
    decreases |order|
  {
    if order == [] then []
    else
      var prev := RecentOriginals(order[..|order| - 1], posts, cutoff);
      var pid := order[|order| - 1];
      if pid in posts && posts[pid].createdAt >= cutoff && posts[pid].postType == Original
      then prev + [(posts[pid].createdAt, pid)]
      else prev
  }

  function Stamp(e: (real, string)): real { e.0 }

  function SecondOf(e: (real, string)): string { e.1 }

  /** `get_global_recent`: the pairs stably sorted newest first, cut to `limit`, ids only. */
  function GlobalRecent(order: seq<string>, posts: map<string, Post>, limit: int, cutoff: real): seq<string> {
    Map(Prefix(SortDesc(RecentOriginals(order, posts, cutoff), Stamp), limit), SecondOf)
  }

  /** A stored ORIGINAL post created at or after `cutoff`. */
  predicate PoolEligible(posts: map<string, Post>, pid: string, cutoff: real) {
    pid in posts && posts[pid].createdAt >= cutoff && posts[pid].postType == Original
  }

  /** Each pair names an eligible post and carries its timestamp; every eligible listed post has its pair. */
  lemma {:induction false} RecentOriginalsFacts(order: seq<string>, posts: map<string, Post>, cutoff: real)
    ensures var acc := RecentOriginals(order, posts, cutoff);
            && (forall e :: e in acc ==> PoolEligible(posts, e.1, cutoff) && e.0 == posts[e.1].createdAt)
            && (forall pid :: pid in order && PoolEligible(posts, pid, cutoff) ==> (posts[pid].createdAt, pid) in acc)
    decreases |order|
  {
    if order != [] {
      RecentOriginalsFacts(order[..|order| - 1], posts, cutoff);
      assert order == order[..|order| - 1] + [order[|order| - 1]];
    }
  }

  /** After sorting, each pair still names an eligible post and carries its timestamp. */
  lemma SortedPairAt(order: seq<string>, posts: map<string, Post>, cutoff: real, i: int)
    requires 0 <= i < |SortDesc(RecentOriginals(order, posts, cutoff), Stamp)|
    ensures var e := SortDesc(RecentOriginals(order, posts, cutoff), Stamp)[i];
            PoolEligible(posts, e.1, cutoff) && e.0 == posts[e.1].createdAt
  {
    var acc := RecentOriginals(order, posts, cutoff);
    RecentOriginalsFacts(order, posts, cutoff);
    assert SortDesc(acc, Stamp)[i] in multiset(acc);
  }

  /**
   * `get_global_recent` returns only recent ORIGINAL posts, newest first, and at most
   * `limit` of them for a non-negative `limit`.
   */
  lemma GlobalRecentOrdered(order: seq<string>, posts: map<string, Post>, limit: int, cutoff: real)
    ensures var r := GlobalRecent(order, posts, limit, cutoff);
            && (limit >= 0 ==> |r| <= limit)
            && (forall i :: 0 <= i < |r| ==> PoolEligible(posts, r[i], cutoff))
            && (forall i, j :: 0 <= i < j < |r| ==> posts[r[i]].createdAt >= posts[r[j]].createdAt)
  {
    var sorted := SortDesc(RecentOriginals(order, posts, cutoff), Stamp);
    var top := Prefix(sorted, limit);
    var r := GlobalRecent(order, posts, limit, cutoff);
    forall i | 0 <= i < |r| ensures r[i] == sorted[i].1 && PoolEligible(posts, r[i], cutoff) {
      assert top[i] == sorted[i];
      SortedPairAt(order, posts, cutoff, i);
    }
    forall i, j | 0 <= i < j < |r| ensures posts[r[i]].createdAt >= posts[r[j]].createdAt {
      assert top[i] == sorted[i] && top[j] == sorted[j];
      SortedPairAt(order, posts, cutoff, i);
      SortedPairAt(order, posts, cutoff, j);
      assert Stamp(sorted[i]) >= Stamp(sorted[j]);
    }
  }

  /** An eligible post that `get_global_recent` leaves out is no newer than the one at position `i`. */
  lemma GlobalRecentTopAt(order: seq<string>, posts: map<string, Post>, limit: int, cutoff: real, pid: string, i: int)
    requires pid in order && PoolEligible(posts, pid, cutoff)
    requires pid !in GlobalRecent(order, posts, limit, cutoff)
    requires 0 <= i < |GlobalRecent(order, posts, limit, cutoff)|
    ensures var r := GlobalRecent(order, posts, limit, cutoff);
            r[i] in posts && posts[r[i]].createdAt >= posts[pid].createdAt
  {
    var acc := RecentOriginals(order, posts, cutoff);
    var sorted := SortDesc(acc, Stamp);
    var top := Prefix(sorted, limit);
    var r := GlobalRecent(order, posts, limit, cutoff);
    var e := (posts[pid].createdAt, pid);
    RecentOriginalsFacts(order, posts, cutoff);
    assert e in acc;
    assert e in sorted by {
      assert e in multiset(acc);
    }
    var j :| 0 <= j < |sorted| && sorted[j] == e;
    assert j >= |top| by {
      assert forall k :: 0 <= k < |top| ==> r[k] == SecondOf(sorted[k]) && r[k] in r;
    }
    SortedPairAt(order, posts, cutoff, i);
    assert r[i] == SecondOf(sorted[i]);
    assert Stamp(sorted[i]) >= Stamp(sorted[j]);
  }

  /** No eligible post left out of `get_global_recent` is newer than any post it returns. */
  lemma GlobalRecentTop(order: seq<string>, posts: map<string, Post>, limit: int, cutoff: real)
    ensures var r := GlobalRecent(order, posts, limit, cutoff);
            forall pid, i :: pid in order && PoolEligible(posts, pid, cutoff) && pid !in r && 0 <= i < |r| ==>
              r[i] in posts && posts[r[i]].createdAt >= posts[pid].createdAt
  {
    var r := GlobalRecent(order, posts, limit, cutoff);
    forall pid, i | pid in order && PoolEligible(posts, pid, cutoff) && pid !in r && 0 <= i < |r|
      ensures r[i] in posts && posts[r[i]].createdAt >= posts[pid].createdAt
    {
      GlobalRecentTopAt(order, posts, limit, cutoff, pid, i);
    }
  }

  // ---------------------------------------------------------------------------
  // Topic counts

  /** The topic values of the posts at or after `cutoff`, post by post in post-dict order. */
  function RecentTopicValues(order: seq<string>, posts: map<string, Post>, cutoff: real): seq<string>
    decreases |order|
  {
    if order == [] then []
    else
      var pid := order[|order| - 1];
      RecentTopicValues(order[..|order| - 1], posts, cutoff)
      + (if pid in posts && posts[pid].createdAt >= cutoff then Map(posts[pid].topics, TopicValue) else [])
  }

  lemma RecentTopicValuesSnoc(order: seq<string>, posts: map<string, Post>, cutoff: real, pid: string)
    ensures pid in posts && posts[pid].createdAt >= cutoff ==>
              RecentTopicValues(order + [pid], posts, cutoff) == RecentTopicValues(order, posts, cutoff) + Map(posts[pid].topics, TopicValue)
    ensures !(pid in posts && posts[pid].createdAt >= cutoff) ==>
              RecentTopicValues(order + [pid], posts, cutoff) == RecentTopicValues(order, posts, cutoff)
  {
    assert (order + [pid])[..|order|] == order;
  }

  /** `counts[k] = counts.get(k, 0) + 1` on a dict kept as an insertion-ordered list of pairs. */
  function Bump(counts: seq<(string, int)>, k: string): (r: seq<(string, int)>)
    decreases |counts|
  {
    if counts == [] then [(k, 1)]
    else if counts[0].0 == k then [(k, counts[0].1 + 1)] + counts[1..]
    else [counts[0]] + Bump(counts[1..], k)
  }

  /** The dict of occurrence counts built by bumping each value in turn. */
  function Tally(vs: seq<string>): seq<(string, int)>
    decreases |vs|
  {
    if vs == [] then [] else Bump(Tally(vs[..|vs| - 1]), vs[|vs| - 1])
  }

  function Occurrences(vs: seq<string>, k: string): nat
    decreases |vs|
  {
    if vs == [] then 0 else Occurrences(vs[..|vs| - 1], k) + (if vs[|vs| - 1] == k then 1 else 0)
  }

  function KeyOf(e: (string, int)): string { e.0 }

  function CountKey(e: (string, int)): real { e.1 as real }

  /** A key already present is incremented in place; a new key is appended with count 1. */
  lemma {:induction false} BumpKeys(counts: seq<(string, int)>, k: string)
    ensures Map(Bump(counts, k), KeyOf) == (if k in Map(counts, KeyOf) then Map(counts, KeyOf) else Map(counts, KeyOf) + [k])
    decreases |counts|
  {
    if counts != [] {
      var r := Bump(counts, k);
      var tail := counts[1..];
      MapCons(counts, KeyOf);
      MapCons(r, KeyOf);
      if counts[0].0 != k {
        BumpKeys(tail, k);
        assert r[0] == counts[0] && r[1..] == Bump(tail, k);
        ConcatAssoc([counts[0].0], Map(tail, KeyOf), [k]);
      } else {
        assert r[0].0 == k && r[1..] == tail;
      }
    }
  }

  lemma {:induction false} BumpCounts(counts: seq<(string, int)>, k: string)
    requires Distinct(Map(counts, KeyOf))
    ensures var r := Bump(counts, k);
            forall i :: 0 <= i < |r| ==> r[i].1 == (if i < |counts| then counts[i].1 else 0) + (if r[i].0 == k then 1 else 0)
    decreases |counts|
  {
    if counts != [] {
      var r := Bump(counts, k);
      var tail := counts[1..];
      if counts[0].0 != k {
        assert Map(tail, KeyOf) == Map(counts, KeyOf)[1..];
        BumpCounts(tail, k);
        forall i | 0 < i < |r|
          ensures r[i].1 == (if i < |counts| then counts[i].1 else 0) + (if r[i].0 == k then 1 else 0)
        {
          assert r[i] == Bump(tail, k)[i - 1];
        }
      } else {
        forall i | 0 < i < |r| ensures r[i].0 != k {
          assert r[i] == counts[i];
          assert Map(counts, KeyOf)[i] != Map(counts, KeyOf)[0];
        }
      }
    }
  }

  /**
   * The tally has one entry per distinct value, in order of first occurrence, and each
   * entry's count is the number of occurrences of its key.
   */
  lemma {:induction false} TallyFacts(vs: seq<string>)
    ensures Map(Tally(vs), KeyOf) == Dedup(vs)
    ensures forall i :: 0 <= i < |Tally(vs)| ==> Tally(vs)[i].1 == Occurrences(vs, Tally(vs)[i].0)
    decreases |vs|
  {
    if vs != [] {
      var vs', v := vs[..|vs| - 1], vs[|vs| - 1];
      assert vs == vs' + [v];
      TallyFacts(vs');
      var t, t' := Tally(vs), Tally(vs');
      assert t == Bump(t', v);
      DedupFacts(vs');
      BumpKeys(t', v);
      BumpCounts(t', v);
      forall i | 0 <= i < |t| ensures t[i].1 == Occurrences(vs, t[i].0) {
        TallyStepAt(vs', v, t', t, i);
      }
    }
  }

  /** One entry of the tally after bumping `v`, with the tallies abstracted to plain lists. */
  lemma TallyStepAt(vs': seq<string>, v: string, t': seq<(string, int)>, t: seq<(string, int)>, i: int)
    requires Map(t', KeyOf) == Dedup(vs')
    requires forall j :: 0 <= j < |t'| ==> t'[j].1 == Occurrences(vs', t'[j].0)
    requires Map(t, KeyOf) == (if v in Map(t', KeyOf) then Map(t', KeyOf) else Map(t', KeyOf) + [v])
    requires forall j :: 0 <= j < |t| ==> t[j].1 == (if j < |t'| then t'[j].1 else 0) + (if t[j].0 == v then 1 else 0)
    requires 0 <= i < |t|
    ensures t[i].1 == Occurrences(vs' + [v], t[i].0)
  {
    assert (vs' + [v])[..|vs'|] == vs';
    if i < |t'| {
      assert t[i].0 == Map(t, KeyOf)[i] == Map(t', KeyOf)[i] == t'[i].0;
    } else {
      assert t[i].0 == Map(t, KeyOf)[i] == v;
      DedupFacts(vs');
      OccurrencesAbsent(vs', v);
    }
  }

  lemma {:induction false} OccurrencesAbsent(vs: seq<string>, k: string)
    requires k !in vs
    ensures Occurrences(vs, k) == 0
    decreases |vs|
  {
    if vs != [] {
      assert vs == vs[..|vs| - 1] + [vs[|vs| - 1]];
      OccurrencesAbsent(vs[..|vs| - 1], k);
    }
  }

  /** `get_topic_counts`: the tally sorted by count, largest first and stably, cut to `limit`. */
  function TopicCounts(order: seq<string>, posts: map<string, Post>, limit: int, cutoff: real): seq<(string, int)> {
    Prefix(SortDesc(Tally(RecentTopicValues(order, posts, cutoff)), CountKey), limit)
  }

  /**
   * Every returned pair is a topic of some recent post with its exact number of occurrences
   * among the recent posts' topics; counts never increase down the list; at most `limit`
   * pairs for a non-negative `limit`.
   */
  lemma TopicCountsExact(order: seq<string>, posts: map<string, Post>, limit: int, cutoff: real)
    ensures var vs := RecentTopicValues(order, posts, cutoff);
            var r := TopicCounts(order, posts, limit, cutoff);
            && (limit >= 0 ==> |r| <= limit)
            && (forall i :: 0 <= i < |r| ==> r[i].0 in vs && r[i].1 == Occurrences(vs, r[i].0) >= 1)
            && (forall i, j :: 0 <= i < j < |r| ==> r[i].1 >= r[j].1)
  {
    var vs := RecentTopicValues(order, posts, cutoff);
    TallyFacts(vs);
    SortedTallyCounts(vs, Tally(vs), limit);
    assert TopicCounts(order, posts, limit, cutoff) == Prefix(SortDesc(Tally(vs), CountKey), limit);
  }

  /** The stable top `limit` of a tally of `vs`, with the tally abstracted to a plain list. */
  lemma SortedTallyCounts(vs: seq<string>, t: seq<(string, int)>, limit: int)
    requires Map(t, KeyOf) == Dedup(vs)
    requires forall i :: 0 <= i < |t| ==> t[i].1 == Occurrences(vs, t[i].0)
    ensures var r := Prefix(SortDesc(t, CountKey), limit);
            && (limit >= 0 ==> |r| <= limit)
            && (forall i :: 0 <= i < |r| ==> r[i].0 in vs && r[i].1 == Occurrences(vs, r[i].0) >= 1)
            && (forall i, j :: 0 <= i < j < |r| ==> r[i].1 >= r[j].1)
  {
    var sorted := SortDesc(t, CountKey);
    var r := Prefix(sorted, limit);
    TallyEntriesCounted(vs, t);
    CountedPermutation(vs, t, sorted);
    assert SortedDesc(sorted, CountKey);
    assert forall i, j :: 0 <= i < j < |sorted| ==> CountKey(sorted[i]) >= CountKey(sorted[j]);
    assert forall i :: 0 <= i < |r| ==> r[i] == sorted[i];
  }

  /** Each pair names a value of `vs` with its exact, positive, number of occurrences. */
  predicate Counted(vs: seq<string>, t: seq<(string, int)>) {
    forall i :: 0 <= i < |t| ==> t[i].0 in vs && t[i].1 == Occurrences(vs, t[i].0) >= 1
  }

  lemma TallyEntriesCounted(vs: seq<string>, t: seq<(string, int)>)
    requires Map(t, KeyOf) == Dedup(vs)
    requires forall i :: 0 <= i < |t| ==> t[i].1 == Occurrences(vs, t[i].0)
    ensures Counted(vs, t)
  {
    DedupFacts(vs);
    forall i | 0 <= i < |t| ensures t[i].0 in vs && t[i].1 == Occurrences(vs, t[i].0) >= 1 {
      assert Map(t, KeyOf)[i] == t[i].0;
      OccurrencesPresent(vs, t[i].0);
    }
  }

  lemma CountedPermutation(vs: seq<string>, t: seq<(string, int)>, u: seq<(string, int)>)
    requires Counted(vs, t) && multiset(u) == multiset(t)
    ensures Counted(vs, u)
  {
    forall i | 0 <= i < |u| ensures u[i].0 in vs && u[i].1 == Occurrences(vs, u[i].0) >= 1 {
      assert u[i] in multiset(t);
      var k :| 0 <= k < |t| && t[k] == u[i];
    }
  }

  /** No topic appears twice in `get_topic_counts`. */
  lemma TopicCountsDistinct(order: seq<string>, posts: map<string, Post>, limit: int, cutoff: real)
    ensures Distinct(Map(TopicCounts(order, posts, limit, cutoff), KeyOf))
  {
    var vs := RecentTopicValues(order, posts, cutoff);
    TallyFacts(vs);
    DedupFacts(vs);
    SortedDistinctKeys(Tally(vs), limit);
  }

  /** The stable top `limit` of a list with distinct keys has distinct keys. */
  lemma SortedDistinctKeys(t: seq<(string, int)>, limit: int)
    requires Distinct(Map(t, KeyOf))
    ensures Distinct(Map(Prefix(SortDesc(t, CountKey), limit), KeyOf))
  {
    var sorted := SortDesc(t, CountKey);
    var r := Prefix(sorted, limit);
    MapSortDesc(t, CountKey, KeyOf);
    DistinctPermutation(Map(t, KeyOf), Map(sorted, KeyOf));
    assert Map(r, KeyOf) == Map(sorted, KeyOf)[..|r|];
    PrefixIsSubseq(Map(sorted, KeyOf), |r|);
    SubseqDistinct(Map(r, KeyOf), Map(sorted, KeyOf));
  }

  lemma {:induction false} OccurrencesPresent(vs: seq<string>, k: string)
    requires k in vs
    ensures Occurrences(vs, k) >= 1
    decreases |vs|
  {
    var vs' := vs[..|vs| - 1];
    assert vs == vs' + [vs[|vs| - 1]];
    if vs[|vs| - 1] != k {
      OccurrencesPresent(vs', k);
    }
  }

  /** A rearrangement of a sequence without repeats has no repeats. */
  lemma DistinctPermutation<T>(a: seq<T>, b: seq<T>)
    requires Distinct(a) && multiset(a) == multiset(b)
    ensures Distinct(b)
  {
    forall i, j | 0 <= i < j < |b| ensures b[i] != b[j] {
      if b[i] == b[j] {
        var x := b[i];
        assert b == b[..j] + b[j..];
        assert b[..j][i] == x && b[j..][0] == x;
        assert multiset(b)[x] == multiset(b[..j])[x] + multiset(b[j..])[x];
        DistinctCountsOne(a, x);
        assert false;
      }
    }
  }

  lemma {:induction false} DistinctCountsOne<T>(s: seq<T>, x: T)
    requires Distinct(s)
    ensures multiset(s)[x] <= 1
    decreases |s|
  {
    if s != [] {
      var s' := s[..|s| - 1];
      assert s == s' + [s[|s| - 1]];
      assert Distinct(s');
      DistinctCountsOne(s', x);
      if s[|s| - 1] == x {
        assert x !in s' by {
          forall k | 0 <= k < |s'| ensures s'[k] != x {
            assert s[k] != s[|s| - 1];
          }
        }
      }
    }
  }

  // ---------------------------------------------------------------------------
  // The engagement log

  /** The number of logged engagements with this post id and type. */
  function CountEngagements(log: seq<Engagement>, postId: string, t: EngagementType): nat
    decreases |log|
  {
    if log == [] then 0
    else
      var e := log[|log| - 1];
      CountEngagements(log[..|log| - 1], postId, t) + (if e.postId == postId && e.engagementType == t then 1 else 0)
  }

  /** The post ids of the engagements in `rs` (in that order) that satisfy `keep`. */
  function PostIdsWhere(rs: seq<Engagement>, keep: Engagement -> bool): seq<string>
    decreases |rs|
  {
    if rs == [] then []
    else PostIdsWhere(rs[..|rs| - 1], keep) + (if keep(rs[|rs| - 1]) then [rs[|rs| - 1].postId] else [])
  }

  /** Reading one more log entry appends its post id when it is kept. */
  lemma PostIdsWhereStep(rs: seq<Engagement>, j: int, keep: Engagement -> bool)
    requires 0 <= j < |rs|
    ensures PostIdsWhere(rs[..j + 1], keep) == PostIdsWhere(rs[..j], keep) + (if keep(rs[j]) then [rs[j].postId] else [])
  {
    assert rs[..j + 1][..j] == rs[..j];
  }

  /** The de-duplicated ids of a prefix of the log start the de-duplicated ids of the whole log. */
  lemma DedupOfPrefix(rs: seq<Engagement>, k: int, keep: Engagement -> bool)
    requires 0 <= k <= |rs|
    ensures var d := Dedup(PostIdsWhere(rs[..k], keep));
            |d| <= |Dedup(PostIdsWhere(rs, keep))| && Dedup(PostIdsWhere(rs, keep))[..|d|] == d
  {
    assert rs == rs[..k] + rs[k..];
    PostIdsWhereAppend(rs[..k], rs[k..], keep);
    DedupAppend(PostIdsWhere(rs[..k], keep), PostIdsWhere(rs[k..], keep));
  }

  lemma {:induction false} PostIdsWhereAppend(a: seq<Engagement>, b: seq<Engagement>, keep: Engagement -> bool)
    ensures PostIdsWhere(a + b, keep) == PostIdsWhere(a, keep) + PostIdsWhere(b, keep)
    decreases |b|
  {
    if b == [] {
      assert a + b == a;
    } else {
      var b' := b[..|b| - 1];
      PostIdsWhereAppend(a, b', keep);
      assert (a + b)[..|a + b| - 1] == a + b';
    }
  }

  /** The ids are exactly those of the engagements that satisfy `keep`. */
  lemma {:induction false} PostIdsWhereMembers(rs: seq<Engagement>, keep: Engagement -> bool)
    ensures forall x :: x in PostIdsWhere(rs, keep) <==> exists e :: e in rs && keep(e) && e.postId == x
    decreases |rs|
  {
    if rs != [] {
      var rs' := rs[..|rs| - 1];
      PostIdsWhereMembers(rs', keep);
      assert rs == rs' + [rs[|rs| - 1]];
    }
  }

  predicate ByUser(e: Engagement, userId: string) { e.userId == userId }

  predicate NegativeByUser(e: Engagement, userId: string) {
    e.userId == userId && e.engagementType == NotInterested
  }

  /** How many results a loop that appends before testing `len(out) >= limit` can return. */
  function AppendCap(limit: int): int { if limit >= 1 then limit else 1 }

  /**
   * `get_user_engagement_post_ids`: the user's engaged post ids newest first, each once,
   * cut to `limit` (to one when `limit <= 0`).
   */
  function EngagementHistory(log: seq<Engagement>, userId: string, limit: int): seq<string> {
    Prefix(Dedup(PostIdsWhere(Reverse(log), e => ByUser(e, userId))), AppendCap(limit))
  }

  /**
   * `get_negative_engagement_post_ids`: the user's NOT_INTERESTED post ids newest first,
   * repeats kept, cut to `limit` (to one when `limit <= 0`).
   */
  function NegativeHistory(log: seq<Engagement>, userId: string, limit: int): seq<string> {
    Prefix(PostIdsWhere(Reverse(log), e => NegativeByUser(e, userId)), AppendCap(limit))
  }

  lemma ReverseMembers<T>(s: seq<T>)
    ensures forall x :: x in Reverse(s) <==> x in s
  {
    var r := Reverse(s);
    forall x | x in s ensures x in r {
      var i :| 0 <= i < |s| && s[i] == x;
      assert r[|s| - 1 - i] == x;
    }
  }

  /**
   * The history lists only post ids this user engaged with, each once, in newest-first
   * order; at most `limit` of them for `limit >= 1` and at most one otherwise; and when it is
   * shorter than `limit` it holds every post the user engaged with.
   */
  lemma EngagementHistoryFacts(log: seq<Engagement>, userId: string, limit: int)
    ensures var r := EngagementHistory(log, userId, limit);
            var newestFirst := PostIdsWhere(Reverse(log), e => ByUser(e, userId));
            && Distinct(r)
            && IsSubseq(r, newestFirst)
            && (forall x :: x in r ==> exists e :: e in log && e.userId == userId && e.postId == x)
            && |r| <= AppendCap(limit)
            && (|r| < limit ==> forall e :: e in log && e.userId == userId ==> e.postId in r)
  {
    var keep := e => ByUser(e, userId);
    var ids := PostIdsWhere(Reverse(log), keep);
    var d := Dedup(ids);
    var r := EngagementHistory(log, userId, limit);
    DedupFacts(ids);
    PrefixIsSubseq(d, |r|);
    SubseqDistinct(r, d);
    SubseqTrans(r, d, ids);
    SubseqElements(r, d);
    PostIdsWhereMembers(Reverse(log), keep);
    ReverseMembers(log);
    if |r| < limit {
      assert r == d;
    }
  }

  /**
   * The negative history lists, newest first, post ids of this user's NOT_INTERESTED
   * engagements (repeats allowed), at most `limit` of them for `limit >= 1`.
   */
  lemma NegativeHistoryFacts(log: seq<Engagement>, userId: string, limit: int)
    ensures var r := NegativeHistory(log, userId, limit);
            && IsSubseq(r, PostIdsWhere(Reverse(log), e => NegativeByUser(e, userId)))
            && (forall x :: x in r ==> exists e :: e in log && e.userId == userId && e.engagementType == NotInterested && e.postId == x)
            && |r| <= AppendCap(limit)
  {
    var keep := e => NegativeByUser(e, userId);
    var ids := PostIdsWhere(Reverse(log), keep);
    var r := NegativeHistory(log, userId, limit);
    PrefixIsSubseq(ids, |r|);
    SubseqElements(r, ids);
    PostIdsWhereMembers(Reverse(log), keep);
    ReverseMembers(log);
  }

  // ---------------------------------------------------------------------------
  // Batch lookups

  /** The keys of `{pid: posts[pid] for pid in ids if pid in posts}`, in dict order. */
  function SelectedIds<V>(m: map<string, V>, ids: seq<string>): seq<string> {
    Dedup(Filter(ids, pid => pid in m))
  }

  /** The keys of a batch lookup are exactly the requested ids that exist, each once. */
  lemma SelectedIdsFacts<V>(m: map<string, V>, ids: seq<string>)
    ensures Distinct(SelectedIds(m, ids))
    ensures forall pid :: pid in SelectedIds(m, ids) <==> pid in ids && pid in m
  {
    var f := Filter(ids, pid => pid in m);
    DedupFacts(f);
    forall pid | pid in ids && pid in m ensures pid in f {
      var i :| 0 <= i < |ids| && ids[i] == pid;
    }
  }

  /**
   * The store's invariant over its parts: the post order lists each stored post once,
   * records are keyed by their own ids, every indexed id is stored, and every stored post
   * is listed under its current author.
   */
  ghost predicate StoreInvariant(users: map<string, User>, posts: map<string, Post>, postOrder: seq<string>,
                                 index: map<string, seq<string>>)
  {
    && Distinct(postOrder)
    && (forall pid :: pid in posts <==> pid in postOrder)
    && (forall pid :: pid in posts ==> posts[pid].id == pid)
    && (forall uid :: uid in users ==> users[uid].id == uid)
    && (forall a, pid :: a in index && pid in index[a] ==> pid in posts)
    && (forall pid :: pid in posts ==> pid in IndexOf(index, posts[pid].authorId))
  }

  /** `add_post` keeps the invariant, whether the id is new or replaced. */
  lemma AddPostKeepsInvariant(users: map<string, User>, posts: map<string, Post>, postOrder: seq<string>,
                              index: map<string, seq<string>>, post: Post)
    requires StoreInvariant(users, posts, postOrder, index)
    ensures StoreInvariant(users, posts[post.id := post],
                           postOrder + (if post.id in posts then [] else [post.id]),
                           index[post.authorId := IndexOf(index, post.authorId) + [post.id]])
  {
    var posts' := posts[post.id := post];
    var order' := postOrder + (if post.id in posts then [] else [post.id]);
    var index' := index[post.authorId := IndexOf(index, post.authorId) + [post.id]];
    assert Distinct(order') by {
      if post.id !in posts {
        assert post.id !in postOrder;
      }
    }
    forall a, pid | a in index' && pid in index'[a] ensures pid in posts' {
      if a == post.authorId && pid != post.id {
        assert pid in IndexOf(index, a);
      }
    }
    forall pid | pid in posts' ensures pid in IndexOf(index', posts'[pid].authorId) {
      if pid != post.id && posts[pid].authorId == post.authorId {
        assert pid in IndexOf(index, post.authorId);
      }
    }
  }

  /**
   * `get_posts_by_author`: the stored posts among the author's newest `limit` index entries
   * (a negative `limit` drops the oldest ones instead), newest first by creation time.
   */
  function PostsByAuthor(index: map<string, seq<string>>, posts: map<string, Post>, authorId: string, limit: int): seq<Post> {
    if authorId !in index then []
    else
      var pids := Filter(Prefix(Reverse(index[authorId]), limit), pid => pid in posts);
      SortDesc(seq(|pids|, i requires 0 <= i < |pids| => posts[pids[i]]), CreatedAt)
  }

  /**
   * The author's posts come newest first, and there are at most `limit` of them for a
   * non-negative `limit`.
   */
  lemma PostsByAuthorOrdered(index: map<string, seq<string>>, posts: map<string, Post>, authorId: string, limit: int)
    ensures var r := PostsByAuthor(index, posts, authorId, limit);
            SortedDesc(r, CreatedAt) && (limit >= 0 ==> |r| <= limit)
  {
    if authorId in index {
      var top := Prefix(Reverse(index[authorId]), limit);
      FilterSubseq(top, pid => pid in posts);
      SubseqElements(Filter(top, pid => pid in posts), top);
    }
  }

  /** Each of the author's posts is the stored record of an id listed in the author's index. */
  lemma PostsByAuthorListed(index: map<string, seq<string>>, posts: map<string, Post>, authorId: string, limit: int)
    ensures var r := PostsByAuthor(index, posts, authorId, limit);
            forall i :: 0 <= i < |r| ==> exists pid :: pid in IndexOf(index, authorId) && pid in posts && posts[pid] == r[i]
  {
    if authorId in index {
      var top := Prefix(Reverse(index[authorId]), limit);
      var keep := pid => pid in posts;
      var pids := Filter(top, keep);
      var found := seq(|pids|, i requires 0 <= i < |pids| => posts[pids[i]]);
      var r := SortDesc(found, CreatedAt);
      ReverseMembers(index[authorId]);
      forall i | 0 <= i < |r| ensures exists pid :: pid in IndexOf(index, authorId) && pid in posts && posts[pid] == r[i] {
        assert r[i] in multiset(found);
        var k :| 0 <= k < |found| && found[k] == r[i];
        assert pids[k] in top;
        assert top == Reverse(index[authorId])[..|top|];
        assert pids[k] in Reverse(index[authorId]);
      }
    }
  }

  class Store {
    var users: map<string, User>
    var posts: map<string, Post>
    /** The keys of `posts` in insertion order (Python dict order). */
    var postOrder: seq<string>
    var engagements: seq<Engagement>
    const retentionSeconds: real
    /** author id -> post ids in insertion order; re-adding a post id appends it again. */
    var recentByAuthor: map<string, seq<string>>

    ghost predicate Valid()
      reads this
    {
      StoreInvariant(users, posts, postOrder, recentByAuthor)
    }

    /** Every id in the insertion order names a stored post whose own id it is. */
    lemma OrderStored()
      requires Valid()
      ensures forall pid :: pid in postOrder ==> pid in posts && posts[pid].id == pid
    {
    }

    constructor(retentionSeconds: real)
      ensures Valid()
      ensures users == map[] && posts == map[] && postOrder == [] && engagements == []
      ensures recentByAuthor == map[] && this.retentionSeconds == retentionSeconds
    {
      users := map[];
      posts := map[];
      postOrder := [];
      engagements := [];
      this.retentionSeconds := retentionSeconds;
      recentByAuthor := map[];
    }

    function GetUser(userId: string): Option<User>
      reads this
    {
      if userId in users then Some(users[userId]) else None
    }

    function GetPost(postId: string): Option<Post>
      reads this
    {
      if postId in posts then Some(posts[postId]) else None
    }

    /** `add_user`: insert or replace the user under its id. */
    method AddUser(user: User)
      requires Valid()
      modifies this
      ensures Valid()
      ensures users == old(users)[user.id := user]
      ensures GetUser(user.id) == Some(user)
      ensures posts == old(posts) && postOrder == old(postOrder)
      ensures engagements == old(engagements) && recentByAuthor == old(recentByAuthor)
    {
      users := users[user.id := user];
    }

    /**
     * `add_post`: insert or replace the post under its id (a new id goes to the end of the
     * dict order, a known one keeps its place) and append the id to its author's index,
     * creating the list if needed, even when the id was already listed.
     */
    method AddPost(post: Post)
      requires Valid()
      modifies this
      ensures Valid()
      ensures posts == old(posts)[post.id := post]
      ensures postOrder == old(postOrder) + (if post.id in old(posts) then [] else [post.id])
      ensures recentByAuthor == old(recentByAuthor)[post.authorId := IndexOf(old(recentByAuthor), post.authorId) + [post.id]]
      ensures GetPost(post.id) == Some(post)
      ensures var idx := IndexOf(recentByAuthor, post.authorId); |idx| >= 1 && idx[|idx| - 1] == post.id
      ensures forall a :: a != post.authorId ==> IndexOf(recentByAuthor, a) == IndexOf(old(recentByAuthor), a)
      ensures users == old(users) && engagements == old(engagements)
    {
      AddPostKeepsInvariant(users, posts, postOrder, recentByAuthor, post);
      var order := postOrder + (if post.id in posts then [] else [post.id]);
      var authorIndex := IndexOf(recentByAuthor, post.authorId) + [post.id];
      ghost var oldIndex := recentByAuthor;
      posts := posts[post.id := post];
      postOrder := order;
      recentByAuthor := recentByAuthor[post.authorId := authorIndex];
      assert IndexOf(recentByAuthor, post.authorId) == authorIndex;
      assert forall a :: a != post.authorId ==> IndexOf(recentByAuthor, a) == IndexOf(oldIndex, a);
    }

    /** `add_engagement`: append to the log. */
    method AddEngagement(e: Engagement)
      requires Valid()
      modifies this
      ensures Valid()
      ensures engagements == old(engagements) + [e]
      ensures users == old(users) && posts == old(posts) && postOrder == old(postOrder)
      ensures recentByAuthor == old(recentByAuthor)
    {
      engagements := engagements + [e];
    }

    /** `get_users`: exactly the requested ids that exist, each mapped to its stored user. */
    function GetUsers(userIds: seq<string>): (r: map<string, User>)
      reads this
      ensures forall uid :: uid in r <==> uid in userIds && uid in users
      ensures forall uid :: uid in r ==> r[uid] == users[uid]
    {
      map uid | uid in userIds && uid in users :: users[uid]
    }

    /**
     * `get_posts`: the dict of the requested ids that exist, as `(id, post)` entries in
     * dict order (first request order, each id once), each holding the stored record.
     */
    function GetPosts(postIds: seq<string>): (r: seq<(string, Post)>)
      reads this
      ensures |r| == |SelectedIds(posts, postIds)|
      ensures forall i :: 0 <= i < |r| ==>
                r[i].0 == SelectedIds(posts, postIds)[i] && r[i].0 in posts && r[i].1 == posts[r[i].0]
    {
      var ps := posts;
      var keys := SelectedIds(ps, postIds);
      SelectedIdsFacts(ps, postIds);
      seq(|keys|, i requires 0 <= i < |keys| => (keys[i], ps[keys[i]]))
    }

    /** `get_posts_by_author` on the current state; `PostsByAuthorOrdered` and `PostsByAuthorListed` state what it returns. */
    function GetPostsByAuthor(authorId: string, limit: int): seq<Post>
      reads this
    {
      PostsByAuthor(recentByAuthor, posts, authorId, limit)
    }

    /**
     * `get_recent_post_ids_for_following`: for each followed author in turn, the newest
     * recent posts of its index, at most `limitPerAuthor` each.
     */
    method GetRecentPostIdsForFollowing(followingIds: seq<string>, limitPerAuthor: int,
                                        maxAgeSeconds: Option<real>, now: real)
      returns (out: seq<string>)
      ensures out == RecentForFollowing(recentByAuthor, posts, followingIds, limitPerAuthor,
                                        Cutoff(now, maxAgeSeconds, retentionSeconds))
    {
      var cutoff := now - Window(maxAgeSeconds, retentionSeconds);
      out := [];
      for i := 0 to |followingIds|
        invariant out == RecentForFollowing(recentByAuthor, posts, followingIds[..i], limitPerAuthor, cutoff)
      {
        var aid := followingIds[i];
        assert followingIds[..i + 1][..i] == followingIds[..i];
        if aid in recentByAuthor {
          var block := NewestRecent(aid, limitPerAuthor, cutoff);
          out := out + block;
        }
      }
      assert followingIds[..|followingIds|] == followingIds;
    }

    /** The inner loop of `get_recent_post_ids_for_following` over one author's index. */
    method NewestRecent(authorId: string, limitPerAuthor: int, cutoff: real) returns (block: seq<string>)
      requires authorId in recentByAuthor
      ensures block == RecentBlock(recentByAuthor, posts, authorId, limitPerAuthor, cutoff)
    {
      var cap := if limitPerAuthor > 0 then limitPerAuthor else 0;
      var rev := Reverse(recentByAuthor[authorId]);
      var seen := 0;
      block := [];
      for j := 0 to |rev|
        invariant seen == |block| <= cap
        invariant block + TakeRecent(rev[j..], posts, cap - seen, cutoff) == TakeRecent(rev, posts, cap, cutoff)
      {
        if seen >= limitPerAuthor {
          assert cap - seen == 0;
          assert block + [] == block;
          return;
        }
        var pid := rev[j];
        assert rev[j..] == [pid] + rev[j + 1..];
        if pid in posts && posts[pid].createdAt >= cutoff {
          assert block + TakeRecent(rev[j..], posts, cap - seen, cutoff)
              == (block + [pid]) + TakeRecent(rev[j + 1..], posts, cap - seen - 1, cutoff);
          block := block + [pid];
          seen := seen + 1;
        }
      }
      assert block + [] == block;
    }

    /**
     * `get_global_recent`: collect `(created_at, id)` for the recent ORIGINAL posts in
     * dict order, sort newest first, keep `limit`, return the ids.
     */
    method GetGlobalRecent(limit: int, maxAgeSeconds: Option<real>, now: real) returns (ids: seq<string>)
      requires Valid()
      ensures ids == GlobalRecent(postOrder, posts, limit, Cutoff(now, maxAgeSeconds, retentionSeconds))
    {
      var cutoff := now - Window(maxAgeSeconds, retentionSeconds);
      assert cutoff == Cutoff(now, maxAgeSeconds, retentionSeconds);
      OrderStored();
      var acc := CollectRecentOriginals(postOrder, posts, cutoff);
      acc := SortDesc(acc, Stamp);
      ids := Map(Prefix(acc, limit), SecondOf);
      assert ids == GlobalRecent(postOrder, posts, limit, cutoff);
    }

    /** The collecting loop of `get_global_recent`, over the posts in dict order. */
    static method CollectRecentOriginals(order: seq<string>, ps: map<string, Post>, cutoff: real)
      returns (acc: seq<(real, string)>)
      requires forall pid :: pid in order ==> pid in ps && ps[pid].id == pid
      ensures acc == RecentOriginals(order, ps, cutoff)
    {
      acc := [];
      for i := 0 to |order|
        invariant acc == RecentOriginals(order[..i], ps, cutoff)
      {
        var p := ps[order[i]];
        assert order[..i + 1][..i] == order[..i];
        if p.createdAt >= cutoff && p.postType == Original {
          acc := acc + [(p.createdAt, p.id)];
        }
      }
      assert order[..|order|] == order;
    }

    /**
     * `get_topic_counts`: count every topic value of the posts at or after the cutoff,
     * then sort by count, largest first, and keep `limit` pairs.
     */
    method GetTopicCounts(maxAgeSeconds: Option<real>, limit: int, now: real) returns (top: seq<(string, int)>)
      requires Valid()
      ensures top == TopicCounts(postOrder, posts, limit, Cutoff(now, maxAgeSeconds, retentionSeconds))
    {
      var cutoff := now - Window(maxAgeSeconds, retentionSeconds);
      assert cutoff == Cutoff(now, maxAgeSeconds, retentionSeconds);
      OrderStored();
      var counts := TallyRecentTopics(postOrder, posts, cutoff);
      top := Prefix(SortDesc(counts, CountKey), limit);
      assert top == TopicCounts(postOrder, posts, limit, cutoff);
    }

    /** The counting loop of `get_topic_counts`, over the posts in dict order. */
    static method TallyRecentTopics(order: seq<string>, ps: map<string, Post>, cutoff: real)
      returns (counts: seq<(string, int)>)
      requires forall pid :: pid in order ==> pid in ps
      ensures counts == Tally(RecentTopicValues(order, ps, cutoff))
    {
      counts := [];
      for i := 0 to |order|
        invariant counts == Tally(RecentTopicValues(order[..i], ps, cutoff))
      {
        var pid := order[i];
        var p := ps[pid];
        TakeSnoc(order, i);
        RecentTopicValuesSnoc(order[..i], ps, cutoff, pid);
        if p.createdAt >= cutoff {
          counts := CountTopics(counts, RecentTopicValues(order[..i], ps, cutoff), p.topics);
        }
      }
      assert order[..|order|] == order;
    }

    /** The inner loop of `get_topic_counts`: bump the count of each topic value of one post. */
    static method CountTopics(counts: seq<(string, int)>, ghost seen: seq<string>, topics: seq<Topic>)
      returns (r: seq<(string, int)>)
      requires counts == Tally(seen)
      ensures r == Tally(seen + Map(topics, TopicValue))
    {
      r := counts;
      assert seen + Map(topics[..0], TopicValue) == seen;
      for j := 0 to |topics|
        invariant r == Tally(seen + Map(topics[..j], TopicValue))
      {
        var v := TopicValue(topics[j]);
        assert seen + Map(topics[..j + 1], TopicValue) == (seen + Map(topics[..j], TopicValue)) + [v];
        r := Bump(r, v);
      }
      assert topics[..|topics|] == topics;
    }

    /**
     * `get_engagement_counts`: one entry per engagement type, each the number of logged
     * engagements with this post id and that type.
     */
    method GetEngagementCounts(postId: string) returns (counts: map<EngagementType, int>)
      ensures counts.Keys == AllEngagementTypes
      ensures forall t :: t in counts ==> counts[t] == CountEngagements(engagements, postId, t)
    {
      counts := map[Like := 0, Repost := 0, Reply := 0, Quote := 0, ProfileClick := 0, NotInterested := 0];
      for i := 0 to |engagements|
        invariant counts.Keys == AllEngagementTypes
        invariant forall t :: t in counts ==> counts[t] == CountEngagements(engagements[..i], postId, t)
      {
        var e := engagements[i];
        assert engagements[..i + 1][..i] == engagements[..i];
        assert e.engagementType in AllEngagementTypes by {
          match e.engagementType
          case Like => case Repost => case Reply => case Quote => case ProfileClick => case NotInterested =>
        }
        if e.postId == postId {
          counts := counts[e.engagementType := counts[e.engagementType] + 1];
        }
      }
      assert engagements[..|engagements|] == engagements;
    }

    /**
     * `get_user_engagement_post_ids`: walk the log newest first, skip other users and
     * already-seen posts, append, and stop once `limit` ids are collected.
     */
    method GetUserEngagementPostIds(userId: string, limit: int) returns (out: seq<string>)
      ensures out == EngagementHistory(engagements, userId, limit)
    {
      var keep := e => ByUser(e, userId);
      var rev := Reverse(engagements);
      var seen: set<string> := {};
      out := [];
      for j := 0 to |rev|
        invariant out == Dedup(PostIdsWhere(rev[..j], keep)) && |out| < AppendCap(limit)
        invariant forall x :: x in seen <==> x in out
      {
        var e := rev[j];
        PostIdsWhereStep(rev, j, keep);
        if e.userId != userId {
          assert !keep(e);
          assert PostIdsWhere(rev[..j + 1], keep) == PostIdsWhere(rev[..j], keep);
          continue;
        }
        assert keep(e);
        assert PostIdsWhere(rev[..j + 1], keep) == PostIdsWhere(rev[..j], keep) + [e.postId];
        DedupSnoc(PostIdsWhere(rev[..j], keep), e.postId);
        if e.postId in seen {
          assert out == Dedup(PostIdsWhere(rev[..j + 1], keep));
          continue;
        }
        seen := seen + {e.postId};
        out := out + [e.postId];
        assert out == Dedup(PostIdsWhere(rev[..j + 1], keep));
        if |out| >= limit {
          DedupOfPrefix(rev, j + 1, keep);
          return;
        }
      }
      assert rev[..|rev|] == rev;
    }

    /**
     * `get_negative_engagement_post_ids`: walk the log newest first, keep this user's
     * NOT_INTERESTED post ids, and stop once `limit` are collected.
     */
    method GetNegativeEngagementPostIds(userId: string, limit: int) returns (out: seq<string>)
      ensures out == NegativeHistory(engagements, userId, limit)
    {
      var keep := e => NegativeByUser(e, userId);
      var rev := Reverse(engagements);
      out := [];
      for j := 0 to |rev|
        invariant out == PostIdsWhere(rev[..j], keep) && |out| < AppendCap(limit)
      {
        var e := rev[j];
        assert rev[..j + 1] + rev[j + 1..] == rev;
        assert rev[..j + 1] == rev[..j] + [e];
        assert rev[..j + 1][..j] == rev[..j];
        if e.userId != userId || e.engagementType != NotInterested {
          assert PostIdsWhere(rev[..j + 1], keep) == PostIdsWhere(rev[..j], keep);
          continue;
        }
        assert keep(e);
        assert PostIdsWhere(rev[..j + 1], keep) == PostIdsWhere(rev[..j], keep) + [e.postId];
        out := out + [e.postId];
        if |out| >= limit {
          PostIdsWhereAppend(rev[..j + 1], rev[j + 1..], keep);
          PrefixOfLonger(PostIdsWhere(rev[..j + 1], keep), PostIdsWhere(rev[j + 1..], keep), AppendCap(limit));
          return;
        }
      }
      assert rev[..|rev|] == rev;
    }
  }
}
