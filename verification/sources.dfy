/**
 * Candidate sourcing. The in-network source turns the recent posts of followed accounts
 * into candidates; the out-of-network source draws from the global recent pool and drops
 * followed authors; `get_candidates` concatenates the two, in-network first.
 */
module Sources {
  import opened Wrappers
  import opened Schemas
  import opened Sequences
  import opened RankingTypes
  import opened StoreModel

  /** How many posts per followed author the in-network source asks the store for. */
  const PerAuthorLimit: int := 20

  /** The per-post counts of the store, keyed by engagement type. */
  function CountsByType(log: seq<Engagement>, postId: string): map<EngagementType, int> {
    map t | t in AllEngagementTypes :: CountEngagements(log, postId, t)
  }

  /** `{k.value: v for k, v in counts.items()}`. */
  function ByValue(counts: map<EngagementType, int>): map<string, int> {
    map t | t in counts :: EngagementValue(t) := counts[t]
  }

  /** The engagement counts a candidate carries: one entry per engagement-type value. */
  function EngagementCountsByValue(log: seq<Engagement>, postId: string): (m: map<string, int>)
    ensures m.Keys == EngagementValues
    ensures forall t :: EngagementValue(t) in m && m[EngagementValue(t)] == CountEngagements(log, postId, t)
  {
    EveryTypeListed();
    var counts := CountsByType(log, postId);
    ByValueFacts(counts);
    ByValue(counts)
  }

  /** Re-keying a count for every engagement type by its value keeps every count, under its value. */
  lemma ByValueFacts(counts: map<EngagementType, int>)
    requires forall t :: t in counts
    ensures ByValue(counts).Keys == EngagementValues
    ensures forall t :: EngagementValue(t) in ByValue(counts) && ByValue(counts)[EngagementValue(t)] == counts[t]
  {
    var m := ByValue(counts);
    EngagementValueRoundTrip();
    forall t ensures EngagementValue(t) in m && m[EngagementValue(t)] == counts[t] {
      assert EngagementValue(t) in m;
    }
    forall s | s in EngagementValues ensures s in m {
      var t := EngagementTypeOf(s).value;
      assert EngagementValue(t) == s;
    }
    assert m.Keys == EngagementValues;
  }

  lemma EveryTypeListed()
    ensures forall t :: t in AllEngagementTypes
  {
    forall t ensures t in AllEngagementTypes {
      match t
      case Like => case Repost => case Reply => case Quote => case ProfileClick => case NotInterested =>
    }
  }

  /** The parts of the store the sources read, as one value. */
  datatype Snapshot = Snapshot(
    users: map<string, User>,
    posts: map<string, Post>,
    postOrder: seq<string>,
    engagements: seq<Engagement>,
    recentByAuthor: map<string, seq<string>>,
    retentionSeconds: real)

  function SnapshotOf(store: Store): Snapshot
    reads store
  {
    Snapshot(store.users, store.posts, store.postOrder, store.engagements, store.recentByAuthor, store.retentionSeconds)
  }

  ghost predicate SnapshotValid(s: Snapshot) {
    StoreInvariant(s.users, s.posts, s.postOrder, s.recentByAuthor)
  }

  /** The accounts the user follows, none for an unknown user. */
  function FollowingOf(s: Snapshot, userId: string): seq<string> {
    if userId in s.users then s.users[userId].followingIds else []
  }

  /** `get_user` on a snapshot. */
  function StoredAuthor(s: Snapshot, authorId: string): Option<User> {
    if authorId in s.users then Some(s.users[authorId]) else None
  }

  /**
   * A candidate hydrated from the store: the stored record of its post, the stored author
   * (None when the author is unknown) and the logged engagement counts of the post.
   */
  predicate Hydrated(s: Snapshot, c: Candidate) {
    && c.post.id in s.posts && c.post == s.posts[c.post.id]
    && c.author == StoredAuthor(s, c.post.authorId)
    && c.engagementCounts == EngagementCountsByValue(s.engagements, c.post.id)
  }

  /** The candidate made from a stored post: the record, its author if stored, the tag, its counts. */
  function CandidateFor(s: Snapshot, pid: string, source: NetworkSource): Candidate
    requires pid in s.posts
  {
    var post := s.posts[pid];
    Candidate(post, StoredAuthor(s, post.authorId), source, EngagementCountsByValue(s.engagements, pid))
  }

  /** One candidate per id, in the given order. */
  function CandidatesFor(s: Snapshot, pids: seq<string>, source: NetworkSource): (r: seq<Candidate>)
    requires forall pid :: pid in pids ==> pid in s.posts
    ensures |r| == |pids|
    decreases |pids|
  {
    if pids == [] then []
    else CandidatesFor(s, pids[..|pids| - 1], source) + [CandidateFor(s, pids[|pids| - 1], source)]
  }

  lemma {:induction false} CandidatesForAt(s: Snapshot, pids: seq<string>, source: NetworkSource, i: int)
    requires forall pid :: pid in pids ==> pid in s.posts
    requires 0 <= i < |pids|
    ensures CandidatesFor(s, pids, source)[i] == CandidateFor(s, pids[i], source)
    decreases |pids|
  {
    if i < |pids| - 1 {
      CandidatesForAt(s, pids[..|pids| - 1], source, i);
    }
  }

  /** A list holding the candidate of each id in turn is the list `CandidatesFor` builds. */
  lemma CandidatesForEach(s: Snapshot, pids: seq<string>, source: NetworkSource, cs: seq<Candidate>)
    requires forall pid :: pid in pids ==> pid in s.posts
    requires |cs| == |pids| && forall k :: 0 <= k < |cs| ==> cs[k] == CandidateFor(s, pids[k], source)
    ensures cs == CandidatesFor(s, pids, source)
  {
    forall k | 0 <= k < |cs| ensures cs[k] == CandidatesFor(s, pids, source)[k] {
      CandidatesForAt(s, pids, source, k);
    }
  }

  /**
   * Candidates made from distinct stored ids carry distinct post ids, the stored records,
   * the given tag and one count per engagement-type value.
   */
  lemma CandidatesForFacts(s: Snapshot, pids: seq<string>, source: NetworkSource)
    requires SnapshotValid(s)
    requires forall pid :: pid in pids ==> pid in s.posts
    requires Distinct(pids)
    ensures var r := CandidatesFor(s, pids, source);
            && DistinctPostIds(r)
            && forall i :: 0 <= i < |r| ==> r[i].post.id == pids[i] && r[i].source == source && Hydrated(s, r[i])
  {
    var r := CandidatesFor(s, pids, source);
    forall i | 0 <= i < |r|
      ensures r[i].post.id == pids[i] && r[i].source == source && Hydrated(s, r[i])
    {
      CandidatesForAt(s, pids, source, i);
    }
  }

  /** The ids `thunder_source` turns into candidates: the dict keys of `get_posts(post_ids[:limit])`. */
  function InNetworkIds(s: Snapshot, userId: string, limitInNetwork: int, now: real): (r: seq<string>)
    ensures Distinct(r) && forall pid :: pid in r ==> pid in s.posts
  {
    var following := FollowingOf(s, userId);
    if following == [] then []
    else
      var ids := RecentForFollowing(s.recentByAuthor, s.posts, following, PerAuthorLimit,
                                    Cutoff(now, None, s.retentionSeconds));
      SelectedIdsFacts(s.posts, Prefix(ids, limitInNetwork));
      SelectedIds(s.posts, Prefix(ids, limitInNetwork))
  }

  /** What `thunder_source` returns. */
  function InNetworkCandidates(s: Snapshot, userId: string, limitInNetwork: int, now: real): seq<Candidate> {
    CandidatesFor(s, InNetworkIds(s, userId, limitInNetwork, now), InNetwork)
  }

  /** The ids `phoenix_source` keeps: pool posts by accounts the user does not follow, at most `limitOon`. */
  function OutOfNetworkIds(s: Snapshot, userId: string, limitOon: int, now: real): seq<string> {
    var ps := s.posts;
    var following := set f | f in FollowingOf(s, userId);
    var pool := GlobalRecent(s.postOrder, ps, limitOon * 2, Cutoff(now, None, s.retentionSeconds));
    Prefix(Filter(pool, pid => pid in ps && ps[pid].authorId !in following), limitOon)
  }

  /** What `phoenix_source` returns. */
  function OutOfNetworkCandidates(s: Snapshot, userId: string, limitOon: int, now: real): seq<Candidate> {
    var ids := OutOfNetworkIds(s, userId, limitOon, now);
    if ids == [] then []
    else
      SelectedIdsFacts(s.posts, ids);
      CandidatesFor(s, SelectedIds(s.posts, ids), OutOfNetwork)
  }

  /** `SelectedIds` never returns more ids than were requested. */
  lemma SelectedIdsLength<V>(m: map<string, V>, ids: seq<string>)
    ensures |SelectedIds(m, ids)| <= |ids|
  {
    var f := Filter(ids, pid => pid in m);
    FilterSubseq(ids, pid => pid in m);
    SubseqElements(f, ids);
    DedupFacts(f);
    SubseqElements(Dedup(f), f);
  }

  /**
   * The in-network ids: none for an unknown user or one who follows nobody; otherwise at
   * most `limitInNetwork` of them, each a post created at or after the retention cutoff
   * and listed in the index of a followed account.
   */
  lemma InNetworkIdsFacts(s: Snapshot, userId: string, limitInNetwork: int, now: real)
    ensures var r := InNetworkIds(s, userId, limitInNetwork, now);
            var cutoff := Cutoff(now, None, s.retentionSeconds);
            && (FollowingOf(s, userId) == [] ==> r == [])
            && (limitInNetwork >= 0 ==> |r| <= limitInNetwork)
            && forall i :: 0 <= i < |r| ==>
                 RecentPost(s.posts, r[i], cutoff) && ListedUnder(s.recentByAuthor, FollowingOf(s, userId), r[i])
  {
    var following := FollowingOf(s, userId);
    var cutoff := Cutoff(now, None, s.retentionSeconds);
    var r := InNetworkIds(s, userId, limitInNetwork, now);
    if following != [] {
      var ids := RecentForFollowing(s.recentByAuthor, s.posts, following, PerAuthorLimit, cutoff);
      var top := Prefix(ids, limitInNetwork);
      assert r == SelectedIds(s.posts, top);
      SelectedIdsLength(s.posts, top);
      SelectedIdsFacts(s.posts, top);
      RecentForFollowingMembers(s.recentByAuthor, s.posts, following, PerAuthorLimit, cutoff);
      assert var r0 := RecentForFollowing(s.recentByAuthor, s.posts, following, PerAuthorLimit, cutoff);
             forall i :: 0 <= i < |r0| ==> RecentPost(s.posts, r0[i], cutoff) && ListedUnder(s.recentByAuthor, following, r0[i]);
      forall i | 0 <= i < |r|
        ensures RecentPost(s.posts, r[i], cutoff) && ListedUnder(s.recentByAuthor, following, r[i])
      {
        assert r[i] in top;
        var k :| 0 <= k < |top| && top[k] == r[i];
        assert top[k] == ids[k];
      }
    }
  }

  /**
   * `thunder_source` returns nothing for an unknown user or one who follows nobody;
   * otherwise at most `limitInNetwork` in-network candidates with distinct post ids, each
   * the stored record of a post created at or after the retention cutoff and listed in the
   * index of a followed account.
   */
  lemma InNetworkFacts(s: Snapshot, userId: string, limitInNetwork: int, now: real)
    requires SnapshotValid(s)
    ensures var r := InNetworkCandidates(s, userId, limitInNetwork, now);
            var cutoff := Cutoff(now, None, s.retentionSeconds);
            && (FollowingOf(s, userId) == [] ==> r == [])
            && (limitInNetwork >= 0 ==> |r| <= limitInNetwork)
            && DistinctPostIds(r)
            && forall i :: 0 <= i < |r| ==>
                 && r[i].source == InNetwork
                 && Hydrated(s, r[i])
                 && r[i].post.createdAt >= cutoff
                 && ListedUnder(s.recentByAuthor, FollowingOf(s, userId), r[i].post.id)
  {
    var pids := InNetworkIds(s, userId, limitInNetwork, now);
    var r := InNetworkCandidates(s, userId, limitInNetwork, now);
    var cutoff := Cutoff(now, None, s.retentionSeconds);
    assert r == CandidatesFor(s, pids, InNetwork);
    CandidatesForFacts(s, pids, InNetwork);
    InNetworkIdsFacts(s, userId, limitInNetwork, now);
    forall i | 0 <= i < |r|
      ensures r[i].post.createdAt >= cutoff && ListedUnder(s.recentByAuthor, FollowingOf(s, userId), r[i].post.id)
    {
      assert r[i].post.id == pids[i] && Hydrated(s, r[i]);
      assert RecentPost(s.posts, pids[i], cutoff);
    }
  }

  /**
   * The out-of-network ids: at most `limitOon`, each a stored ORIGINAL post of the global
   * recent pool of size `2 * limitOon` whose author the user does not follow.
   */
  lemma OutOfNetworkIdsFacts(s: Snapshot, userId: string, limitOon: int, now: real)
    ensures var r := OutOfNetworkIds(s, userId, limitOon, now);
            var cutoff := Cutoff(now, None, s.retentionSeconds);
            var pool := GlobalRecent(s.postOrder, s.posts, limitOon * 2, cutoff);
            && (limitOon >= 0 ==> |r| <= limitOon)
            && forall pid :: pid in r ==>
                 && pid in pool && PoolEligible(s.posts, pid, cutoff)
                 && s.posts[pid].authorId !in FollowingOf(s, userId)
  {
    var ps := s.posts;
    var following := set f | f in FollowingOf(s, userId);
    var cutoff := Cutoff(now, None, s.retentionSeconds);
    var pool := GlobalRecent(s.postOrder, ps, limitOon * 2, cutoff);
    var keep := pid => pid in ps && ps[pid].authorId !in following;
    var kept := Filter(pool, keep);
    var r := OutOfNetworkIds(s, userId, limitOon, now);
    assert r == Prefix(kept, limitOon);
    PrefixOfFilter(pool, keep, limitOon);
    GlobalRecentOrdered(s.postOrder, ps, limitOon * 2, cutoff);
    assert forall i :: 0 <= i < |pool| ==> PoolEligible(ps, pool[i], cutoff);
    forall pid | pid in r
      ensures pid in pool && PoolEligible(ps, pid, cutoff) && ps[pid].authorId !in following
    {
      assert pid in pool && keep(pid);
      var j :| 0 <= j < |pool| && pool[j] == pid;
    }
  }

  /**
   * `phoenix_source` returns at most `limitOon` out-of-network candidates with distinct
   * post ids, none by an account the user follows, each a stored ORIGINAL post drawn from
   * the global recent pool of size `2 * limitOon`.
   */
  lemma OutOfNetworkFacts(s: Snapshot, userId: string, limitOon: int, now: real)
    requires SnapshotValid(s)
    ensures var r := OutOfNetworkCandidates(s, userId, limitOon, now);
            var pool := GlobalRecent(s.postOrder, s.posts, limitOon * 2, Cutoff(now, None, s.retentionSeconds));
            && (limitOon >= 0 ==> |r| <= limitOon)
            && DistinctPostIds(r)
            && forall i :: 0 <= i < |r| ==>
                 && r[i].source == OutOfNetwork
                 && r[i].post.authorId !in FollowingOf(s, userId)
                 && r[i].post.id in pool
                 && r[i].post.postType == Original
                 && Hydrated(s, r[i])
  {
    var ids := OutOfNetworkIds(s, userId, limitOon, now);
    OutOfNetworkIdsFacts(s, userId, limitOon, now);
    if ids != [] {
      var pids := SelectedIds(s.posts, ids);
      SelectedIdsFacts(s.posts, ids);
      SelectedIdsLength(s.posts, ids);
      CandidatesForFacts(s, pids, OutOfNetwork);
      var r := OutOfNetworkCandidates(s, userId, limitOon, now);
      var cutoff := Cutoff(now, None, s.retentionSeconds);
      var pool := GlobalRecent(s.postOrder, s.posts, limitOon * 2, cutoff);
      forall i | 0 <= i < |r|
        ensures r[i].post.authorId !in FollowingOf(s, userId) && r[i].post.id in pool && r[i].post.postType == Original
      {
        assert r[i].post == s.posts[pids[i]] && pids[i] in ids;
      }
    }
  }

  /** Each in-network candidate is hydrated from the store and tagged in-network. */
  lemma InNetworkHydrated(s: Snapshot, userId: string, limitInNetwork: int, now: real)
    requires SnapshotValid(s)
    ensures forall c :: c in InNetworkCandidates(s, userId, limitInNetwork, now) ==> Hydrated(s, c) && c.source == InNetwork
  {
    InNetworkFacts(s, userId, limitInNetwork, now);
  }

  /** Each out-of-network candidate is hydrated from the store. */
  lemma OutOfNetworkHydrated(s: Snapshot, userId: string, limitOon: int, now: real)
    requires SnapshotValid(s)
    ensures forall c :: c in OutOfNetworkCandidates(s, userId, limitOon, now) ==> Hydrated(s, c)
  {
    OutOfNetworkFacts(s, userId, limitOon, now);
  }

  /** `thunder_source`. */
  method ThunderSource(store: Store, userId: string, limitInNetwork: int, now: real) returns (out: seq<Candidate>)
    ensures out == InNetworkCandidates(SnapshotOf(store), userId, limitInNetwork, now)
  {
    var s := SnapshotOf(store);
    var user := store.GetUser(userId);
    if user.None? || user.value.followingIds == [] {
      return [];
    }
    var postIds := store.GetRecentPostIdsForFollowing(user.value.followingIds, PerAuthorLimit, None, now);
    out := LookupCandidates(store, Prefix(postIds, limitInNetwork), InNetwork);
  }

  /** `phoenix_source`; its `friends_vs_global` argument is not used by the code. */
  method PhoenixSource(store: Store, userId: string, limitOon: int, friendsVsGlobal: real, now: real)
    returns (out: seq<Candidate>)
    requires store.Valid()
    ensures out == OutOfNetworkCandidates(SnapshotOf(store), userId, limitOon, now)
  {
    var s := SnapshotOf(store);
    var user := store.GetUser(userId);
    var following: set<string> := if user.Some? then set f | f in user.value.followingIds else {};
    var allIds := store.GetGlobalRecent(limitOon * 2, None, now);
    // `posts = get_posts(all_ids)` is the store's post map restricted to `all_ids`, and the
    // comprehension only asks it about ids of `all_ids`, so it reads the store map directly.
    var ps := store.posts;
    assert following == set f | f in FollowingOf(s, userId);
    var oonIds := Prefix(Filter(allIds, pid => pid in ps && ps[pid].authorId !in following), limitOon);
    if oonIds == [] {
      return [];
    }
    out := LookupCandidates(store, oonIds, OutOfNetwork);
  }

  /**
   * The tail both sources share: `get_posts` on the ids, `get_users` on their authors,
   * then one candidate per entry of the post dict.
   */
  method LookupCandidates(store: Store, ids: seq<string>, source: NetworkSource) returns (out: seq<Candidate>)
    ensures forall pid :: pid in SelectedIds(store.posts, ids) ==> pid in store.posts
    ensures out == CandidatesFor(SnapshotOf(store), SelectedIds(store.posts, ids), source)
  {
    SelectedIdsFacts(store.posts, ids);
    var posts := store.GetPosts(ids);
    var users := store.GetUsers(Map(posts, EntryAuthor));
    assert forall i :: 0 <= i < |posts| ==> posts[i].1.authorId == Map(posts, EntryAuthor)[i];
    out := BuildCandidates(store, posts, users, source);
    assert Map(posts, EntryKey) == SelectedIds(store.posts, ids);
    CandidatesForEach(SnapshotOf(store), Map(posts, EntryKey), source, out);
  }

  function EntryKey(e: (string, Post)): string { e.0 }

  function EntryAuthor(e: (string, Post)): string { e.1.authorId }

  /** The loop shared by both sources: one candidate per `(pid, post)` entry of a `get_posts` dict. */
  method BuildCandidates(store: Store, posts: seq<(string, Post)>, users: map<string, User>, source: NetworkSource)
    returns (out: seq<Candidate>)
    requires forall i :: 0 <= i < |posts| ==> posts[i].0 in store.posts && posts[i].1 == store.posts[posts[i].0]
    requires forall i :: 0 <= i < |posts| ==> (posts[i].1.authorId in users <==> posts[i].1.authorId in store.users)
    requires forall uid :: uid in users ==> uid in store.users && users[uid] == store.users[uid]
    ensures |out| == |posts|
    ensures forall k :: 0 <= k < |posts| ==> out[k] == CandidateFor(SnapshotOf(store), posts[k].0, source)
  {
    var s := SnapshotOf(store);
    out := [];
    for i := 0 to |posts|
      invariant |out| == i
      invariant forall k :: 0 <= k < i ==> out[k] == CandidateFor(s, posts[k].0, source)
    {
      var (pid, post) := posts[i];
      var c := MakeCandidate(store, pid, post, users, source);
      out := out + [c];
    }
  }

  /** The body of the candidate loop: look up the author and the counts of one post. */
  method MakeCandidate(store: Store, pid: string, post: Post, users: map<string, User>, source: NetworkSource)
    returns (c: Candidate)
    requires pid in store.posts && post == store.posts[pid]
    requires post.authorId in users <==> post.authorId in store.users
    requires post.authorId in users ==> users[post.authorId] == store.users[post.authorId]
    ensures c == CandidateFor(SnapshotOf(store), pid, source)
  {
    var author := if post.authorId in users then Some(users[post.authorId]) else None;
    var engagement := store.GetEngagementCounts(pid);
    assert engagement == CountsByType(store.engagements, pid);
    var counts := ByValue(engagement);
    c := Candidate(post, author, source, counts);
  }

  /** `get_candidates`: the in-network candidates, then the out-of-network ones; the mix is not used. */
  method GetCandidates(store: Store, userId: string, friendsVsGlobal: real, limits: (int, int), now: real)
    returns (out: seq<Candidate>)
    requires store.Valid()
    ensures out == InNetworkCandidates(SnapshotOf(store), userId, limits.0, now)
                   + OutOfNetworkCandidates(SnapshotOf(store), userId, limits.1, now)
  {
    var inNet := ThunderSource(store, userId, limits.0, now);
    var oon := PhoenixSource(store, userId, limits.1, friendsVsGlobal, now);
    out := inNet + oon;
  }
}
