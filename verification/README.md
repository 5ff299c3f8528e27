# Personalized X recommendation: the feed-ranking core in Dafny

This project models the backend core of a "For You" feed recommender. The modelled core has these parts:

- **The in-memory `Store`** (`backend/store.py`). It holds users, posts, an append-only engagement log and a per-author index of post ids in insertion order. It answers windowed, capped, sorted and de-duplicated queries over them.
- **The two candidate sources** (`backend/ranking/sources.py`). The in-network ("Thunder") source reads the posts of followed accounts. The out-of-network ("Phoenix") source reads the global pool of recent ORIGINAL posts and drops followed authors.
- **The four pre-scoring filters** (`backend/ranking/filters.py`).
- **The explainable weighted scorer and the author-diversity rescorer** (`backend/ranking/scorers.py`).
- **`HomeMixer.get_feed`** (`backend/ranking/home_mixer.py`). It runs the stages in order, takes the top `limit`, toggles explanations and attaches parent and quoted posts.
- **Two text sanitisers and their surroundings.** The news-article sanitiser and article-to-candidate mapping are in `backend/ranking/realtime_sources.py`. The language-model output sanitiser, the Gemini model list and the context excerpt are in `backend/llm_provider.py`.

The files follow the program's structure.

| file | module | models |
|---|---|---|
| `wrappers.dfy` | `Wrappers` | `Option` (Python's `X \| None`) |
| `sequences.dfy` | `Sequences` | slicing, stable descending sort, filtering, de-duplication, subsequences |
| `text.dfy` | `Text` | `str.strip`, `str.split`, `re.sub(r"\s+", " ", s)`, ASCII `lower`, `int(x)`, `str(n)` |
| `schemas.dfy` | `Schemas` | the records of `backend/schemas.py` |
| `ranking_types.dfy` | `RankingTypes` | `Candidate` and `ScoredCandidate` of `backend/ranking/types.py` |
| `store.dfy` | `StoreModel` | the `Store` class |
| `sources.dfy` | `Sources` | `thunder_source`, `phoenix_source`, `get_candidates` |
| `filters.dfy` | `Filters` | the pre-scoring filters |
| `scorers.dfy` | `Scorers` | `weighted_scorer`, `author_diversity_scorer` and their helpers |
| `home_mixer.dfy` | `HomeMixerModel` | the `HomeMixer` class and the feed it returns |
| `realtime_sources.dfy` | `RealtimeSources` | `_sanitize_text`, the category map, the article loop of `_fetch_news_api` |
| `llm_provider.dfy` | `LlmProvider` | `_sanitize`, `models_to_try`, the `generate_post` context excerpt |

## Modelling choices

**The Store.** `StoreModel.Store` is a class whose fields are reassigned by its methods:

- `users` and `posts` are maps;
- `engagements` is a sequence;
- `recentByAuthor` is a map of sequences.

Python dictionaries iterate in insertion order, and `get_global_recent` and `get_topic_counts` iterate the post dictionary. The class therefore keeps `postOrder`, the post ids in first-insertion order, beside `posts`. The ghost predicate `Valid` ties the two together.

**Methods and specification functions.** Each query method with a loop is proved equal to a specification function of the state. The properties the source promises are then lemmas about that function. The sources and the home mixer read the store through `SnapshotOf(store)`, a value copy of its fields.

**Python semantics made explicit:**

- A slice `xs[:k]` is `Sequences.Prefix`, which counts from the end when `k` is negative, as Python does.
- `sorted(..., reverse=True)` is `Sequences.SortDesc`. It is an insertion sort in which an element stays ahead of later elements with an equal key, so it is stable.
- `x or default` on an optional number treats `0` as missing (`StoreModel.Window`).
- `d.get(k, 0)` is `RankingTypes.CountOf`.

**Clock and foreign code as parameters:**

- Every `time.time()` call is the parameter `now`. One request reads the clock once.
- `math.tanh`, the secret-redacting regular expression and `datetime.fromisoformat(...).timestamp()` are function-valued parameters (`tanh`, `redact`, `parseTimestamp`). Nothing is assumed about them beyond what a lemma's `requires` states.
- For the news source, the environment variables and the HTTP response are parameters: the API key, the category variable, and the article list, or `None` for a failed request.

**Scores are `real`.** Division by zero is the only arithmetic failure. The recency boost `1 / (1 + age/3600)` has a zero denominator when a post is stamped exactly one hour after `now`. Scoring therefore requires `Scorers.RecencyDefined` of every scored post, and `get_feed` requires `HomeMixerModel.ScorableAt` of the store.

**Two quirks of the code are kept as written:**

- **`add_post` with an id already stored.** It replaces the record but appends the id to the author's index again. The index can then list an id twice, and can list it under an author that no longer wrote it.
- **`get_user_engagement_post_ids` and `get_negative_engagement_post_ids`.** They append before testing `len(out) >= limit`, so a `limit <= 0` still lets one id through (`StoreModel.AppendCap`).

## Model

| member | source | states |
|---|---|---|
| Schemas.EngagementValueRoundTrip | backend/schemas.py:81-87 | `EngagementType(t.value)` gives back `t` for every enumerator, and exactly the six listed strings name an enumerator |
| StoreModel.Store.constructor | backend/store.py:14-19 | a new store is empty, keeps its retention window and satisfies the store invariant |
| StoreModel.Store.AddUser | backend/store.py:22-23 | the user is stored under its id (replacing any earlier one) and `get_user` returns it; posts, log and index are unchanged |
| StoreModel.Store.AddPost | backend/store.py:39-44 | `get_post(p.id)` returns `p`; `p.id` is the last entry of its author's index list; no other author's list changes; users and log are unchanged; the invariant is kept |
| StoreModel.AddPostKeepsInvariant | backend/store.py:39-44 | adding a post, new or re-added, keeps the invariant: the post order lists each stored post once, records are keyed by their own ids, every indexed id is stored, and every stored post is listed under its current author |
| StoreModel.Store.AddEngagement | backend/store.py:105-106 | the engagement is appended to the log and nothing else changes |
| StoreModel.Store.GetUsers | backend/store.py:28-29 | the result has a key exactly for each requested id that exists, mapped to its stored user |
| StoreModel.Store.GetPosts | backend/store.py:49-50 | the entries are exactly the requested ids that exist, in first-request order, each once, each with its stored post |
| StoreModel.SelectedIdsFacts | backend/store.py:49-50 | the keys of a batch lookup are distinct and are exactly the requested ids present in the map |
| StoreModel.Store.GetRecentPostIdsForFollowing | backend/store.py:55-72 | the loop returns the concatenation, in `following_ids` order, of each followed author's block |
| StoreModel.Store.NewestRecent | backend/store.py:64-71 | the inner loop with its early `break` returns exactly the author's block |
| StoreModel.TakeRecentFacts | backend/store.py:64-71 | walking newest-first with a budget yields at most the budget, only stored posts at or after the cutoff, in index order reversed |
| StoreModel.RecentBlockFacts | backend/store.py:62-71 | a block has at most `limit_per_author` ids (none for a non-positive limit), all recent stored posts, newest-inserted first; an author missing from the index contributes nothing |
| StoreModel.RecentForFollowingLength | backend/store.py:55-72 | the result never exceeds `len(following_ids) * limit_per_author` |
| StoreModel.RecentForFollowingMembers | backend/store.py:55-72 | every returned id is a recent stored post listed in the index of some followed author |
| StoreModel.PostsByAuthorOrdered | backend/store.py:74-80 | the posts come newest first and there are at most `limit` of them for a non-negative `limit` |
| StoreModel.PostsByAuthorListed | backend/store.py:76-79 | every returned post is the stored record of an id listed in that author's index |
| StoreModel.Store.GetGlobalRecent | backend/store.py:82-90 | the method returns the recent ORIGINAL posts' ids, stably sorted newest first and cut to `limit` |
| StoreModel.Store.CollectRecentOriginals | backend/store.py:85-88 | the accumulation loop collects the `(created_at, id)` pairs of recent ORIGINAL posts in dictionary order |
| StoreModel.RecentOriginalsFacts | backend/store.py:85-88 | each collected pair is an eligible post with its own timestamp, and every eligible post has its pair |
| StoreModel.GlobalRecentOrdered | backend/store.py:82-90 | at most `limit` ids for a non-negative `limit`, only ORIGINAL posts at or after the cutoff, creation times non-increasing |
| StoreModel.GlobalRecentTop | backend/store.py:89-90 | every eligible post left out of the pool is no newer than any post in it |
| StoreModel.Store.GetTopicCounts | backend/store.py:92-102 | the method returns the tally of recent posts' topic values stably sorted by count descending, cut to `limit` |
| StoreModel.Store.TallyRecentTopics | backend/store.py:95-100 | the counting loop over the posts builds the tally of all recent topic values |
| StoreModel.Store.CountTopics | backend/store.py:99-100 | the inner loop over one post's topics extends the tally by those topics |
| StoreModel.TallyFacts | backend/store.py:95-100 | the tally has one entry per distinct value, in first-seen order, each with its exact number of occurrences |
| StoreModel.TopicCountsExact | backend/store.py:92-102 | every pair is a recent topic with its exact occurrence count (at least 1); counts never increase; at most `limit` pairs for a non-negative `limit` |
| StoreModel.TopicCountsDistinct | backend/store.py:101-102 | no topic appears twice in the result |
| StoreModel.Store.GetEngagementCounts | backend/store.py:108-113 | there is a key for every engagement type, and each value is the number of logged engagements with that post id and type |
| StoreModel.Store.GetUserEngagementPostIds | backend/store.py:115-128 | the loop over the reversed log returns the user's distinct post ids newest first, cut to `limit` (to one when `limit <= 0`) |
| StoreModel.EngagementHistoryFacts | backend/store.py:115-128 | no duplicates; a subsequence of the user's post ids newest first; only ids the user engaged with; at most `max(limit, 1)`; if fewer than `limit` come back, every post the user engaged with is among them |
| StoreModel.Store.GetNegativeEngagementPostIds | backend/store.py:130-139 | the loop returns the user's NOT_INTERESTED post ids newest first, repeats kept, cut to `limit` (to one when `limit <= 0`) |
| StoreModel.NegativeHistoryFacts | backend/store.py:130-139 | only this user's NOT_INTERESTED post ids, in newest-first log order, at most `max(limit, 1)` |
| Sources.EngagementCountsByValue | backend/ranking/sources.py:25-26 | a candidate's counts have exactly one key per engagement-type string value, holding the logged count for that type |
| Sources.ByValueFacts | backend/ranking/sources.py:26 | re-keying a full per-type count map by the enumerators' string values keeps every count, under its value, with exactly the six values as keys |
| Sources.CandidatesForFacts | backend/ranking/sources.py:22-35 | each looked-up id yields one candidate, in order, carrying the stored post and stored author (or none), the source tag and the logged counts; distinct ids give distinct candidates |
| Sources.InNetworkIdsFacts | backend/ranking/sources.py:16-20 | nothing for an unknown user or one who follows nobody; at most `limit_in_network` ids; each a recent stored post listed under a followed account |
| Sources.InNetworkFacts | backend/ranking/sources.py:14-35 | `thunder_source` returns `[]` without followees, at most `limit_in_network` candidates, no repeated post id, each tagged `in_network`, hydrated from the store, recent, and listed under a followed account |
| Sources.InNetworkHydrated | backend/ranking/sources.py:22-34 | every in-network candidate is hydrated from the store and tagged `in_network` |
| Sources.OutOfNetworkIdsFacts | backend/ranking/sources.py:42-50 | at most `limit_oon` ids, each taken from the global pool of size `2*limit_oon`, each an eligible ORIGINAL post whose author the user does not follow |
| Sources.OutOfNetworkFacts | backend/ranking/sources.py:38-68 | `phoenix_source` returns at most `limit_oon` candidates, no repeated post id, each tagged `out_of_network`, by an unfollowed author, an ORIGINAL post from the pool, hydrated from the store |
| Sources.OutOfNetworkHydrated | backend/ranking/sources.py:53-67 | every out-of-network candidate is hydrated from the store |
| Sources.SelectedIdsLength | backend/ranking/sources.py:20 | a batch lookup never returns more ids than were requested |
| Sources.ThunderSource | backend/ranking/sources.py:14-35 | the method's loop returns exactly the in-network candidates of the current store |
| Sources.PhoenixSource | backend/ranking/sources.py:38-68 | the method returns exactly the out-of-network candidates of the current store, whatever `friends_vs_global` is |
| Sources.LookupCandidates | backend/ranking/sources.py:20-21 | the `get_posts`/`get_users` lookups followed by the loop give one candidate per existing requested id, in dictionary order |
| Sources.BuildCandidates | backend/ranking/sources.py:22-35 | the append loop builds one candidate per `(pid, post)` entry, in entry order |
| Sources.MakeCandidate | backend/ranking/sources.py:24-34 | one loop step builds the candidate of that stored post: its author if stored, the tag and its counts by value |
| Sources.GetCandidates | backend/ranking/sources.py:71-76 | the result is the in-network candidates followed by the out-of-network ones, independent of `friends_vs_global` |
| Filters.FirstOccurrencesSubseq | backend/ranking/filters.py:14-22 | de-duplication only drops candidates and keeps the order |
| Filters.FirstOccurrencesIds | backend/ranking/filters.py:14-22 | the output contains every post id of the input and no other |
| Filters.FirstOccurrencesDistinct | backend/ranking/filters.py:14-22 | no two output candidates share a post id |
| Filters.FirstOccurrencesKeepsFirst | backend/ranking/filters.py:14-22 | the first candidate with each post id is the one kept |
| Filters.DropDuplicates | backend/ranking/filters.py:14-22 | the `seen`-set loop returns the first occurrences: a subsequence with distinct ids, every input id, and each first occurrence kept |
| Filters.AgeFilter | backend/ranking/filters.py:25-28 | keeps exactly the candidates created at or after `now - max_age_hours*3600`, in order |
| Filters.SelfPostFilter | backend/ranking/filters.py:31-33 | removes exactly the viewer's own posts, keeping the order |
| Filters.PreviouslySeenFilter | backend/ranking/filters.py:36-42 | the identity for an empty seen set; otherwise removes exactly the seen post ids, in order |
| Filters.PreScoringFilteredFacts | backend/ranking/filters.py:45-58 | the output is a subsequence of the input with distinct ids, no viewer posts, nothing older than the cutoff and no seen ids; every first occurrence that passes all three tests is kept |
| Filters.ApplyPreScoringFilters | backend/ranking/filters.py:45-58 | the method applies the four filters in the source's order and returns the filtered list |
| Scorers.RecencyBoost | backend/ranking/scorers.py:64-67 | for a post not in the future the boost lies in (0, 1] |
| Scorers.RecencyBoostMonotone | backend/ranking/scorers.py:64-67 | an older post never gets a larger recency boost |
| Scorers.HeuristicActionScores | backend/ranking/scorers.py:43-46 | the four negative-action probabilities are 0.05, 0.02, 0.03 and 0.01 times `negative_signal_strength`, whatever the candidate |
| Scorers.BasePositiveInUnitRange | backend/ranking/scorers.py:21-33 | with the blend weight in [0, 1] and a bounded `tanh`, the recency/popularity blend lies in [0, 1] |
| Scorers.CountScaledProbabilitiesInUnitRange | backend/ranking/scorers.py:36-37 | the like and repost probabilities lie in [0, 1] under the same conditions and non-negative counts |
| Scorers.FixedScaledProbabilitiesInUnitRange | backend/ranking/scorers.py:38-42 | the reply, quote, click, share and follow probabilities lie in [0, 1] under the same conditions |
| Scorers.CountScaledProbs | backend/ranking/scorers.py:36-37 | for a non-negative blend `b` and count, the like probability lies between 0.4b and 0.7b and the repost probability between 0.2b and 0.4b; from 20 likes (10 reposts) on they are exactly 0.7b (0.4b) |
| Scorers.CountFactorsGrow | backend/ranking/scorers.py:36-37 | the like (repost) factor never decreases as the count grows, stays within [0.4, 0.7] ([0.2, 0.4]), and is 0.7 from 20 likes (0.4 from 10 reposts) on |
| Scorers.CountScaledMonotone | backend/ranking/scorers.py:36-37 | for a fixed non-negative blend, more likes (reposts) never lower the like (repost) probability |
| Scorers.TopicBoost | backend/ranking/scorers.py:50-61 | 0.5 for a post without topics; otherwise the mean of the per-topic weights, with 0.1 for topics outside the five weighted ones |
| Scorers.TopicWeightSumBounds | backend/ranking/scorers.py:61 | with weights in [0, 1] the summed topic weights lie between 0 and the number of topics |
| Scorers.TopicBoostInUnitRange | backend/ranking/scorers.py:50-61 | with weights in [0, 1] the topic boost lies in [0, 1] |
| Scorers.ActionRow | backend/ranking/scorers.py:88-91 | a breakdown row records the action, its weight and its probability (0 when absent), and contributes weight × probability |
| Scorers.ActionScoresFor | backend/ranking/scorers.py:86-96 | one breakdown row per table entry, in table order |
| Scorers.ScoreCandidate | backend/ranking/scorers.py:80-116 | the scored candidate keeps its candidate; its explanation names the post and source, has rank 0 and no diversity penalty, and lists the 7 positive then 4 negative rows; the in-network boost is `1 + 0.5(1 − friends_vs_global)` for in-network candidates and 1 otherwise; the topic and recency boosts are `_topic_boost` of the post's topics and `_recency_boost` of its time; the score equals `Σ contributions × in_net_boost + 0.2(topic − 0.5) + 0.1(recency − 0.5)` of these recorded components |
| Scorers.AccumulateActions | backend/ranking/scorers.py:85-96 | the accumulation loops build the breakdown rows and their summed contributions |
| Scorers.ScoreOne | backend/ranking/scorers.py:81-116 | the loop body scores one candidate as `ScoreCandidate` describes |
| Scorers.WeightedScorer | backend/ranking/scorers.py:70-117 | one scored candidate per input, in input order |
| Scorers.Penalize | backend/ranking/scorers.py:129-135 | the first pass yields one entry per input |
| Scorers.PenalizeAt | backend/ranking/scorers.py:129-135 | the entry at position `i` is penalised by `(k − 1) · strength · 0.15`, where `k − 1` is how often its author appeared before it, and gets tentative rank `i + 1` |
| Scorers.PenalizeCandidates | backend/ranking/scorers.py:129-135 | the first pass keeps the candidates and their order |
| Scorers.PenalizeOneFacts | backend/ranking/scorers.py:130-135 | an author's first entry gets no penalty; the new score is `max(0, old − penalty)`, is recorded in both places, and is ≥ 0; for a non-negative strength the penalty is ≥ 0 and the new score at most `max(0, old)` |
| Scorers.PenalizeExplained | backend/ranking/scorers.py:132-134 | after the first pass every score is ≥ 0 and equals the explanation's recomputed score minus its penalty, floored at 0 |
| Scorers.AssignRanks | backend/ranking/scorers.py:138-139 | the entry at position `i` gets rank `i + 1` and nothing else changes |
| Scorers.AssignRanksFacts | backend/ranking/scorers.py:137-139 | numbering ranks keeps candidates, scores, sortedness and score consistency |
| Scorers.DiversityRescoreOrder | backend/ranking/scorers.py:120-140 | the result is a permutation of the input's candidates, sorted non-increasingly by the new score, with ranks exactly 1..N |
| Scorers.DiversityRescoreExplained | backend/ranking/scorers.py:124-140 | every rescored score is ≥ 0 and consistent with its explanation's components and penalty |
| Scorers.DiversityRescoreBounded | backend/ranking/scorers.py:124-140 | for a non-negative strength and explained input scores, every output entry has a penalty ≥ 0, a score at most `max(0, explained score)`, and the explained score of the same candidate's input entry |
| Scorers.DiversityRescoreKeepsSubjects | backend/ranking/scorers.py:134 | every explanation still names its own candidate's post and source |
| Scorers.PenalizeRepeatedAuthors | backend/ranking/scorers.py:125-135 | the `author_counts` loop computes the first pass |
| Scorers.NumberRanks | backend/ranking/scorers.py:137-139 | the rank-fixing loop numbers the entries 1..N |
| Scorers.AuthorDiversityScorer | backend/ranking/scorers.py:120-140 | the method returns a permutation of the input's candidates, sorted by new score, ranked 1..N |
| HomeMixerModel.FeedCandidatesHydrated | backend/ranking/home_mixer.py:43-53 | every sourced candidate is hydrated from the store; with `following_only` all are `in_network` |
| HomeMixerModel.FeedFilteredFacts | backend/ranking/home_mixer.py:55-62 | the filtered candidates have distinct ids, are hydrated, pass the one-week, self-post and seen tests, and are in-network under `following_only` |
| HomeMixerModel.HydratedScorable | backend/ranking/home_mixer.py:64-65 | when no stored post is stamped exactly one hour after `now`, no candidate drawn from the store hits the recency division by zero |
| HomeMixerModel.FeedFilteredScorable | backend/ranking/home_mixer.py:64-65 | the filtered candidates can all be scored |
| HomeMixerModel.ScoreAll | backend/ranking/home_mixer.py:65 | one scored candidate per filtered candidate, in order |
| HomeMixerModel.ScoreAllFacts | backend/ranking/home_mixer.py:65 | scoring keeps the candidates in order; each score is consistent with its explanation, which names its own candidate |
| HomeMixerModel.FeedScoredFacts | backend/ranking/home_mixer.py:64-68 | the rescored list is the diversity rescoring of the scored filtered candidates, which are distinct, consistent and self-explaining |
| HomeMixerModel.SelectionOrder | backend/ranking/home_mixer.py:67-71 | re-sorting the rescored list changes nothing, so the top `limit` is a prefix of it: at most `limit` entries, non-increasing scores, ranks exactly 1..len, scores ≥ 0 and recorded in the explanation |
| HomeMixerModel.SelectionCandidates | backend/ranking/home_mixer.py:70-71 | selection never repeats a post id and only selects candidates it was given |
| HomeMixerModel.FeedTopOrder | backend/ranking/home_mixer.py:67-71 | the feed's selection has those order and rank properties |
| HomeMixerModel.FeedTopCandidates | backend/ranking/home_mixer.py:43-71 | the selected candidates have distinct ids, are hydrated and eligible, and are in-network under `following_only` |
| HomeMixerModel.FeedTopShowable | backend/ranking/home_mixer.py:43-71 | the top `limit` selection holds at most `limit` entries, sorted by score with ranks 1..n, each self-explaining, hydrated, eligible and distinct, in-network under `following_only` |
| HomeMixerModel.FeedItems | backend/ranking/home_mixer.py:74-106 | one item per selected candidate, in order |
| HomeMixerModel.DisplayedCounts | backend/ranking/home_mixer.py:76-84 | the shown post is the stored post with like, repost, reply and quote counts taken from the engagement log |
| HomeMixerModel.ItemsFacts | backend/ranking/home_mixer.py:73-106 | items built from a ranked selection show the stored posts with logged counts and stored authors; they carry parent or quoted posts exactly when those ids are non-empty and stored; they are explained with rank `i + 1` or not at all, as requested |
| HomeMixerModel.FeedFacts | backend/ranking/home_mixer.py:30-108 | `get_feed` returns no cursor and at most `limit` items for a non-negative `limit`. No post appears twice. Each item shows an eligible stored post, is explained as requested, and under `following_only` is `in_network`. Scores do not increase down the feed. |
| HomeMixerModel.ExplanationToggle | backend/ranking/home_mixer.py:102 | turning explanations off only blanks each item's explanation: the same items in the same order |
| HomeMixerModel.Rank | backend/ranking/home_mixer.py:64-71 | the scoring, rescoring and top-`limit` steps compute the stable top `limit` of the rescored list |
| HomeMixerModel.HomeMixer.constructor | backend/ranking/home_mixer.py:27-28 | the mixer holds the given store |
| HomeMixerModel.HomeMixer.GetFeed | backend/ranking/home_mixer.py:30-108 | the response is the feed of the current store, with missing preferences replaced by the defaults and a missing seen set by the empty set |
| HomeMixerModel.HomeMixer.Select | backend/ranking/home_mixer.py:43-71 | stages 1 to 5 compute the feed's selection |
| HomeMixerModel.HomeMixer.FilteredCandidates | backend/ranking/home_mixer.py:43-62 | stages 1 and 2 compute the filtered candidates |
| HomeMixerModel.HomeMixer.Fetch | backend/ranking/home_mixer.py:43-53 | the Following tab reads only the in-network source (limit 300); otherwise both sources with limits 200 and 150 |
| HomeMixerModel.HomeMixer.BuildItems | backend/ranking/home_mixer.py:73-106 | the item-building loop returns the feed items of the selection |
| HomeMixerModel.HomeMixer.Lookup | backend/ranking/home_mixer.py:85-98 | a parent or quoted post is attached only when its id is non-empty and stored, with its stored author |
| RealtimeSources.TopicForCategory | backend/ranking/realtime_sources.py:31-39 | each listed category maps to its topic (in both directions); an unknown category maps to NEWS; POLITICS and MEMES are never produced |
| RealtimeSources.SanitizeText | backend/ranking/realtime_sources.py:42-48 | "" for empty or all-whitespace input; otherwise the input's words joined by single spaces, cut to `max_len − 3` characters plus "..." when longer than `max_len`; never longer than `max_len` when `max_len >= 3` |
| RealtimeSources.CollapsedShape | backend/ranking/realtime_sources.py:45 | the stripped, collapsed text is the input's words (`s.split()`) joined by single spaces; it is non-empty, has no outer whitespace, has only single spaces, and keeps every non-whitespace character in order |
| RealtimeSources.TruncatedShape | backend/ranking/realtime_sources.py:46-47 | a truncation plus "..." is `n + 3` long, trimmed and single-spaced |
| RealtimeSources.Fit | backend/ranking/realtime_sources.py:46-48 | the length cut never leaves more than `max_len` characters when `max_len >= 3` |
| RealtimeSources.FitShape | backend/ranking/realtime_sources.py:46-48 | non-empty, trimmed, single-spaced text comes back unchanged when it fits; otherwise as exactly `max_len` characters, its first `max_len − 3` then "..."; either way still non-empty, trimmed and single-spaced |
| RealtimeSources.SanitizeTextShape | backend/ranking/realtime_sources.py:42-48 | for visible input the collapsed text is the input's words joined by single spaces; the result is that text when it fits, otherwise exactly `max_len` characters, its first `max_len − 3` then "..."; either way non-empty, trimmed and single-spaced |
| RealtimeSources.SanitizeTextFixed | backend/ranking/realtime_sources.py:42-48 | trimmed, single-spaced text that fits is returned unchanged |
| RealtimeSources.SanitizeTextIdempotent | backend/ranking/realtime_sources.py:42-48 | sanitising twice gives the same as sanitising once |
| RealtimeSources.ArticleCreatedAt | backend/ranking/realtime_sources.py:89-98 | without a publish time the `i`-th article is stamped `now − 60·i` |
| RealtimeSources.ArticleText | backend/ranking/realtime_sources.py:81-85 | a titled article's text is non-empty and at most 280 characters |
| RealtimeSources.NewsCandidateOf | backend/ranking/realtime_sources.py:100-134 | the built candidate is an `out_of_network` ORIGINAL post by `news_api`, with no parent or quote, zero counts and the given timestamp |
| RealtimeSources.ArticleCandidate | backend/ranking/realtime_sources.py:80-134 | an article yields no candidate exactly when its stripped title is empty; otherwise a news candidate with the article's timestamp |
| RealtimeSources.CollectSome | backend/ranking/realtime_sources.py:80-84 | skipping articles never yields more candidates than articles |
| RealtimeSources.CollectSomeSound | backend/ranking/realtime_sources.py:80-134 | every collected value comes from some input position |
| RealtimeSources.CollectSomeComplete | backend/ranking/realtime_sources.py:80-134 | every value produced at some position is collected |
| RealtimeSources.ArticlesToCandidatesFacts | backend/ranking/realtime_sources.py:77-135 | at most one candidate per article, each from some article, all news candidates, and every titled article's candidate is included |
| RealtimeSources.NewsApiFacts | backend/ranking/realtime_sources.py:51-135 | nothing without a key or on a failed request; at most `limit` candidates; all news candidates; every titled article among the first `limit` is included |
| RealtimeSources.FetchNewsApi | backend/ranking/realtime_sources.py:51-135 | the article loop returns the candidates of the first `limit` articles |
| LlmProvider.Sanitize | backend/llm_provider.py:19-29 | "" for empty or all-whitespace input; never more than 280 characters; no whitespace at either end |
| LlmProvider.Truncate | backend/llm_provider.py:27-28 | an over-long trimmed text is cut to exactly 280 characters: its first 277 then "...", still with no whitespace at either end |
| LlmProvider.SanitizeCases | backend/llm_provider.py:23-29 | for visible input: `strip(redact(strip(text)))` when it fits in 280, else exactly 280 characters, its first 277 then "..." |
| LlmProvider.SanitizeIdempotent | backend/llm_provider.py:19-29 | sanitising a sanitised text again changes nothing when redaction leaves it alone |
| LlmProvider.GeminiModel | backend/llm_provider.py:121 | the configured model name stripped of outer whitespace, or the default model when none is configured; never with outer whitespace |
| LlmProvider.ConfiguredModels | backend/llm_provider.py:121-123 | the configured model is tried first; with no model configured, the default model then all three fallback models in order |
| LlmProvider.ModelsToTry | backend/llm_provider.py:121-123 | the configured model comes first, then exactly the fallback models other than it, in their order, all of them when it is not one; no model is tried twice |
| LlmProvider.FallbackModelsDistinct | backend/llm_provider.py:122 | the three fallback models are different |
| LlmProvider.ModelsToTryCount | backend/llm_provider.py:122-123 | three models are tried when the configured one is a fallback model, four otherwise |
| LlmProvider.RecentContext | backend/llm_provider.py:177 | the last five context posts, or all when fewer |
| LlmProvider.ExcerptLine | backend/llm_provider.py:178 | a line is "- " plus the text, or plus its first 100 characters and "..." when longer; never more than 105 characters |
| LlmProvider.JoinLength | backend/llm_provider.py:179 | joining `n` lines of width at most `w` with newlines takes at most `n(w + 1)` characters |
| LlmProvider.ContextExcerptFacts | backend/llm_provider.py:175-179 | the excerpt is empty exactly without context posts; otherwise the header then one line per post of the last five, in order; bounded whatever the number of posts |
| Text.Strip | backend/llm_provider.py:21-23 | the result has no outer whitespace and is empty exactly for all-whitespace input |
| Text.StripNonSpace | backend/ranking/realtime_sources.py:45 | stripping keeps every non-whitespace character in order |
| Text.CollapseWords | backend/ranking/realtime_sources.py:45 | collapsing the stripped text is joining its words with single spaces: one space at each word boundary and nowhere else |
| Text.WordsShape | backend/ranking/realtime_sources.py:45 | every word of `s.split()` is non-empty and free of whitespace |
| Text.WordsNonSpace | backend/ranking/realtime_sources.py:45 | the words, run together, are exactly the non-whitespace characters in order |
| Text.WordsOfStrip | backend/ranking/realtime_sources.py:45 | stripping the text does not change its words |
| Text.CollapseSingleSpaced | backend/ranking/realtime_sources.py:45 | after collapsing, every whitespace character is a lone plain space |
| Text.CollapseNonSpace | backend/ranking/realtime_sources.py:45 | collapsing keeps every non-whitespace character in order |
| Text.CollapseSingleSpacedFixed | backend/ranking/realtime_sources.py:45 | collapsing single-spaced text changes nothing |
| Text.CollapseLast | backend/ranking/realtime_sources.py:45 | collapsing keeps the last character, turning whitespace into a plain space |
| Text.CollapseTrimmed | backend/ranking/realtime_sources.py:45 | collapsing text without outer whitespace adds none |
| Text.Lower | backend/ranking/realtime_sources.py:61 | upper-case ASCII letters are lowered and every other character kept |
| Text.TruncateToInt | backend/ranking/realtime_sources.py:100 | `int(x)` truncates toward zero |
| Text.NatToString | backend/ranking/realtime_sources.py:100 | `str(n)` of a natural number is a non-empty string of decimal digits |
| Sequences.Prefix | backend/ranking/home_mixer.py:71 | `xs[:k]` is a prefix of length `min(k, len)` for `k >= 0`, and drops `-k` elements from the end for negative `k` |
| Sequences.SortDesc | backend/ranking/scorers.py:127 | `sorted(..., reverse=True)` returns a permutation of its input with non-increasing keys |
| Sequences.SortDescOfSorted | backend/ranking/home_mixer.py:71 | the stable sort of an already sorted list is that list |
| Sequences.DedupFacts | backend/store.py:50 | keeping first occurrences leaves no duplicates, the same members, and the original order |
| Sequences.Reverse | backend/store.py:65 | `reversed(xs)` holds the same elements in opposite order |

## Left out

- **I/O and persistence.** SQLite persistence (`backend/db.py`), the HTTP routes (`backend/main.py`) and the seed fixtures (`backend/seed.py`) are not part of this model. They do I/O or hold data only.
- **Foreign language-model calls.** `backend/langchain_provider.py`, `_call_openai`, `_call_gemini_new_sdk`, `_call_gemini_one`, `_call_gemini` (its model loop and early exit on errors), the provider fallback of `generate_post`/`generate_reply`, `is_llm_available` and `_build_system_prompt` are left out. They are foreign network calls or environment checks. Only the `models_to_try` list and the context excerpt they build are modelled.
- **The news request.** The HTTP request of `_fetch_news_api` (`pageSize`, `country` and `category` parameters, timeout, status check) is replaced by the parameter `response`, with `None` meaning the request failed.
- **Other real-time sources.** `twitter_source_stub` and `get_realtime_candidates` are left out: environment checks around a stub that always returns `[]`.
- **Unused Store operations.** `Store.update_user`, `Store.list_user_ids` and `Store.iter_all_posts` are not called by the core. `update_user` has the same effect as `AddUser`.
- **Foreign functions as parameters.** `math.tanh`, the `BLOCK_RE` redaction and `datetime.fromisoformat(...).timestamp()` (including the `[:22]` cut and its exception) are uninterpreted parameters. The model makes no claim about what they compute.
- **Floating point.** Scores and timestamps are mathematical reals, so IEEE-754 rounding is not modelled.
- **The clock.** The source reads `time.time()` separately in each stage, and per candidate in the scorer. The model reads one `now` per request.
- **Division by zero.** A post stamped exactly one hour after `now` makes the source raise ZeroDivisionError in `_recency_boost`. The model excludes that state with a precondition instead of modelling the exception.
- **Validation and copying.** Pydantic validation, `model_dump` and `model_copy` are record construction and record update. `raw_breakdown` is kept as two typed fields (`inNetworkBoost`, `probs`). The unused `action_scores`/`raw_features` fields of `Candidate` are dropped.
- **News source name.** `source.name` of a news article is flattened into one optional `sourceName` field.
- **Case and whitespace.** `Text.Lower` lower-cases ASCII letters only. Python's Unicode case mapping is not modelled. `Text.IsSpace` lists the characters Python's `str.isspace` accepts.
- Sequences.SortDesc: stability, meaning that elements with equal keys keep their input order, holds by construction. It is stated only in the form the pipeline relies on, `SortDescOfSorted`.
- Scorers.RecencyBoost: the contract bounds the boost only for posts not dated in the future. The exact formula is its body, and `RecencyBoostMonotone` states how it varies with age.
