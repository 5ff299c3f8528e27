/**
 * Records and enumerations shared by the store and the ranking pipeline
 * (users, posts, engagements, tunable preferences and the explainability records).
 */
module Schemas {
  import opened Wrappers

  datatype PostType = Original | ReplyPost | RepostPost | QuotePost

  datatype PersonaKind = Founder | Journalist | Meme | Trader | Politician | CulturePersona | TechPersona

  datatype Topic = Tech | Politics | Culture | Memes | Finance | News | OtherTopic

  /** The string value of each topic enumerator. */
  function TopicValue(t: Topic): string {
    match t
    case Tech => "tech"
    case Politics => "politics"
    case Culture => "culture"
    case Memes => "memes"
    case Finance => "finance"
    case News => "news"
    case OtherTopic => "other"
  }

  datatype User = User(
    id: string,
    handle: string,
    displayName: string,
    bio: string,
    personaKind: Option<PersonaKind>,
    topics: seq<Topic>,
    avatarUrl: Option<string>,
    followingIds: seq<string>,
    followersCount: int,
    followingCount: int)

  datatype Post = Post(
    id: string,
    authorId: string,
    text: string,
    postType: PostType,
    parentId: Option<string>,
    quotedId: Option<string>,
    topics: seq<Topic>,
    createdAt: real,   // unix timestamp, seconds
    likeCount: int,
    repostCount: int,
    replyCount: int,
    quoteCount: int,
    viewCount: int)

  /** A post together with its (possibly unknown) author. */
  datatype PostWithAuthor = PostWithAuthor(post: Post, author: Option<User>)

  datatype EngagementType = Like | Repost | Reply | Quote | ProfileClick | NotInterested

  const AllEngagementTypes: set<EngagementType> := {Like, Repost, Reply, Quote, ProfileClick, NotInterested}

  /** The string value of each engagement-type enumerator. */
  function EngagementValue(t: EngagementType): string {
    match t
    case Like => "like"
    case Repost => "repost"
    case Reply => "reply"
    case Quote => "quote"
    case ProfileClick => "profile_click"
    case NotInterested => "not_interested"
  }

  const EngagementValues: set<string> :=
    {"like", "repost", "reply", "quote", "profile_click", "not_interested"}

  /** `EngagementType(value)`: the enumerator whose value is `s`, if any. */
  function EngagementTypeOf(s: string): Option<EngagementType> {
    if s == "like" then Some(Like)
    else if s == "repost" then Some(Repost)
    else if s == "reply" then Some(Reply)
    else if s == "quote" then Some(Quote)
    else if s == "profile_click" then Some(ProfileClick)
    else if s == "not_interested" then Some(NotInterested)
    else None
  }

  /**
   * The enumerators and their values correspond one to one: looking up an enumerator's
   * value gives it back, and exactly the six listed strings name an enumerator.
   */
  lemma EngagementValueRoundTrip()
    ensures forall t :: EngagementTypeOf(EngagementValue(t)) == Some(t) && EngagementValue(t) in EngagementValues
    ensures forall s :: EngagementTypeOf(s).Some? <==> s in EngagementValues
    ensures forall s :: EngagementTypeOf(s).Some? ==> EngagementValue(EngagementTypeOf(s).value) == s
  {
    forall t ensures EngagementTypeOf(EngagementValue(t)) == Some(t) && EngagementValue(t) in EngagementValues {
      match t
      case Like => case Repost => case Reply => case Quote => case ProfileClick => case NotInterested =>
    }
  }

  datatype Engagement = Engagement(
    userId: string,
    postId: string,
    engagementType: EngagementType,
    createdAt: real)

  /** The user-facing sliders. Nothing clamps them: any real is accepted. */
  datatype AlgorithmPreferences = AlgorithmPreferences(
    recencyVsPopularity: real,
    friendsVsGlobal: real,
    nicheVsViral: real,
    techWeight: real,
    politicsWeight: real,
    cultureWeight: real,
    memesWeight: real,
    financeWeight: real,
    diversityStrength: real,
    exploration: real,
    negativeSignalStrength: real)

  /** `AlgorithmPreferences()` with every field at its declared default. */
  const DefaultPreferences: AlgorithmPreferences :=
    AlgorithmPreferences(0.3, 0.4, 0.5, 0.2, 0.2, 0.2, 0.2, 0.2, 0.6, 0.3, 0.8)

  datatype ActionScore = ActionScore(action: string, weight: real, probability: real, contribution: real)

  /** Where a candidate came from: followed accounts, or elsewhere. */
  datatype NetworkSource = InNetwork | OutOfNetwork

  function SourceValue(s: NetworkSource): string {
    match s
    case InNetwork => "in_network"
    case OutOfNetwork => "out_of_network"
  }

  /**
   * Why a post appeared at its rank. `inNetworkBoost` and `probs` are the two
   * entries of the free-form raw breakdown the scorer records.
   */
  datatype RankingExplanation = RankingExplanation(
    postId: string,
    finalScore: real,
    rank: int,
    source: NetworkSource,
    actionScores: seq<ActionScore>,
    diversityPenalty: real,
    recencyBoost: real,
    topicBoost: real,
    inNetworkBoost: real,
    probs: map<string, real>)

  datatype FeedItem = FeedItem(
    post: PostWithAuthor,
    rankingExplanation: Option<RankingExplanation>,
    parentPost: Option<PostWithAuthor>,
    quotedPost: Option<PostWithAuthor>)

  datatype FeedResponse = FeedResponse(items: seq<FeedItem>, nextCursor: Option<string>)
}
