/** The records the Steam and SteamSpy endpoints return, as the scripts read them. */
module SteamTypes {
  import opened Common

  type SteamId = string

  /** `review["author"]`: the reviewer's id and total playtime in minutes. */
  datatype Author = Author(steamid: Option<SteamId>, playtimeForever: Option<int>)

  /** One record of the store's review feed; `None` stands for a key the record lacks.
      `country` is the key the SteamSpy scripts add to each record they keep. */
  datatype Review = Review(
    recommendationId: Option<string>,
    author: Option<Author>,
    text: Option<string>,
    timestampCreated: Option<int>,
    votedUp: Option<bool>,
    language: Option<string>,
    country: Option<string>)

  /** `r.get('timestamp_created', 0)` */
  function Timestamp(r: Review): int {
    r.timestampCreated.GetOr(0)
  }

  /** `r.get('author', {}).get('steamid')` */
  function AuthorId(r: Review): Option<SteamId> {
    if r.author.Some? then r.author.value.steamid else None
  }

  /** The truth test `if sid` on the author id: present and non-empty. */
  predicate HasAuthorId(r: Review) {
    AuthorId(r).Some? && AuthorId(r).value != ""
  }

  /** The decoded body of one review page: `reviews` (missing means `[]`) and `cursor`. */
  datatype Page = Page(reviews: seq<Review>, cursor: Option<string>)

  /** What one request to the review endpoint yields: no reply at all (connection error,
      timeout, a body that is not JSON) or a status and a decoded page. */
  datatype PageReply = ConnectionFailed | PageResponse(status: int, page: Page)

  /** The request raised: no reply, or a status that `raise_for_status` rejects. */
  predicate Raises(reply: PageReply) {
    reply.ConnectionFailed? || !IsOk(reply.status)
  }

  /** The page served once the feed has nothing more to give. */
  const ExhaustedFeed: PageReply := PageResponse(200, Page([], None))

  /** The reply to the `i`-th request of a walk; past the recorded replies the feed is exhausted. */
  function ReplyAt(replies: seq<PageReply>, i: nat): PageReply {
    At(replies, i, ExhaustedFeed)
  }

  /** One entry of `GetPlayerSummaries`' `response.players`. */
  datatype Player = Player(steamid: Option<SteamId>, visibility: Option<int>)

  /** One entry of `GetOwnedGames`' `response.games`; playtimes in minutes, except
      `playtimeHours`, a key the collector prefers when present. */
  datatype OwnedGame = OwnedGame(
    appid: Option<int>,
    name: Option<string>,
    playtimeForever: Option<int>,
    playtimeHours: Option<real>)
}
