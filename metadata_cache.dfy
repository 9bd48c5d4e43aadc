/** The genre and tag cache of the dashboard: store genres and SteamSpy tags per game, fetched
    only for the needed games that are not cached yet. */
module MetadataCache {
  import opened Common
  import opened Text
  import opened Json
  import SpyDatabase

  const MaxRetries: int := 3
  const BackoffFactor: int := 2
  const RateLimited: int := 429

  // ---------------------------------------------------------------- store genres

  function Pow(b: int, e: nat): int {
    if e == 0 then 1 else b * Pow(b, e - 1)
  }

  /** The waits before the retries: `backoff ** 0`, `backoff ** 1`, and so on. */
  function Backoffs(b: int, n: nat): (r: seq<int>)
    ensures |r| == n
    ensures forall k :: 0 <= k < n ==> r[k] == Pow(b, k)
  {
    if n == 0 then [] else Backoffs(b, n - 1) + [Pow(b, n - 1)]
  }

  predicate IsRateLimited(reply: Reply) {
    reply.Reply? && reply.status == RateLimited
  }

  /** The call the retry loop settles on, counting from call `k`: the first that is not rate
      limited, or the one made once `maxRetries` retries are used up. */
  function Settled(replyAt: nat -> Reply, maxRetries: int, k: nat): nat
    decreases maxRetries - k
  {
    if k < maxRetries && IsRateLimited(replyAt(k)) then Settled(replyAt, maxRetries, k + 1) else k
  }

  /** The settled call is the first at or after `k` that is not rate limited, unless the retries
      run out first; then it is call `maxRetries`. */
  lemma {:induction false} SettledSpec(replyAt: nat -> Reply, maxRetries: int, k: nat)
    ensures var n := Settled(replyAt, maxRetries, k);
      && k <= n <= Max(k, maxRetries)
      && (forall j :: k <= j < n ==> IsRateLimited(replyAt(j)))
      && (n < maxRetries ==> !IsRateLimited(replyAt(n)))
    decreases maxRetries - k
  {
    if k < maxRetries && IsRateLimited(replyAt(k)) {
      SettledSpec(replyAt, maxRetries, k + 1);
    }
  }

  /** `j.get(key, default)`; a value that is not an object has no `.get`. */
  function Get(j: Json, key: string, default: Json): (r: Result<Json>)
    ensures r.Ok? <==> j.JObj?
    ensures r.Ok? ==> r.value == Lookup(j.fields, key).GetOr(default)
  {
    match j
    case JObj(o) => Ok(Lookup(o, key).GetOr(default))
    case _ => Err(WrongType)
  }

  /** `for g in j`: the items of a list, the keys of an object, the characters of a string. */
  function Iterate(j: Json): Result<seq<Json>> {
    match j
    case JArr(items) => Ok(items)
    case JObj(o) => Ok(seq(|o|, i requires 0 <= i < |o| => JStr(o[i].0)))
    case JStr(s) => Ok(seq(|s|, i requires 0 <= i < |s| => JStr([s[i]])))
    case _ => Err(WrongType)
  }

  /** `[g.get("description") for g in items]`: every item must be an object; a missing
      description is `None`. */
  function Descriptions(items: seq<Json>): (r: Result<seq<Json>>)
    ensures r.Ok? <==> forall i :: 0 <= i < |items| ==> items[i].JObj?
    ensures r.Ok? ==> |r.value| == |items|
    ensures r.Ok? ==> forall i :: 0 <= i < |items| ==>
      r.value[i] == Lookup(items[i].fields, "description").GetOr(JNull)
  {
    if items == [] then Ok([])
    else
      match Get(items[0], "description", JNull)
      case Err(e) => Err(e)
      case Ok(d) =>
        match Descriptions(items[1..])
        case Err(e) => Err(e)
        case Ok(rest) => Ok([d] + rest)
  }

  /** `resp.json().get(str(appid), {}).get("data", {})` and the descriptions of its genres. */
  function GenresOf(appid: int, body: Json): Result<seq<Json>> {
    match Get(body, ShowInt(appid), EmptyObject)
    case Err(e) => Err(e)
    case Ok(app) =>
      match Get(app, "data", EmptyObject)
      case Err(e) => Err(e)
      case Ok(data) =>
        match Get(data, "genres", JArr([]))
        case Err(e) => Err(e)
        case Ok(genres) =>
          match Iterate(genres)
          case Err(e) => Err(e)
          case Ok(items) => Descriptions(items)
  }

  /** No genres without the game's entry in the reply. */
  lemma NoEntryNoGenres(appid: int, o: Assoc<string, Json>)
    requires Lookup(o, ShowInt(appid)).None?
    ensures GenresOf(appid, JObj(o)) == Ok([])
  {
    assert Descriptions([]) == Ok([]);
  }

  /** No genres when the game's entry has no `data`. */
  lemma NoDataNoGenres(appid: int, o: Assoc<string, Json>, app: Assoc<string, Json>)
    requires Lookup(o, ShowInt(appid)) == Some(JObj(app)) && Lookup(app, "data").None?
    ensures GenresOf(appid, JObj(o)) == Ok([])
  {
    assert Descriptions([]) == Ok([]);
  }

  /** No genres when the data has no `genres` list. */
  lemma NoListNoGenres(appid: int, o: Assoc<string, Json>, app: Assoc<string, Json>, data: Assoc<string, Json>)
    requires Lookup(o, ShowInt(appid)) == Some(JObj(app)) && Lookup(app, "data") == Some(JObj(data))
    requires Lookup(data, "genres").None?
    ensures GenresOf(appid, JObj(o)) == Ok([])
  {
    assert Descriptions([]) == Ok([]);
  }

  /** With a list of genre objects, their descriptions in order; a list holding anything but
      objects raises. */
  lemma ListedGenres(appid: int, o: Assoc<string, Json>, app: Assoc<string, Json>, data: Assoc<string, Json>,
    gs: seq<Json>)
    requires Lookup(o, ShowInt(appid)) == Some(JObj(app)) && Lookup(app, "data") == Some(JObj(data))
    requires Lookup(data, "genres") == Some(JArr(gs))
    ensures GenresOf(appid, JObj(o)).Ok? <==> forall i :: 0 <= i < |gs| ==> gs[i].JObj?
    ensures GenresOf(appid, JObj(o)).Ok? ==>
      && |GenresOf(appid, JObj(o)).value| == |gs|
      && forall i :: 0 <= i < |gs| ==>
        GenresOf(appid, JObj(o)).value[i] == Lookup(gs[i].fields, "description").GetOr(JNull)
  {
  }

  /** What one reply makes of the call: a reply that never came or is not JSON raises, an
      error status raises, anything else is read for its genres. */
  function Settle(appid: int, reply: Reply): Result<seq<Json>> {
    match reply
    case NoReply => Err(RequestFailed)
    case Reply(status, body) =>
      if !IsOk(status) then Err(HttpError(status))
      else if body.None? then Err(RequestFailed)
      else GenresOf(appid, body.value)
  }

  /** `fetch_store_genres` on the replies `replyAt(0)`, `replyAt(1)`, ... */
  function StoreGenres(appid: int, replyAt: nat -> Reply, maxRetries: int): Result<seq<Json>> {
    Settle(appid, replyAt(Settled(replyAt, maxRetries, 0)))
  }

  /** `fetch_store_genres`: asks again after each 429 until `maxRetries` retries are used,
      waiting `backoff ** retries` seconds before each; the call it settles on decides the
      result. */
  method FetchStoreGenres(appid: int, replyAt: nat -> Reply, maxRetries: int, backoff: int)
    returns (outcome: Result<seq<Json>>, waits: seq<int>)
    ensures outcome == StoreGenres(appid, replyAt, maxRetries)
    ensures waits == Backoffs(backoff, Settled(replyAt, maxRetries, 0))
  {
    var retries: nat := 0;
    waits := [];
    while true
      invariant waits == Backoffs(backoff, retries)
      invariant Settled(replyAt, maxRetries, retries) == Settled(replyAt, maxRetries, 0)
      decreases maxRetries - retries
    {
      var reply := replyAt(retries);
      if IsRateLimited(reply) && retries < maxRetries {
        waits := waits + [Pow(backoff, retries)];
        retries := retries + 1;
        continue;
      }
      return Settle(appid, reply), waits;
    }
  }

  /** With the defaults: at most three retries, after waits of 1, 2 and 4 seconds; every call
      before the settled one was rate limited; a fourth 429 in a row raises. */
  lemma DefaultRetries(appid: int, replyAt: nat -> Reply)
    ensures var n := Settled(replyAt, MaxRetries, 0);
      && n <= 3
      && Backoffs(BackoffFactor, n) == [1, 2, 4][..n]
      && (forall j :: 0 <= j < n ==> IsRateLimited(replyAt(j)))
      && (n < 3 ==> !IsRateLimited(replyAt(n)))
    ensures (forall j :: 0 <= j <= 3 ==> IsRateLimited(replyAt(j))) ==>
      StoreGenres(appid, replyAt, MaxRetries) == Err(HttpError(RateLimited))
  {
    SettledSpec(replyAt, MaxRetries, 0);
    var n := Settled(replyAt, MaxRetries, 0);
    var w := Backoffs(BackoffFactor, n);
    assert Pow(2, 0) == 1 && Pow(2, 1) == 2 && Pow(2, 2) == 4;
    assert w == [1, 2, 4][..n];
  }

  // ---------------------------------------------------------------- SteamSpy tags

  /** `fetch_spy_tags`: the keys of the `tags` object, or none when the payload or its `tags`
      is not an object. */
  function FetchSpyTags(reply: Reply): (r: Result<seq<string>>)
    ensures r.Ok? <==> reply.Reply? && IsOk(reply.status) && reply.body.Some?
    ensures r.Err? && reply.Reply? && !IsOk(reply.status) ==> r.error == HttpError(reply.status)
    ensures r.Ok? && r.value != [] ==>
      && reply.body.value.JObj?
      && Lookup(reply.body.value.fields, "tags").Some?
      && Lookup(reply.body.value.fields, "tags").value.JObj?
      && r.value == Keys(Lookup(reply.body.value.fields, "tags").value.fields)
    ensures
      (&& reply.Reply? && IsOk(reply.status) && reply.body.Some? && reply.body.value.JObj?
       && Lookup(reply.body.value.fields, "tags").Some?
       && Lookup(reply.body.value.fields, "tags").value.JObj?)
      ==> r == Ok(Keys(Lookup(reply.body.value.fields, "tags").value.fields))
  {
    match reply
    case NoReply => Err(RequestFailed)
    case Reply(status, body) =>
      if !IsOk(status) then Err(HttpError(status))
      else if body.None? then Err(RequestFailed)
      else
        var tags := if body.value.JObj? then Lookup(body.value.fields, "tags") else None;
        if tags.Some? && tags.value.JObj? then Ok(Keys(tags.value.fields)) else Ok([])
  }

  /** The dashboard's tag fetch and the full database's `get_detail(appid, 'tags')` read the
      same SteamSpy payload alike: wherever the latter does not raise, it lists the names the
      former returns. */
  lemma SpyTagsAgree(status: int, d: Assoc<string, Json>, cache: Assoc<string, Json>, appid: int)
    requires IsOk(status)
    requires Lookup(cache, ShowInt(appid)) == Some(JObj(d))
    ensures var r := FetchSpyTags(Reply(status, Some(JObj(d))));
      var g := SpyDatabase.GetDetail(cache, appid, SpyDatabase.TagsKey);
      r.Ok? && (g.Ok? ==> g.value == JArr(SpyDatabase.Strings(r.value)))
  {
  }

  // ---------------------------------------------------------------- the cache

  datatype Meta = Meta(genres: seq<Json>, tags: seq<string>)

  const NoMeta: Meta := Meta([], [])

  /** The entry `build_metadata_cache` stores for a game: a failure of either fetch leaves it
      empty. */
  function MetaOf(appid: int, storeReplies: int -> (nat -> Reply), spyReply: int -> Reply): Meta {
    match StoreGenres(appid, storeReplies(appid), MaxRetries)
    case Err(_) => NoMeta
    case Ok(genres) =>
      match FetchSpyTags(spyReply(appid))
      case Err(_) => NoMeta
      case Ok(tags) => Meta(genres, tags)
  }

  /** The ids with no entry yet keep it added: distinct ids give distinct keys. */
  lemma FreshId(appids: seq<int>, a: int)
    requires Distinct(appids + [a])
    ensures ShowInt(a) !in IdKeys(appids)
  {
    forall i | 0 <= i < |appids| ensures IdKeys(appids)[i] != ShowInt(a) {
      assert (appids + [a])[i] == appids[i] && (appids + [a])[|appids|] == a;
      if ShowInt(appids[i]) == ShowInt(a) {
        ShowIntInjective(appids[i], a);
      }
    }
  }

  /** What the cache holds after the ids `done` were fetched. */
  ghost predicate CacheOf(cache: Assoc<string, Meta>, done: seq<int>, storeReplies: int -> (nat -> Reply),
    spyReply: int -> Reply)
  {
    && DistinctKeys(cache)
    && (forall k :: k in Keys(cache) <==> k in IdKeys(done))
    && (forall a :: a in done ==> Lookup(cache, ShowInt(a)) == Some(MetaOf(a, storeReplies, spyReply)))
    && (Distinct(done) ==> Keys(cache) == IdKeys(done))
  }

  /** Storing the next id's entry extends what the cache holds by that id. */
  lemma StoreStep(cache: Assoc<string, Meta>, done: seq<int>, a: int, storeReplies: int -> (nat -> Reply),
    spyReply: int -> Reply)
    requires CacheOf(cache, done, storeReplies, spyReply)
    ensures CacheOf(Put(cache, ShowInt(a), MetaOf(a, storeReplies, spyReply)), done + [a], storeReplies, spyReply)
  {
    var m := MetaOf(a, storeReplies, spyReply);
    PutDistinct(cache, ShowInt(a), m);
    StoreKeys(cache, done, a, m);
    StoreEntries(cache, done, a, storeReplies, spyReply);
    if Distinct(done + [a]) {
      StoreOrder(cache, done, a, m);
    }
  }

  lemma StoreKeys(cache: Assoc<string, Meta>, done: seq<int>, a: int, m: Meta)
    requires forall k :: k in Keys(cache) <==> k in IdKeys(done)
    ensures forall k :: k in Keys(Put(cache, ShowInt(a), m)) <==> k in IdKeys(done + [a])
  {
    var next := Put(cache, ShowInt(a), m);
    PutLookup(cache, ShowInt(a), m);
    IdKeysAppend(done, a);
    forall c ensures c in Keys(next) <==> c in IdKeys(done + [a]) {
      KeysLookup(next, c);
      KeysLookup(cache, c);
    }
  }

  lemma StoreEntries(cache: Assoc<string, Meta>, done: seq<int>, a: int, storeReplies: int -> (nat -> Reply),
    spyReply: int -> Reply)
    requires forall b :: b in done ==> Lookup(cache, ShowInt(b)) == Some(MetaOf(b, storeReplies, spyReply))
    ensures var next := Put(cache, ShowInt(a), MetaOf(a, storeReplies, spyReply));
      forall b :: b in done + [a] ==> Lookup(next, ShowInt(b)) == Some(MetaOf(b, storeReplies, spyReply))
  {
    var m := MetaOf(a, storeReplies, spyReply);
    var next := Put(cache, ShowInt(a), m);
    PutLookup(cache, ShowInt(a), m);
    forall b | b in done + [a] ensures Lookup(next, ShowInt(b)) == Some(MetaOf(b, storeReplies, spyReply)) {
      if b != a && ShowInt(b) == ShowInt(a) {
        ShowIntInjective(b, a);
      }
    }
  }

  lemma StoreOrder(cache: Assoc<string, Meta>, done: seq<int>, a: int, m: Meta)
    requires Distinct(done + [a])
    requires Distinct(done) ==> Keys(cache) == IdKeys(done)
    ensures Keys(Put(cache, ShowInt(a), m)) == IdKeys(done + [a])
  {
    var k := ShowInt(a);
    assert Distinct(done) by {
      forall i, j | 0 <= i < j < |done| ensures done[i] != done[j] {
        assert (done + [a])[i] == done[i] && (done + [a])[j] == done[j];
      }
    }
    FreshId(done, a);
    KeysLookup(cache, k);
    IdKeysAppend(done, a);
    PutNewKeys(cache, k, m);
  }

  /** One game's entry: its store genres and its tags, or nothing when either fetch fails. */
  method FetchMeta(appid: int, storeReplies: int -> (nat -> Reply), spyReply: int -> Reply)
    returns (meta: Meta)
    ensures meta == MetaOf(appid, storeReplies, spyReply)
  {
    var genres, waits := FetchStoreGenres(appid, storeReplies(appid), MaxRetries, BackoffFactor);
    meta := NoMeta;
    if genres.Ok? {
      var tags := FetchSpyTags(spyReply(appid));
      if tags.Ok? {
        meta := Meta(genres.value, tags.value);
      }
    }
  }

  /** `build_metadata_cache`: one entry per id, under `str(appid)`, holding its genres and tags
      or nothing when a fetch failed; with distinct ids the keys come in the order of the ids. */
  method BuildMetadataCache(appids: seq<int>, storeReplies: int -> (nat -> Reply), spyReply: int -> Reply)
    returns (cache: Assoc<string, Meta>)
    ensures DistinctKeys(cache)
    ensures forall k :: k in Keys(cache) <==> k in IdKeys(appids)
    ensures forall a :: a in appids ==> Lookup(cache, ShowInt(a)) == Some(MetaOf(a, storeReplies, spyReply))
    ensures Distinct(appids) ==> Keys(cache) == IdKeys(appids)
  {
    cache := [];
    var i := 0;
    while i < |appids|
      invariant 0 <= i <= |appids|
      invariant CacheOf(cache, appids[..i], storeReplies, spyReply)
    {
      var appid := appids[i];
      var meta := FetchMeta(appid, storeReplies, spyReply);
      StoreStep(cache, appids[..i], appid, storeReplies, spyReply);
      cache := Put(cache, ShowInt(appid), meta);
      assert appids[..i + 1] == appids[..i] + [appid];
      i := i + 1;
    }
    assert appids[..i] == appids;
  }

  /** The `to_fetch` list: the needed ids whose `str` is not a cache key, in order. */
  function ToFetch(needed: seq<int>, cache: Assoc<string, Meta>): (r: seq<int>)
    ensures forall a :: a in r <==> a in needed && Lookup(cache, ShowInt(a)).None?
  {
    Filter(needed, a => Lookup(cache, ShowInt(a)).None?)
  }

  /** `main`: without the needed-ids file nothing changes; otherwise the needed ids not cached
      are fetched and added. Every needed id then has an entry, entries already cached are left
      as they were, and nothing else is added. */
  method RefreshCache(needed: Option<seq<int>>, cache: Assoc<string, Meta>,
    storeReplies: int -> (nat -> Reply), spyReply: int -> Reply)
    returns (updated: Assoc<string, Meta>, fetched: seq<int>)
    ensures needed.None? ==> updated == cache && fetched == []
    ensures needed.Some? ==> fetched == ToFetch(Dedup(needed.value), cache)
    ensures fetched == [] ==> updated == cache
    ensures needed.Some? ==> forall a :: a in needed.value ==> Lookup(updated, ShowInt(a)).Some?
    ensures forall k :: Lookup(cache, k).Some? ==> Lookup(updated, k) == Lookup(cache, k)
    ensures forall a :: a in fetched ==> Lookup(updated, ShowInt(a)) == Some(MetaOf(a, storeReplies, spyReply))
    ensures forall k :: Lookup(updated, k).Some? ==> Lookup(cache, k).Some? || k in IdKeys(fetched)
  {
    if needed.None? {
      return cache, [];
    }
    fetched := ToFetch(Dedup(needed.value), cache);
    if fetched == [] {
      updated := cache;
      forall a | a in needed.value ensures Lookup(updated, ShowInt(a)).Some? {
        assert a in Dedup(needed.value);
      }
      return;
    }
    var added := BuildMetadataCache(fetched, storeReplies, spyReply);
    updated := Update(cache, added);
    RefreshKeeps(cache, added, fetched, storeReplies, spyReply);
    forall a | a in needed.value ensures Lookup(updated, ShowInt(a)).Some? {
      assert a in Dedup(needed.value);
      if Lookup(cache, ShowInt(a)).None? {
        assert a in fetched;
      }
    }
  }

  /** The update with freshly fetched entries for uncached ids keeps every cached entry, adds
      each fetched id's entry, and adds nothing else. */
  lemma RefreshKeeps(cache: Assoc<string, Meta>, added: Assoc<string, Meta>, fetched: seq<int>,
    storeReplies: int -> (nat -> Reply), spyReply: int -> Reply)
    requires DistinctKeys(added)
    requires forall k :: k in Keys(added) <==> k in IdKeys(fetched)
    requires forall a :: a in fetched ==> Lookup(added, ShowInt(a)) == Some(MetaOf(a, storeReplies, spyReply))
    requires forall a :: a in fetched ==> Lookup(cache, ShowInt(a)).None?
    ensures forall k :: Lookup(cache, k).Some? ==> Lookup(Update(cache, added), k) == Lookup(cache, k)
    ensures forall a :: a in fetched ==> Lookup(Update(cache, added), ShowInt(a)) == Some(MetaOf(a, storeReplies, spyReply))
    ensures forall k :: Lookup(Update(cache, added), k).Some? ==> Lookup(cache, k).Some? || k in IdKeys(fetched)
  {
    forall k ensures Lookup(Update(cache, added), k) ==
      if Lookup(added, k).Some? then Lookup(added, k) else Lookup(cache, k)
    {
      UpdateLookup(cache, added, k);
    }
    forall k | Lookup(cache, k).Some? ensures Lookup(added, k).None? {
      KeysLookup(added, k);
      if k in IdKeys(fetched) {
        var i :| 0 <= i < |fetched| && IdKeys(fetched)[i] == k;
        assert fetched[i] in fetched;
      }
    }
    forall k | Lookup(added, k).Some? ensures k in IdKeys(fetched) {
      KeysLookup(added, k);
    }
  }
}
