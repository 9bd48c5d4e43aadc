/** The per-user Web API calls: profile visibility, batched player summaries, owned-games
    lists with each script's own handling of error statuses, and the SteamSpy KPI projection. */
module Profiles {
  import opened Common
  import opened SteamTypes
  import opened Json

  /** `communityvisibilitystate` of a public profile. */
  const PublicVisibility: int := 3

  /** `is_profile_public`: the reply is ok and its first player is public. */
  predicate IsProfilePublic(reply: Response<seq<Player>>) {
    if IsOk(reply.status) then
      reply.body != [] && reply.body[0].visibility == Some(PublicVisibility)
    else false
  }

  /** A failed reply, an empty player list, or a first player that is not public (whatever
      follows it) all mean private. */
  lemma ProfileNotPublic(reply: Response<seq<Player>>)
    ensures !IsOk(reply.status) ==> !IsProfilePublic(reply)
    ensures reply.body == [] ==> !IsProfilePublic(reply)
    ensures reply.body != [] && reply.body[0].visibility != Some(PublicVisibility) ==> !IsProfilePublic(reply)
    ensures IsProfilePublic(reply) ==> reply.body != [] && reply.body[0].visibility == Some(3)
  {
  }

  /** Only the status and the first player decide. */
  lemma ProfileFirstPlayerDecides(status: int, p: Player, rest: seq<Player>, other: seq<Player>)
    ensures IsProfilePublic(Response(status, [p] + rest)) == IsProfilePublic(Response(status, [p] + other))
    ensures IsProfilePublic(Response(status, [p] + rest)) <==> IsOk(status) && p.visibility == Some(3)
  {
  }

  // ------------------------------------------------------------ owned games

  /** `get_owned_games` of the two collectors: 401 and 403 (a private or hidden library)
      give an empty list, any other error status raises. */
  function OwnedGamesOrEmpty(reply: Response<seq<OwnedGame>>): (r: Result<seq<OwnedGame>>)
    ensures reply.status == 401 || reply.status == 403 ==> r == Ok([])
    ensures r.Err? <==> reply.status != 401 && reply.status != 403 && !IsOk(reply.status)
    ensures r.Err? ==> r.error == HttpError(reply.status)
    ensures r.Ok? && reply.status != 401 && reply.status != 403 ==> r.value == reply.body
  {
    if reply.status == 401 || reply.status == 403 then Ok([])
    else if !IsOk(reply.status) then Err(HttpError(reply.status))
    else Ok(reply.body)
  }

  /** `get_owned_games` of the SteamSpy summary script: anything but 200 gives an empty list. */
  function OwnedGamesIf200(reply: Response<seq<OwnedGame>>): (r: seq<OwnedGame>)
    ensures reply.status != 200 ==> r == []
    ensures r != [] ==> r == reply.body
  {
    if reply.status == 200 then reply.body else []
  }

  /** `get_owned_games` of the API test script: every error status raises. */
  function OwnedGamesStrict(reply: Response<seq<OwnedGame>>): (r: Result<seq<OwnedGame>>)
    ensures r.Err? <==> !IsOk(reply.status)
    ensures r.Ok? ==> r.value == reply.body
  {
    if IsOk(reply.status) then Ok(reply.body) else Err(HttpError(reply.status))
  }

  /** The three variants agree on a 200 reply; the collectors' variant differs from the strict
      one only on 401 and 403; a 2xx/3xx reply other than 200 is dropped only by the lenient one. */
  lemma OwnedGamesVariants(reply: Response<seq<OwnedGame>>)
    ensures reply.status == 200 ==>
      OwnedGamesOrEmpty(reply) == OwnedGamesStrict(reply) == Ok(OwnedGamesIf200(reply))
    ensures reply.status != 401 && reply.status != 403 ==> OwnedGamesOrEmpty(reply) == OwnedGamesStrict(reply)
    ensures reply.status == 401 || reply.status == 403 ==>
      OwnedGamesOrEmpty(reply) == Ok([]) && OwnedGamesStrict(reply).Err?
    ensures IsOk(reply.status) && reply.status != 200 && reply.body != [] ==>
      OwnedGamesStrict(reply) == Ok(reply.body) && OwnedGamesIf200(reply) == []
  {
  }

  // ------------------------------------------------------------ player summaries

  /** `[ids[i:i+size] for i in range(start, len(ids), size)]` */
  function Slices(ids: seq<SteamId>, size: nat, start: nat): seq<seq<SteamId>>
    requires size > 0
    decreases |ids| - start
  {
    if start >= |ids| then [] else [ids[start..Min(start + size, |ids|)]] + Slices(ids, size, start + size)
  }

  function Flatten<T>(parts: seq<seq<T>>): seq<T> {
    if parts == [] then [] else parts[0] + Flatten(parts[1..])
  }

  /** The slices cover the ids in order, and each holds 1 to `size` ids. */
  lemma {:induction false} SlicesSpec(ids: seq<SteamId>, size: nat, start: nat)
    requires size > 0 && start <= |ids|
    ensures Flatten(Slices(ids, size, start)) == ids[start..]
    ensures forall b :: b in Slices(ids, size, start) ==> 0 < |b| <= size
    decreases |ids| - start
  {
    if start < |ids| {
      var end := Min(start + size, |ids|);
      var rest := Slices(ids, size, start + size);
      assert Slices(ids, size, start) == [ids[start..end]] + rest;
      if start + size <= |ids| {
        SlicesSpec(ids, size, start + size);
        assert ids[start..] == ids[start..end] + ids[start + size..];
      } else {
        assert rest == [];
        assert ids[start..end] == ids[start..];
      }
    }
  }

  /** There are `ceil((n - start) / size)` slices, for the two batch sizes in use. */
  lemma {:induction false} SliceCount(ids: seq<SteamId>, size: nat, start: nat)
    requires size == SummaryBatch || size == SummaryBatchStrict
    requires start <= |ids|
    ensures |Slices(ids, size, start)| == (|ids| - start + size - 1) / size
    decreases |ids| - start
  {
    if start < |ids| {
      if start + size <= |ids| {
        SliceCount(ids, size, start + size);
        DivAddSize(|ids| - (start + size) + size - 1, size);
      } else {
        assert Slices(ids, size, start + size) == [];
        DivOne(|ids| - start + size - 1, size);
      }
    } else {
      DivZero(size - 1, size);
    }
  }

  lemma DivAddSize(x: int, size: int)
    requires size == SummaryBatch || size == SummaryBatchStrict
    ensures (x + size) / size == x / size + 1
  {
  }

  lemma DivOne(x: int, size: int)
    requires size <= x < 2 * size
    ensures x / size == 1
  {
  }

  lemma DivZero(x: int, size: int)
    requires 0 <= x < size
    ensures x / size == 0
  {
  }

  /** The players of the batches answered with status 200, in batch order
      (`summaries.extend(...)` under `if resp.status_code == 200`). */
  function ServedPlayers(batches: seq<seq<SteamId>>, summaryOf: seq<SteamId> -> Response<seq<Player>>): seq<Player> {
    if batches == [] then []
    else
      var reply := summaryOf(batches[0]);
      (if reply.status == 200 then reply.body else []) + ServedPlayers(batches[1..], summaryOf)
  }

  /** The players of every batch, or the error of the first batch that `raise_for_status`
      rejects. */
  function AllPlayers(batches: seq<seq<SteamId>>, summaryOf: seq<SteamId> -> Response<seq<Player>>): Result<seq<Player>> {
    if batches == [] then Ok([])
    else
      var reply := summaryOf(batches[0]);
      if !IsOk(reply.status) then Err(HttpError(reply.status))
      else match AllPlayers(batches[1..], summaryOf)
        case Ok(rest) => Ok(reply.body + rest)
        case Err(e) => Err(e)
  }

  /** A player is kept exactly when it came back in a batch answered with 200: failed
      batches are dropped without a trace. */
  lemma {:induction false} ServedPlayersSpec(batches: seq<seq<SteamId>>, summaryOf: seq<SteamId> -> Response<seq<Player>>, p: Player)
    ensures p in ServedPlayers(batches, summaryOf) <==>
      exists k :: 0 <= k < |batches| && summaryOf(batches[k]).status == 200 && p in summaryOf(batches[k]).body
  {
    if batches != [] {
      ServedPlayersSpec(batches[1..], summaryOf, p);
      if exists k :: 0 <= k < |batches[1..]| && summaryOf(batches[1..][k]).status == 200 && p in summaryOf(batches[1..][k]).body {
        var k :| 0 <= k < |batches[1..]| && summaryOf(batches[1..][k]).status == 200 && p in summaryOf(batches[1..][k]).body;
        assert batches[1..][k] == batches[k + 1];
      }
      if exists k :: 0 <= k < |batches| && summaryOf(batches[k]).status == 200 && p in summaryOf(batches[k]).body {
        var k :| 0 <= k < |batches| && summaryOf(batches[k]).status == 200 && p in summaryOf(batches[k]).body;
        if k > 0 {
          assert batches[1..][k - 1] == batches[k];
        }
      }
    }
  }

  /** The strict version succeeds exactly when every batch is answered ok, and when every
      batch is answered with 200 both versions return the same players. */
  lemma {:induction false} AllPlayersSpec(batches: seq<seq<SteamId>>, summaryOf: seq<SteamId> -> Response<seq<Player>>)
    ensures AllPlayers(batches, summaryOf).Ok? <==> forall k :: 0 <= k < |batches| ==> IsOk(summaryOf(batches[k]).status)
    ensures (forall k :: 0 <= k < |batches| ==> summaryOf(batches[k]).status == 200) ==>
      AllPlayers(batches, summaryOf) == Ok(ServedPlayers(batches, summaryOf))
  {
    if batches != [] {
      AllPlayersSpec(batches[1..], summaryOf);
      assert forall k :: 0 <= k < |batches[1..]| ==> batches[1..][k] == batches[k + 1];
      if forall k :: 1 <= k < |batches| ==> IsOk(summaryOf(batches[k]).status) {
        assert forall k :: 0 <= k < |batches[1..]| ==> IsOk(summaryOf(batches[1..][k]).status);
      }
    }
  }

  /** The batch size of the SteamSpy summary script. */
  const SummaryBatch: nat := 100

  /** The batch size of the API test script. */
  const SummaryBatchStrict: nat := 50

  /** `get_player_summaries` of the SteamSpy summary script, as its loop runs: the ids sent in
      each request and the players of the batches answered with 200. */
  method GetPlayerSummaries(ids: seq<SteamId>, summaryOf: seq<SteamId> -> Response<seq<Player>>)
    returns (players: seq<Player>, batches: seq<seq<SteamId>>)
    ensures batches == Slices(ids, SummaryBatch, 0)
    ensures Flatten(batches) == ids && |batches| == (|ids| + 99) / 100
    ensures forall b :: b in batches ==> 0 < |b| <= 100
    ensures players == ServedPlayers(batches, summaryOf)
  {
    players, batches := [], [];
    var i := 0;
    while i < |ids|
      invariant 0 <= i
      invariant batches + Slices(ids, SummaryBatch, i) == Slices(ids, SummaryBatch, 0)
      invariant players == ServedPlayers(batches, summaryOf)
      decreases |ids| - i
    {
      var batch := ids[i..Min(i + SummaryBatch, |ids|)];
      var reply := summaryOf(batch);
      ServedPlayersAppend(batches, batch, summaryOf);
      if reply.status == 200 {
        players := players + reply.body;
      }
      batches := batches + [batch];
      i := i + SummaryBatch;
    }
    SlicesSpec(ids, SummaryBatch, 0);
    SliceCount(ids, SummaryBatch, 0);
  }

  lemma {:induction false} ServedPlayersAppend(batches: seq<seq<SteamId>>, b: seq<SteamId>, summaryOf: seq<SteamId> -> Response<seq<Player>>)
    ensures ServedPlayers(batches + [b], summaryOf) ==
      ServedPlayers(batches, summaryOf) + (if summaryOf(b).status == 200 then summaryOf(b).body else [])
  {
    if batches == [] {
      assert [] + [b] == [b];
    } else {
      assert (batches + [b])[1..] == batches[1..] + [b];
      ServedPlayersAppend(batches[1..], b, summaryOf);
    }
  }

  lemma {:induction false} AllPlayersAppend(batches: seq<seq<SteamId>>, b: seq<SteamId>, summaryOf: seq<SteamId> -> Response<seq<Player>>)
    requires AllPlayers(batches, summaryOf).Ok?
    ensures AllPlayers(batches + [b], summaryOf) ==
      if IsOk(summaryOf(b).status) then Ok(AllPlayers(batches, summaryOf).value + summaryOf(b).body)
      else Err(HttpError(summaryOf(b).status))
  {
    if batches == [] {
      assert batches + [b] == [b] && [b][1..] == [];
      assert summaryOf(b).body + [] == [] + summaryOf(b).body;
    } else {
      assert (batches + [b])[0] == batches[0];
      assert (batches + [b])[1..] == batches[1..] + [b];
      assert IsOk(summaryOf(batches[0]).status);
      var head := summaryOf(batches[0]).body;
      var rest := AllPlayers(batches[1..], summaryOf);
      assert rest.Ok? && AllPlayers(batches, summaryOf).value == head + rest.value;
      AllPlayersAppend(batches[1..], b, summaryOf);
      if IsOk(summaryOf(b).status) {
        assert head + (rest.value + summaryOf(b).body) == (head + rest.value) + summaryOf(b).body;
      }
    }
  }

  /** `get_player_summaries` of the API test script, as its loop runs: batches of 50, and the
      first rejected reply raises. */
  method GetPlayerSummariesStrict(ids: seq<SteamId>, summaryOf: seq<SteamId> -> Response<seq<Player>>)
    returns (r: Result<seq<Player>>)
    ensures r == AllPlayers(Slices(ids, SummaryBatchStrict, 0), summaryOf)
  {
    var players: seq<Player> := [];
    var batches: seq<seq<SteamId>> := [];
    var i := 0;
    while i < |ids|
      invariant 0 <= i
      invariant batches + Slices(ids, SummaryBatchStrict, i) == Slices(ids, SummaryBatchStrict, 0)
      invariant AllPlayers(batches, summaryOf) == Ok(players)
      decreases |ids| - i
    {
      var batch := ids[i..Min(i + SummaryBatchStrict, |ids|)];
      var reply := summaryOf(batch);
      AllPlayersAppend(batches, batch, summaryOf);
      if !IsOk(reply.status) {
        AllPlayersPrefixErr(batches + [batch], Slices(ids, SummaryBatchStrict, i + SummaryBatchStrict), summaryOf);
        assert batches + [batch] + Slices(ids, SummaryBatchStrict, i + SummaryBatchStrict) == Slices(ids, SummaryBatchStrict, 0);
        return Err(HttpError(reply.status));
      }
      players := players + reply.body;
      batches := batches + [batch];
      i := i + SummaryBatchStrict;
    }
    assert Slices(ids, SummaryBatchStrict, i) == [];
    assert batches == Slices(ids, SummaryBatchStrict, 0);
    r := Ok(players);
  }

  /** An error in a prefix of the batches is the error of the whole run. */
  lemma {:induction false} AllPlayersPrefixErr(pre: seq<seq<SteamId>>, post: seq<seq<SteamId>>, summaryOf: seq<SteamId> -> Response<seq<Player>>)
    requires AllPlayers(pre, summaryOf).Err?
    ensures AllPlayers(pre + post, summaryOf) == AllPlayers(pre, summaryOf)
  {
    assert (pre + post)[1..] == pre[1..] + post;
    if IsOk(summaryOf(pre[0]).status) {
      AllPlayersPrefixErr(pre[1..], post, summaryOf);
    }
  }

  // ------------------------------------------------------------ KPIs

  /** The SteamSpy fields the collectors keep, in column order. */
  const KpiKeys: seq<string> := ["appid", "name", "developer", "publisher", "score_rank",
    "owners", "average_forever", "average_2weeks", "median_forever", "median_2weeks", "ccu",
    "price", "initialprice", "discount"]

  /** `{k: data.get(k) for k in keys}`: a missing field becomes `None`. */
  function Project(data: Assoc<string, Json>, keys: seq<string>): (r: Assoc<string, Json>)
    ensures Keys(r) == keys
    ensures forall i :: 0 <= i < |keys| ==> r[i].1 == Lookup(data, keys[i]).GetOr(JNull)
  {
    if keys == [] then [] else [(keys[0], Lookup(data, keys[0]).GetOr(JNull))] + Project(data, keys[1..])
  }

  /** `fetch_kpis_spy`: nothing on a failed reply, else exactly the fourteen KPI fields. */
  function FetchKpisSpy(reply: Response<Assoc<string, Json>>): (kpis: Assoc<string, Json>)
    ensures !IsOk(reply.status) ==> kpis == []
    ensures IsOk(reply.status) ==> Keys(kpis) == KpiKeys
    ensures IsOk(reply.status) ==> forall k :: k in KpiKeys ==> Lookup(kpis, k) == Some(Lookup(reply.body, k).GetOr(JNull))
  {
    if !IsOk(reply.status) then []
    else
      var r := Project(reply.body, KpiKeys);
      assert forall k :: k in KpiKeys ==> Lookup(r, k) == Some(Lookup(reply.body, k).GetOr(JNull)) by {
        forall k | k in KpiKeys ensures Lookup(r, k) == Some(Lookup(reply.body, k).GetOr(JNull)) {
          var i :| 0 <= i < |KpiKeys| && KpiKeys[i] == k;
          LookupFirst(r, i);
        }
      }
      r
  }

  /** The first entry with a key is the one `Lookup` finds. */
  lemma {:induction false} LookupFirst<K, V>(d: Assoc<K, V>, i: nat)
    requires i < |d|
    ensures Lookup(d, d[i].0).Some?
    ensures Lookup(d, d[i].0).value == d[i].1 || exists j :: 0 <= j < i && d[j].0 == d[i].0
  {
    if d[0].0 != d[i].0 {
      LookupFirst(d[1..], i - 1);
      if Lookup(d[1..], d[i].0).value != d[i].1 {
        var j :| 0 <= j < i - 1 && d[1..][j].0 == d[i].0;
        assert d[j + 1].0 == d[i].0;
      }
    }
  }
}
