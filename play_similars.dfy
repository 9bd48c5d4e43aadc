/** The play-based similar games of the SteamSpy script: the games most often owned by the
    game's reviewers, counted over a sample of reviewer ids, the game itself excluded. */
module PlaySimilars {
  import opened Common
  import opened SteamTypes
  import opened Profiles
  import opened Ranking

  /** `SAMPLE_SIZE_PLAY` */
  const SamplePlaySize: int := 1000

  /** `TOP_N_PLAY_SIM` */
  const TopPlaySimilars: int := 10

  /** The reviewer ids the truth test `if rid` lets through, in review order, repeats kept. */
  function ReviewerIds(reviews: seq<Review>): (ids: seq<SteamId>)
    ensures |ids| <= |reviews|
  {
    if reviews == [] then []
    else
      var r := reviews[|reviews| - 1];
      ReviewerIds(reviews[..|reviews| - 1]) + (if HasAuthorId(r) then [AuthorId(r).value] else [])
  }

  /** The ids are the non-empty author ids of the reviews, one per review that has one, in order. */
  lemma {:induction false} ReviewerIdsSpec(reviews: seq<Review>)
    ensures var f := Filter(reviews, HasAuthorId); var ids := ReviewerIds(reviews);
      && |ids| == |f|
      && forall i :: 0 <= i < |f| ==> AuthorId(f[i]) == Some(ids[i]) && ids[i] != ""
  {
    if reviews != [] {
      var n := |reviews| - 1;
      var init := reviews[..n];
      var last := reviews[n];
      ReviewerIdsSpec(init);
      assert reviews == init + [last];
      FilterAppend(init, [last], HasAuthorId);
      assert Filter([last], HasAuthorId) == if HasAuthorId(last) then [last] else [] by {
        assert [last][1..] == [];
      }
      var f := Filter(reviews, HasAuthorId);
      var ids := ReviewerIds(reviews);
      var m := |Filter(init, HasAuthorId)|;
      forall i | 0 <= i < |f| ensures AuthorId(f[i]) == Some(ids[i]) && ids[i] != "" {
        if i < m {
          assert f[i] == Filter(init, HasAuthorId)[i] && ids[i] == ReviewerIds(init)[i];
        } else {
          assert f[i] == last;
        }
      }
    }
  }

  /** `r["author"]["steamid"]` for reviews known to carry one. */
  function AuthorIds(reviews: seq<Review>): (ids: seq<SteamId>)
    requires forall i :: 0 <= i < |reviews| ==> AuthorId(reviews[i]).Some?
    ensures |ids| == |reviews|
    ensures forall i :: 0 <= i < |reviews| ==> ids[i] == AuthorId(reviews[i]).value
  {
    if reviews == [] then [] else [AuthorId(reviews[0]).value] + AuthorIds(reviews[1..])
  }

  lemma AuthorIdsAppend(s: seq<Review>, t: seq<Review>)
    requires forall i :: 0 <= i < |s| ==> AuthorId(s[i]).Some?
    requires forall i :: 0 <= i < |t| ==> AuthorId(t[i]).Some?
    ensures AuthorIds(s + t) == AuthorIds(s) + AuthorIds(t)
  {
    assert forall i :: 0 <= i < |s + t| ==> AuthorId((s + t)[i]).Some? by {
      forall i | 0 <= i < |s + t| ensures AuthorId((s + t)[i]).Some? {
        if i < |s| {
          assert (s + t)[i] == s[i];
        } else {
          assert (s + t)[i] == t[i - |s|];
        }
      }
    }
    var l := AuthorIds(s + t);
    var r := AuthorIds(s) + AuthorIds(t);
    forall i | 0 <= i < |l| ensures l[i] == r[i] {
      if i < |s| {
        assert (s + t)[i] == s[i];
      } else {
        assert (s + t)[i] == t[i - |s|];
      }
    }
  }

  /** The test script's `[r["author"]["steamid"] for r in all_reviews]`: a `KeyError` when
      some review has no author or no id, and no filtering otherwise. */
  function ReviewerIdsStrict(reviews: seq<Review>): (r: Result<seq<SteamId>>)
    ensures r.Ok? <==> forall i :: 0 <= i < |reviews| ==> AuthorId(reviews[i]).Some?
    ensures r.Err? ==> r.error == MissingKey
    ensures r.Ok? ==> |r.value| == |reviews|
  {
    if forall i :: 0 <= i < |reviews| ==> AuthorId(reviews[i]).Some? then Ok(AuthorIds(reviews)) else Err(MissingKey)
  }

  /** Where the strict extraction succeeds, the lenient one keeps exactly its non-empty ids. */
  lemma {:induction false} StrictThenFiltered(reviews: seq<Review>)
    requires ReviewerIdsStrict(reviews).Ok?
    ensures ReviewerIds(reviews) == Filter(ReviewerIdsStrict(reviews).value, (id: SteamId) => id != "")
  {
    if reviews != [] {
      var n := |reviews| - 1;
      var init := reviews[..n];
      assert ReviewerIdsStrict(init).Ok?;
      StrictThenFiltered(init);
      assert reviews == init + [reviews[n]];
      AuthorIdsAppend(init, [reviews[n]]);
      FilterAppend(AuthorIds(init), AuthorIds([reviews[n]]), (id: SteamId) => id != "");
      assert AuthorIds([reviews[n]]) == [AuthorId(reviews[n]).value];
      var one := [AuthorId(reviews[n]).value];
      assert Filter(one, (id: SteamId) => id != "") == if one[0] != "" then one else [] by {
        assert one[1..] == [];
      }
    }
  }

  /** The truth test `if app` on a game's id: present and non-zero. */
  predicate CountedAs(g: OwnedGame, a: int) {
    g.appid == Some(a) && a != 0
  }

  /** How many games of one listing count towards `a`. */
  function CountIn(glist: seq<OwnedGame>, a: int): nat {
    if glist == [] then 0
    else CountIn(glist[..|glist| - 1], a) + (if CountedAs(glist[|glist| - 1], a) then 1 else 0)
  }

  /** `get_owned_games` of the SteamSpy script: the listing of a 200 reply, else none. */
  function Listing(replyOf: SteamId -> Response<seq<OwnedGame>>, sid: SteamId): seq<OwnedGame> {
    OwnedGamesIf200(replyOf(sid))
  }

  /** How many times `a` was counted over the sampled ids, an id sampled twice counted twice. */
  function Plays(ids: seq<SteamId>, replyOf: SteamId -> Response<seq<OwnedGame>>, a: int): nat {
    if ids == [] then 0
    else Plays(ids[..|ids| - 1], replyOf, a) + CountIn(Listing(replyOf, ids[|ids| - 1]), a)
  }

  /** The counter's view of a count: a key only for a positive count. */
  function AsEntry(n: nat): Option<int> {
    if n > 0 then Some(n) else None
  }

  /** `play_counter[app] += 1` */
  function Bump(counter: Assoc<int, int>, a: int): Assoc<int, int> {
    Put(counter, a, Lookup(counter, a).GetOr(0) + 1)
  }

  /** The counter after the nested loops: exactly the counted ids, each with its count. */
  ghost predicate Counts(counter: Assoc<int, int>, count: int -> nat) {
    && DistinctKeys(counter)
    && forall a :: Lookup(counter, a) == AsEntry(count(a))
  }

  /** `for sid in sample_ids: for g in get_owned_games(sid): if app: play_counter[app] += 1` */
  method CountPlays(sample: seq<SteamId>, replyOf: SteamId -> Response<seq<OwnedGame>>)
    returns (counter: Assoc<int, int>)
    ensures Counts(counter, a => Plays(sample, replyOf, a))
  {
    counter := [];
    var i := 0;
    while i < |sample|
      invariant 0 <= i <= |sample|
      invariant Counts(counter, a => Plays(sample[..i], replyOf, a))
    {
      var glist := Listing(replyOf, sample[i]);
      counter := CountListing(counter, glist, a => Plays(sample[..i], replyOf, a));
      assert sample[..i + 1][..i] == sample[..i];
      i := i + 1;
    }
    assert sample[..i] == sample;
  }

  /** The inner loop over one listing. */
  method CountListing(counter: Assoc<int, int>, glist: seq<OwnedGame>, count: int -> nat)
    returns (r: Assoc<int, int>)
    requires Counts(counter, count)
    ensures Counts(r, a => count(a) + CountIn(glist, a))
  {
    r := counter;
    var j := 0;
    while j < |glist|
      invariant 0 <= j <= |glist|
      invariant Counts(r, a => count(a) + CountIn(glist[..j], a))
    {
      var g := glist[j];
      assert glist[..j + 1][..j] == glist[..j];
      if g.appid.Some? && g.appid.value != 0 {
        BumpCounts(r, g.appid.value, a => count(a) + CountIn(glist[..j], a), a => count(a) + CountIn(glist[..j + 1], a));
        r := Bump(r, g.appid.value);
      } else {
        assert forall a :: CountIn(glist[..j + 1], a) == CountIn(glist[..j], a);
      }
      j := j + 1;
    }
    assert glist[..j] == glist;
  }

  /** Bumping `b` takes a counter of `before` to a counter of `after` when the two differ by
      one at `b` and nowhere else. */
  lemma BumpCounts(counter: Assoc<int, int>, b: int, before: int -> nat, after: int -> nat)
    requires Counts(counter, before)
    requires after(b) == before(b) + 1
    requires forall a :: a != b ==> after(a) == before(a)
    ensures Counts(Bump(counter, b), after)
  {
    PutDistinct(counter, b, Lookup(counter, b).GetOr(0) + 1);
    forall a ensures Lookup(Bump(counter, b), a) == AsEntry(after(a)) {
      BumpEntry(counter, b, a, before(a), after(a));
    }
  }

  /** The entry at `a` after bumping `b`: one more at `b`, unchanged elsewhere. */
  lemma BumpEntry(counter: Assoc<int, int>, b: int, a: int, was: nat, now: nat)
    requires Lookup(counter, a) == AsEntry(was)
    requires now == if a == b then was + 1 else was
    ensures Lookup(Bump(counter, b), a) == AsEntry(now)
  {
    PutLookupAt(counter, b, Lookup(counter, b).GetOr(0) + 1, a);
  }

  /** `most_common(n)` ranks by count. */
  function CountOf(e: (int, int)): real { e.1 as real }

  /** `del play_counter[app_id]` followed by `most_common(TOP_N_PLAY_SIM)`. */
  function Similars(counter: Assoc<int, int>, appId: int): seq<(int, int)> {
    TopK(Remove(counter, appId), TopPlaySimilars, CountOf)
  }

  /** The play counter block: the first 1000 truthy reviewer ids, repeats kept, are counted
      and ranked. */
  method PlayCounter(reviews: seq<Review>, appId: int, replyOf: SteamId -> Response<seq<OwnedGame>>)
    returns (similars: seq<(int, int)>, sample: seq<SteamId>)
    ensures sample == TakePrefix(ReviewerIds(reviews), SamplePlaySize)
    ensures |similars| <= TopPlaySimilars
    ensures SortedDesc(similars, CountOf)
    ensures forall e :: e in similars ==> e.0 != appId && e.1 == Plays(sample, replyOf, e.0) > 0
    ensures DistinctKeys(similars)
    ensures forall a, e :: a != appId && Plays(sample, replyOf, a) > 0 && a !in Keys(similars) && e in similars ==>
      Plays(sample, replyOf, a) <= e.1
    ensures |similars| < TopPlaySimilars ==>
      forall a :: a != appId && Plays(sample, replyOf, a) > 0 ==> a in Keys(similars)
  {
    var ids := ReviewerIds(reviews);
    sample := TakePrefix(ids, SamplePlaySize);
    var counter := CountPlays(sample, replyOf);
    similars := Similars(counter, appId);
    SimilarsSpec(counter, appId, a => Plays(sample, replyOf, a));
  }

  /** The ranking leaves out the game itself, keeps `min(10, #other counted games)` entries
      with their counts, best first, and leaves out no counted game with a higher count than
      one it keeps; a ranking of fewer than 10 holds every other counted game. */
  lemma SimilarsSpec(counter: Assoc<int, int>, appId: int, count: int -> nat)
    requires Counts(counter, count)
    ensures var top := Similars(counter, appId);
      && |top| <= TopPlaySimilars
      && SortedDesc(top, CountOf)
      && (forall e :: e in top ==> e.0 != appId && e.1 == count(e.0) > 0)
      && DistinctKeys(top)
      && (forall a, e :: a != appId && count(a) > 0 && a !in Keys(top) && e in top ==> count(a) <= e.1)
      && |top| == Min(TopPlaySimilars, |Remove(counter, appId)|)
      && (|top| < TopPlaySimilars ==> forall a :: a != appId && count(a) > 0 ==> a in Keys(top))
  {
    TopKSize(Remove(counter, appId), TopPlaySimilars, CountOf);
    SimilarsEntries(counter, appId, count);
    var top := Similars(counter, appId);
    forall a, e | a != appId && count(a) > 0 && a !in Keys(top) && e in top ensures count(a) <= e.1 {
      DroppedGame(counter, appId, count, a, e);
    }
    if |top| < TopPlaySimilars {
      forall a | a != appId && count(a) > 0 ensures a in Keys(top) {
        ShortRanking(counter, appId, count, a);
      }
    }
  }

  /** A ranking of fewer than 10 entries holds every counted game other than the game itself. */
  lemma ShortRanking(counter: Assoc<int, int>, appId: int, count: int -> nat, a: int)
    requires Counts(counter, count)
    requires a != appId && count(a) > 0
    requires |Similars(counter, appId)| < TopPlaySimilars
    ensures a in Keys(Similars(counter, appId))
  {
    var rest := Remove(counter, appId);
    var top := Similars(counter, appId);
    var x := (a, count(a) as int);
    assert Lookup(rest, a) == Some(count(a) as int);
    assert x in rest;
    TopKAll(rest, TopPlaySimilars, CountOf, x);
    var m :| 0 <= m < |top| && top[m] == x;
    assert Keys(top)[m] == a;
  }

  /** Every ranked entry is a counted game other than the game itself, once, with its count. */
  lemma SimilarsEntries(counter: Assoc<int, int>, appId: int, count: int -> nat)
    requires Counts(counter, count)
    ensures var top := Similars(counter, appId);
      && (forall e :: e in top ==> e.0 != appId && e.1 == count(e.0) > 0)
      && DistinctKeys(top)
  {
    var rest := Remove(counter, appId);
    var top := Similars(counter, appId);
    assert Distinct(rest) by {
      forall i, j | 0 <= i < j < |rest| ensures rest[i] != rest[j] {
        assert rest[i].0 != rest[j].0;
      }
    }
    TopKDistinct(rest, TopPlaySimilars, CountOf);
    forall e | e in top ensures e.0 != appId && e.1 == count(e.0) > 0 {
      EntryCount(rest, e, count, appId, counter);
    }
    forall i, j | 0 <= i < j < |top| ensures top[i].0 != top[j].0 {
      assert top[i] in top && top[j] in top;
      assert top[i] != top[j];
    }
  }

  /** A counted game missing from the ranking was not counted more often than a ranked one. */
  lemma DroppedGame(counter: Assoc<int, int>, appId: int, count: int -> nat, a: int, e: (int, int))
    requires Counts(counter, count)
    requires a != appId && count(a) > 0
    requires a !in Keys(Similars(counter, appId)) && e in Similars(counter, appId)
    ensures count(a) <= e.1
  {
    var rest := Remove(counter, appId);
    var top := Similars(counter, appId);
    TopKBound(rest, TopPlaySimilars, CountOf);
    var x := (a, count(a) as int);
    assert Lookup(rest, a) == Some(count(a) as int);
    assert x in rest;
    forall m | 0 <= m < |top| ensures top[m] != x {
      assert Keys(top)[m] == top[m].0;
    }
    assert CountOf(x) <= CountOf(e);
  }

  /** An entry left after the removal is the count of its game, which is not the removed one. */
  lemma EntryCount(rest: Assoc<int, int>, e: (int, int), count: int -> nat, appId: int, counter: Assoc<int, int>)
    requires Counts(counter, count)
    requires rest == Remove(counter, appId)
    requires e in rest
    ensures e.0 != appId && e.1 == count(e.0) > 0
  {
    assert e in counter;
    var i :| 0 <= i < |counter| && counter[i] == e;
    LookupAt(counter, i);
  }
}
