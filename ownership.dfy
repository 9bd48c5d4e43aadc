/** The "other games" table: for each sampled user, the games they own and how long they
    played each, one row per user and one column per game name, with the collector's pruning
    to the columns that were played and to the 1000 most played. */
module Ownership {
  import opened Common
  import opened SteamTypes
  import opened Profiles
  import opened Ranking

  /** A column key: `g.get('name')`, `None` for a game without a name. */
  type GameKey = Option<string>

  /** The collector's hours: `playtime_hours` when present, else `playtime_forever / 60`,
      a missing playtime counting as 0. */
  function HoursCollect(g: OwnedGame): real {
    if g.playtimeHours.Some? then g.playtimeHours.value else (g.playtimeForever.GetOr(0) as real) / 60.0
  }

  /** The single-game sampler's hours: `playtime_forever / 60`, a missing playtime counting as 0. */
  function HoursOther(g: OwnedGame): real {
    (g.playtimeForever.GetOr(0) as real) / 60.0
  }

  /** The game columns of one row dictionary. */
  type HoursRow = Assoc<GameKey, real>

  /** `for g in glist: row[name] = hrs`, one game after the other. */
  function HoursOf(glist: seq<OwnedGame>, hours: OwnedGame -> real): HoursRow {
    if glist == [] then []
    else
      var g := glist[|glist| - 1];
      Put(HoursOf(glist[..|glist| - 1], hours), g.name, hours(g))
  }

  /** `g` is the last game of `glist` under its name. */
  predicate LastNamed(glist: seq<OwnedGame>, i: int) {
    0 <= i < |glist| && forall j :: i < j < |glist| ==> glist[j].name != glist[i].name
  }

  /** The row has one column per game name of the list, and a name that occurs several times
      holds the hours of its last occurrence. */
  lemma HoursOfSpec(glist: seq<OwnedGame>, hours: OwnedGame -> real)
    ensures DistinctKeys(HoursOf(glist, hours))
    ensures forall k :: Lookup(HoursOf(glist, hours), k).Some? <==> exists i :: 0 <= i < |glist| && glist[i].name == k
    ensures forall i :: LastNamed(glist, i) ==> Lookup(HoursOf(glist, hours), glist[i].name) == Some(hours(glist[i]))
  {
    HoursOfDistinct(glist, hours);
    forall k ensures Lookup(HoursOf(glist, hours), k).Some? <==> exists i :: 0 <= i < |glist| && glist[i].name == k {
      HoursOfKey(glist, hours, k);
      var names := Names(glist);
      if k in names {
        var i :| 0 <= i < |names| && names[i] == k;
        assert glist[i].name == k;
      }
    }
    forall i | LastNamed(glist, i) ensures Lookup(HoursOf(glist, hours), glist[i].name) == Some(hours(glist[i])) {
      HoursOfLast(glist, hours, i);
    }
  }

  lemma {:induction false} HoursOfDistinct(glist: seq<OwnedGame>, hours: OwnedGame -> real)
    ensures DistinctKeys(HoursOf(glist, hours))
  {
    if glist != [] {
      var n := |glist| - 1;
      HoursOfDistinct(glist[..n], hours);
      PutDistinct(HoursOf(glist[..n], hours), glist[n].name, hours(glist[n]));
    }
  }

  /** The names of a listing, in order. */
  function Names(glist: seq<OwnedGame>): (r: seq<GameKey>)
    ensures |r| == |glist|
    ensures forall i :: 0 <= i < |glist| ==> r[i] == glist[i].name
  {
    if glist == [] then [] else Names(glist[..|glist| - 1]) + [glist[|glist| - 1].name]
  }

  lemma {:induction false} HoursOfKey(glist: seq<OwnedGame>, hours: OwnedGame -> real, k: GameKey)
    ensures Lookup(HoursOf(glist, hours), k).Some? <==> k in Names(glist)
  {
    if glist != [] {
      var n := |glist| - 1;
      var init := glist[..n];
      HoursOfKey(init, hours, k);
      PutLookup(HoursOf(init, hours), glist[n].name, hours(glist[n]));
    }
  }

  lemma {:induction false} HoursOfLast(glist: seq<OwnedGame>, hours: OwnedGame -> real, i: int)
    requires LastNamed(glist, i)
    ensures Lookup(HoursOf(glist, hours), glist[i].name) == Some(hours(glist[i]))
  {
    var n := |glist| - 1;
    if i < n {
      LastNamedInit(glist, i);
      HoursOfLast(glist[..n], hours, i);
    }
    PutLookupAt(HoursOf(glist[..n], hours), glist[n].name, hours(glist[n]), glist[i].name);
  }

  /** A game last under its name in the list, but not the final one, is last under its name
      in the list without the final game, whose name differs. */
  lemma LastNamedInit(glist: seq<OwnedGame>, i: int)
    requires LastNamed(glist, i) && i < |glist| - 1
    ensures LastNamed(glist[..|glist| - 1], i)
    ensures glist[..|glist| - 1][i] == glist[i] && glist[i].name != glist[|glist| - 1].name
  {
  }

  /** A user's row: the `steamid` cell and the game cells. */
  datatype Row = Row(steamid: SteamId, hours: HoursRow)

  /** `get_owned_games` of the two collectors: `[]` on 401 and 403, raising on other errors. */
  function GamesOf(replyOf: SteamId -> Response<seq<OwnedGame>>, sid: SteamId): Result<seq<OwnedGame>> {
    OwnedGamesOrEmpty(replyOf(sid))
  }

  /** The game names of the listing of `sid`, none when it raised. */
  function ListedNames(replyOf: SteamId -> Response<seq<OwnedGame>>, sid: SteamId): seq<GameKey> {
    if GamesOf(replyOf, sid).Ok? then Names(GamesOf(replyOf, sid).value) else []
  }

  /** Some one of the first `n` users lists a game named `k`. */
  predicate NeededAmong(steamids: seq<SteamId>, replyOf: SteamId -> Response<seq<OwnedGame>>, n: int, k: GameKey) {
    exists i :: 0 <= i < n && i < |steamids| && k in ListedNames(replyOf, steamids[i])
  }

  /** What the first loop of both collectors gathers: `user_games` and `needed`. */
  datatype Owned = Owned(userGames: Assoc<SteamId, seq<OwnedGame>>, needed: set<GameKey>)

  /** `for sid in steamids: user_games[sid] = get_owned_games(sid)` and every name into
      `needed`; the first listing that raises ends the run. */
  method FetchOwned(steamids: seq<SteamId>, replyOf: SteamId -> Response<seq<OwnedGame>>)
    returns (outcome: Result<Owned>)
    ensures outcome.Ok? <==> forall i :: 0 <= i < |steamids| ==> GamesOf(replyOf, steamids[i]).Ok?
    ensures outcome.Err? ==>
      exists i :: && 0 <= i < |steamids| && GamesOf(replyOf, steamids[i]) == Err(outcome.error)
                  && forall j :: 0 <= j < i ==> GamesOf(replyOf, steamids[j]).Ok?
    ensures outcome.Ok? ==> var o := outcome.value;
      && DistinctKeys(o.userGames)
      && (forall sid :: Lookup(o.userGames, sid).Some? <==> sid in steamids)
      && (forall sid :: Lookup(o.userGames, sid).Some? ==> GamesOf(replyOf, sid) == Ok(Lookup(o.userGames, sid).value))
      && (Distinct(steamids) ==> Keys(o.userGames) == steamids)
      && (forall k :: k in o.needed <==> NeededAmong(steamids, replyOf, |steamids|, k))
  {
    var userGames: Assoc<SteamId, seq<OwnedGame>> := [];
    var needed: set<GameKey> := {};
    var i := 0;
    while i < |steamids|
      invariant 0 <= i <= |steamids|
      invariant forall j :: 0 <= j < i ==> GamesOf(replyOf, steamids[j]).Ok?
      invariant Gathered(steamids, replyOf, i, userGames)
      invariant forall k :: k in needed <==> NeededAmong(steamids, replyOf, i, k)
    {
      var sid := steamids[i];
      var listing := GamesOf(replyOf, sid);
      if listing.Err? {
        return Err(listing.error);
      }
      var glist := listing.value;
      userGames := Remember(steamids, replyOf, i, userGames, glist);
      ghost var before := needed;
      needed := AddNames(needed, glist);
      NeededStep(steamids, replyOf, i, before, needed);
      i := i + 1;
    }
    assert steamids[..i] == steamids;
    return Ok(Owned(userGames, needed));
  }

  /** `for g in glist: needed.add(g.get('name'))` */
  method AddNames(needed: set<GameKey>, glist: seq<OwnedGame>) returns (r: set<GameKey>)
    ensures forall k :: k in r <==> k in needed || k in Names(glist)
  {
    r := needed;
    var j := 0;
    while j < |glist|
      invariant 0 <= j <= |glist|
      invariant forall k :: k in r <==> k in needed || k in Names(glist[..j])
    {
      assert glist[..j + 1][..j] == glist[..j];
      r := r + {glist[j].name};
      j := j + 1;
    }
    assert glist[..j] == glist;
  }

  /** The listings of the first `i` ids: each id once, under it what its listing gave, and in
      sample order when the ids are distinct. */
  ghost predicate Gathered(steamids: seq<SteamId>, replyOf: SteamId -> Response<seq<OwnedGame>>, i: nat,
                           userGames: Assoc<SteamId, seq<OwnedGame>>)
    requires i <= |steamids|
  {
    && DistinctKeys(userGames)
    && (forall sid :: Lookup(userGames, sid).Some? <==> sid in steamids[..i])
    && (forall sid :: Lookup(userGames, sid).Some? ==> GamesOf(replyOf, sid) == Ok(Lookup(userGames, sid).value))
    && (Distinct(steamids) ==> Keys(userGames) == steamids[..i])
  }

  /** `user_games[sid] = glist` for the `i`-th id, keeping the dictionary's invariants. */
  method Remember(steamids: seq<SteamId>, replyOf: SteamId -> Response<seq<OwnedGame>>, i: nat,
                  userGames: Assoc<SteamId, seq<OwnedGame>>, glist: seq<OwnedGame>)
    returns (r: Assoc<SteamId, seq<OwnedGame>>)
    requires i < |steamids| && GamesOf(replyOf, steamids[i]) == Ok(glist)
    requires Gathered(steamids, replyOf, i, userGames)
    ensures r == Put(userGames, steamids[i], glist)
    ensures Gathered(steamids, replyOf, i + 1, r)
  {
    var sid := steamids[i];
    r := Put(userGames, sid, glist);
    PutDistinct(userGames, sid, glist);
    assert steamids[..i + 1] == steamids[..i] + [sid];
    PutSeen(userGames, steamids[..i], sid, glist);
    forall x | Lookup(r, x).Some? ensures GamesOf(replyOf, x) == Ok(Lookup(r, x).value) {
      PutLookupAt(userGames, sid, glist, x);
    }
    if Distinct(steamids) {
      assert sid !in steamids[..i];
      PutNewKeys(userGames, sid, glist);
    }
  }

  lemma NeededStep(steamids: seq<SteamId>, replyOf: SteamId -> Response<seq<OwnedGame>>, i: nat,
                   before: set<GameKey>, after: set<GameKey>)
    requires i < |steamids| && GamesOf(replyOf, steamids[i]).Ok?
    requires forall k :: k in before <==> NeededAmong(steamids, replyOf, i, k)
    requires forall k :: k in after <==> k in before || k in ListedNames(replyOf, steamids[i])
    ensures forall k :: k in after <==> NeededAmong(steamids, replyOf, i + 1, k)
  {
    forall k ensures k in after <==> NeededAmong(steamids, replyOf, i + 1, k) {
      if NeededAmong(steamids, replyOf, i + 1, k) {
        var j :| 0 <= j < i + 1 && j < |steamids| && k in ListedNames(replyOf, steamids[j]);
        if j < i {
          assert NeededAmong(steamids, replyOf, i, k);
        }
      }
      if k in ListedNames(replyOf, steamids[i]) {
        assert 0 <= i < i + 1 && k in ListedNames(replyOf, steamids[i]);
      }
      if NeededAmong(steamids, replyOf, i, k) {
        var j :| 0 <= j < i && j < |steamids| && k in ListedNames(replyOf, steamids[j]);
        assert 0 <= j < i + 1;
      }
    }
  }

  /** `row = {'steamid': sid}` followed by `row[name] = hrs` for each game. */
  method RowDict(sid: SteamId, glist: seq<OwnedGame>, hours: OwnedGame -> real) returns (row: Row)
    ensures row == Row(sid, HoursOf(glist, hours))
  {
    var cells: HoursRow := [];
    var j := 0;
    while j < |glist|
      invariant 0 <= j <= |glist|
      invariant cells == HoursOf(glist[..j], hours)
    {
      assert glist[..j + 1][..j] == glist[..j];
      cells := Put(cells, glist[j].name, hours(glist[j]));
      j := j + 1;
    }
    assert glist[..j] == glist;
    row := Row(sid, cells);
  }

  /** The collector's row loop: one row per sampled id, in sample order, from `user_games[sid]`. */
  method CollectRows(steamids: seq<SteamId>, userGames: Assoc<SteamId, seq<OwnedGame>>)
    returns (rows: seq<Row>)
    requires forall i :: 0 <= i < |steamids| ==> Lookup(userGames, steamids[i]).Some?
    ensures |rows| == |steamids|
    ensures forall i :: 0 <= i < |steamids| ==>
      rows[i] == Row(steamids[i], HoursOf(Lookup(userGames, steamids[i]).value, HoursCollect))
  {
    rows := [];
    var i := 0;
    while i < |steamids|
      invariant 0 <= i <= |steamids|
      invariant |rows| == i
      invariant forall j :: 0 <= j < i ==>
        rows[j] == Row(steamids[j], HoursOf(Lookup(userGames, steamids[j]).value, HoursCollect))
    {
      var row := RowDict(steamids[i], Lookup(userGames, steamids[i]).value, HoursCollect);
      rows := rows + [row];
      i := i + 1;
    }
  }

  /** The single-game sampler's row loop: one row per entry of `user_games`, in its order. */
  method OtherRows(userGames: Assoc<SteamId, seq<OwnedGame>>) returns (rows: seq<Row>)
    ensures |rows| == |userGames|
    ensures forall i :: 0 <= i < |userGames| ==> rows[i] == Row(userGames[i].0, HoursOf(userGames[i].1, HoursOther))
  {
    rows := [];
    var i := 0;
    while i < |userGames|
      invariant 0 <= i <= |userGames|
      invariant |rows| == i
      invariant forall j :: 0 <= j < i ==> rows[j] == Row(userGames[j].0, HoursOf(userGames[j].1, HoursOther))
    {
      var row := RowDict(userGames[i].0, userGames[i].1, HoursOther);
      rows := rows + [row];
      i := i + 1;
    }
  }

  // ---------------------------------------------------------------- the data frame

  /** `fillna(0)`: the hours in a row's column, 0 when the row lacks it. */
  function Cell(row: Row, c: GameKey): real {
    Lookup(row.hours, c).GetOr(0.0)
  }

  /** Every game key of every row, row after row. */
  function KeysOfRows(rows: seq<Row>): seq<GameKey> {
    if rows == [] then [] else KeysOfRows(rows[..|rows| - 1]) + Keys(rows[|rows| - 1].hours)
  }

  /** The frame's game columns: each key where it first appears. */
  function AllColumns(rows: seq<Row>): seq<GameKey> {
    Dedup(KeysOfRows(rows))
  }

  /** Some row has a column `c`. */
  predicate HeldBy(rows: seq<Row>, c: GameKey) {
    exists i :: 0 <= i < |rows| && c in Keys(rows[i].hours)
  }

  /** The game columns are exactly the keys some row holds, each once. */
  lemma AllColumnsSpec(rows: seq<Row>)
    ensures Distinct(AllColumns(rows))
    ensures forall c :: c in AllColumns(rows) <==> HeldBy(rows, c)
  {
    forall c ensures c in KeysOfRows(rows) <==> HeldBy(rows, c) {
      KeysOfRowsKey(rows, c);
    }
  }

  lemma {:induction false} KeysOfRowsKey(rows: seq<Row>, c: GameKey)
    ensures c in KeysOfRows(rows) <==> HeldBy(rows, c)
  {
    if rows != [] {
      var n := |rows| - 1;
      KeysOfRowsKey(rows[..n], c);
      HeldBySnoc(rows, c);
      assert KeysOfRows(rows) == KeysOfRows(rows[..n]) + Keys(rows[n].hours);
    }
  }

  lemma HeldBySnoc(rows: seq<Row>, c: GameKey)
    requires rows != []
    ensures HeldBy(rows, c) <==> HeldBy(rows[..|rows| - 1], c) || c in Keys(rows[|rows| - 1].hours)
  {
    var n := |rows| - 1;
    if HeldBy(rows, c) {
      var i :| 0 <= i < |rows| && c in Keys(rows[i].hours);
      if i < n {
        assert rows[..n][i] == rows[i];
      }
    }
    if HeldBy(rows[..n], c) {
      var i :| 0 <= i < n && c in Keys(rows[..n][i].hours);
      assert rows[..n][i] == rows[i];
    }
  }

  /** `df_games[col].sum()` */
  function ColumnSum(rows: seq<Row>, c: GameKey): real {
    if rows == [] then 0.0 else ColumnSum(rows[..|rows| - 1], c) + Cell(rows[|rows| - 1], c)
  }

  /** The columns kept by `nonzero_cols`, besides `steamid`: those whose sum is positive. */
  function Nonzero(rows: seq<Row>): seq<GameKey> {
    Filter(AllColumns(rows), c => ColumnSum(rows, c) > 0.0)
  }

  /** The largest table the collector writes: `steamid` and 1000 game columns. */
  const MaxColumns: int := 1001

  /** Each game column with its sum, the series `sort_values` ranks. */
  function Sums(rows: seq<Row>, cols: seq<GameKey>): (r: seq<(GameKey, real)>)
    ensures |r| == |cols|
    ensures forall i :: 0 <= i < |cols| ==> r[i] == (cols[i], ColumnSum(rows, cols[i]))
  {
    if cols == [] then [] else [(cols[0], ColumnSum(rows, cols[0]))] + Sums(rows, cols[1..])
  }

  function SumOf(e: (GameKey, real)): real { e.1 }

  /** The game columns the collector keeps: the played ones, cut to the 1000 with the largest
      sums when there are more than that. */
  function KeptColumns(rows: seq<Row>): seq<GameKey> {
    var nz := Nonzero(rows);
    if 1 + |nz| > MaxColumns then Keys(TopK(Sums(rows, nz), MaxColumns - 1, SumOf)) else nz
  }

  /** A table: the `steamid` column and the game columns. */
  datatype Frame = Frame(steamids: seq<SteamId>, columns: seq<GameKey>, cells: seq<seq<real>>)

  /** The frame of `rows` restricted to `cols`, missing cells filled with 0. */
  function FrameOf(rows: seq<Row>, cols: seq<GameKey>): (f: Frame)
    ensures |f.steamids| == |f.cells| == |rows| && f.columns == cols
    ensures forall i :: 0 <= i < |rows| ==> f.steamids[i] == rows[i].steamid && |f.cells[i]| == |cols|
    ensures forall i, j :: 0 <= i < |rows| && 0 <= j < |cols| ==> f.cells[i][j] == Cell(rows[i], cols[j])
  {
    Frame(seq(|rows|, i requires 0 <= i < |rows| => rows[i].steamid), cols,
          seq(|rows|, i requires 0 <= i < |rows| => seq(|cols|, j requires 0 <= j < |cols| => Cell(rows[i], cols[j]))))
  }

  /** The collector's table, or `None` when it skips the export: no rows or no game at all. */
  function MatrixCollect(rows: seq<Row>, needed: set<GameKey>): Option<Frame> {
    if rows == [] || |needed| == 0 then None else Some(FrameOf(rows, KeptColumns(rows)))
  }

  /** The kept columns are distinct, played (positive sum, so held by some row) and at most
      1000; with at most 1000 played columns they are all of them, in frame order; with more,
      exactly 1000 are kept and none dropped has a larger sum than any kept. */
  lemma KeptColumnsSpec(rows: seq<Row>)
    ensures var kept := KeptColumns(rows);
      && Distinct(kept)
      && |kept| <= MaxColumns - 1
      && (forall c :: c in kept ==> HeldBy(rows, c) && ColumnSum(rows, c) > 0.0)
      && (|Nonzero(rows)| <= MaxColumns - 1 ==> kept == Nonzero(rows))
      && (|Nonzero(rows)| > MaxColumns - 1 ==> |kept| == MaxColumns - 1)
      && (forall c, d :: c in kept && d in AllColumns(rows) && ColumnSum(rows, d) > 0.0 && d !in kept ==>
            ColumnSum(rows, d) <= ColumnSum(rows, c))
  {
    var nz := Nonzero(rows);
    AllColumnsSpec(rows);
    FilterDistinct(AllColumns(rows), c => ColumnSum(rows, c) > 0.0);
    if 1 + |nz| > MaxColumns {
      TopColumns(rows, nz);
    }
  }

  /** Ranking distinct played columns by sum and keeping 1000 keeps 1000 distinct ones, none
      outranked by a column left out. */
  lemma TopColumns(rows: seq<Row>, nz: seq<GameKey>)
    requires Distinct(nz) && |nz| >= MaxColumns - 1
    ensures var kept := Keys(TopK(Sums(rows, nz), MaxColumns - 1, SumOf));
      && Distinct(kept)
      && |kept| == MaxColumns - 1
      && (forall c :: c in kept ==> c in nz)
      && (forall c, d :: c in kept && d in nz && d !in kept ==> ColumnSum(rows, d) <= ColumnSum(rows, c))
  {
    var scored := Sums(rows, nz);
    var top := TopK(scored, MaxColumns - 1, SumOf);
    var kept := Keys(top);
    SumsEntries(rows, nz);
    TopKSize(scored, MaxColumns - 1, SumOf);
    TopKDistinct(scored, MaxColumns - 1, SumOf);
    TopKeysDistinct(rows, top);
    forall c | c in kept ensures c in nz {
      var i :| 0 <= i < |kept| && kept[i] == c;
      assert top[i] in scored;
    }
    forall c, d | c in kept && d in nz && d !in kept ensures ColumnSum(rows, d) <= ColumnSum(rows, c) {
      var i :| 0 <= i < |kept| && kept[i] == c;
      var k :| 0 <= k < |nz| && nz[k] == d;
      DroppedColumn(rows, nz, k, i);
    }
  }

  /** A played column left out scores no more than the `i`-th kept one. */
  lemma DroppedColumn(rows: seq<Row>, nz: seq<GameKey>, k: nat, i: nat)
    requires Distinct(nz) && k < |nz|
    requires i < |TopK(Sums(rows, nz), MaxColumns - 1, SumOf)|
    requires nz[k] !in Keys(TopK(Sums(rows, nz), MaxColumns - 1, SumOf))
    ensures ColumnSum(rows, nz[k]) <= ColumnSum(rows, Keys(TopK(Sums(rows, nz), MaxColumns - 1, SumOf))[i])
  {
    var scored := Sums(rows, nz);
    var top := TopK(scored, MaxColumns - 1, SumOf);
    var kept := Keys(top);
    SumsEntries(rows, nz);
    TopKBound(scored, MaxColumns - 1, SumOf);
    TopKDistinct(scored, MaxColumns - 1, SumOf);
    var x := scored[k];
    forall m | 0 <= m < |top| ensures top[m] != x {
      assert kept[m] == top[m].0;
    }
    assert top[i] in top;
    assert SumOf(x) <= SumOf(top[i]);
  }

  /** The ranked series pairs each column, once, with its own sum. */
  lemma SumsEntries(rows: seq<Row>, nz: seq<GameKey>)
    requires Distinct(nz)
    ensures Distinct(Sums(rows, nz))
    ensures forall e :: e in Sums(rows, nz) ==> e.0 in nz && e.1 == ColumnSum(rows, e.0)
  {
    var scored := Sums(rows, nz);
    forall i, j | 0 <= i < j < |scored| ensures scored[i] != scored[j] {
      assert scored[i].0 == nz[i] && scored[j].0 == nz[j];
    }
  }

  /** Distinct entries that each carry their column's own sum have distinct columns. */
  lemma TopKeysDistinct(rows: seq<Row>, top: seq<(GameKey, real)>)
    requires Distinct(top)
    requires forall e :: e in top ==> e.1 == ColumnSum(rows, e.0)
    ensures Distinct(Keys(top))
  {
    var kept := Keys(top);
    forall i, j | 0 <= i < j < |kept| ensures kept[i] != kept[j] {
      assert top[i] in top && top[j] in top;
      assert top[i] != top[j];
    }
  }

  /** The collector's table: `None` exactly when there is no row or no game; otherwise one
      row per user in order, the played columns cut to 1000, each cell the user's hours or 0. */
  lemma MatrixCollectSpec(rows: seq<Row>, needed: set<GameKey>)
    ensures MatrixCollect(rows, needed).None? <==> rows == [] || needed == {}
    ensures MatrixCollect(rows, needed).Some? ==> var f := MatrixCollect(rows, needed).value;
      && |f.steamids| == |rows|
      && (forall i :: 0 <= i < |rows| ==> f.steamids[i] == rows[i].steamid)
      && 1 + |f.columns| <= MaxColumns
      && (forall c :: c in f.columns ==> ColumnSum(rows, c) > 0.0)
      && (forall i, j :: 0 <= i < |rows| && 0 <= j < |f.columns| ==> f.cells[i][j] == Cell(rows[i], f.columns[j]))
  {
    KeptColumnsSpec(rows);
  }

  /** The single-game sampler's table: every game column, nothing pruned. */
  function MatrixOther(rows: seq<Row>): Frame {
    FrameOf(rows, AllColumns(rows))
  }

  // ---------------------------------------------------------------- the two tables

  /** The listing of `sid`, none when it raised. */
  function ListedGames(replyOf: SteamId -> Response<seq<OwnedGame>>, sid: SteamId): seq<OwnedGame> {
    if GamesOf(replyOf, sid).Ok? then GamesOf(replyOf, sid).value else []
  }

  /** One row per id, in order, from the id's own listing. */
  function UserRows(steamids: seq<SteamId>, replyOf: SteamId -> Response<seq<OwnedGame>>, hours: OwnedGame -> real): (rows: seq<Row>)
    ensures |rows| == |steamids|
    ensures forall i :: 0 <= i < |steamids| ==> rows[i] == Row(steamids[i], HoursOf(ListedGames(replyOf, steamids[i]), hours))
  {
    seq(|steamids|, i requires 0 <= i < |steamids| => Row(steamids[i], HoursOf(ListedGames(replyOf, steamids[i]), hours)))
  }

  /** A cell holds the hours of the user's last listed game of that name, or 0 when the user
      lists no game of that name. */
  lemma CellSpec(sid: SteamId, glist: seq<OwnedGame>, hours: OwnedGame -> real, c: GameKey)
    ensures (forall i :: 0 <= i < |glist| ==> glist[i].name != c) ==> Cell(Row(sid, HoursOf(glist, hours)), c) == 0.0
    ensures forall i :: LastNamed(glist, i) && glist[i].name == c ==> Cell(Row(sid, HoursOf(glist, hours)), c) == hours(glist[i])
  {
    HoursOfSpec(glist, hours);
  }

  /** What a collector writes: the "Other Games" table and the `sample_size` KPI. */
  datatype Export = Export(frame: Frame, sampleSize: int)

  /** The collector's table for the sampled ids: an error when a listing raises; no export when
      there is no id or no one lists a game; else the pruned table over one row per id. */
  method CollectTable(steamids: seq<SteamId>, replyOf: SteamId -> Response<seq<OwnedGame>>)
    returns (outcome: Result<Option<Export>>)
    ensures outcome.Err? <==> exists i :: 0 <= i < |steamids| && GamesOf(replyOf, steamids[i]).Err?
    ensures outcome.Ok? ==>
      (outcome.value.None? <==> steamids == [] || forall i :: 0 <= i < |steamids| ==> ListedNames(replyOf, steamids[i]) == [])
    ensures outcome.Ok? && outcome.value.Some? ==> var rows := UserRows(steamids, replyOf, HoursCollect);
      outcome.value.value == Export(FrameOf(rows, KeptColumns(rows)), |steamids|)
  {
    var owned := FetchOwned(steamids, replyOf);
    if owned.Err? {
      return Err(owned.error);
    }
    var o := owned.value;
    var rows := CollectRows(steamids, o.userGames);
    assert rows == UserRows(steamids, replyOf, HoursCollect);
    NoGamesNoNeed(steamids, replyOf, o.needed);
    if rows == [] || |o.needed| == 0 {
      return Ok(None);
    }
    return Ok(Some(Export(FrameOf(rows, KeptColumns(rows)), |steamids|)));
  }

  /** `needed` is empty exactly when no listing names a game. */
  lemma NoGamesNoNeed(steamids: seq<SteamId>, replyOf: SteamId -> Response<seq<OwnedGame>>, needed: set<GameKey>)
    requires forall k :: k in needed <==> NeededAmong(steamids, replyOf, |steamids|, k)
    ensures |needed| == 0 <==> forall i :: 0 <= i < |steamids| ==> ListedNames(replyOf, steamids[i]) == []
  {
    if exists i :: 0 <= i < |steamids| && ListedNames(replyOf, steamids[i]) != [] {
      var i :| 0 <= i < |steamids| && ListedNames(replyOf, steamids[i]) != [];
      assert ListedNames(replyOf, steamids[i])[0] in needed;
    }
    if |needed| != 0 {
      var k :| k in needed;
      assert NeededAmong(steamids, replyOf, |steamids|, k);
    }
  }

  /** The single-game sampler's table: an error when a listing raises; else one row per
      distinct id (in sample order when the ids are distinct), every game column kept. */
  method OtherTable(steamids: seq<SteamId>, replyOf: SteamId -> Response<seq<OwnedGame>>)
    returns (outcome: Result<Export>)
    ensures outcome.Err? <==> exists i :: 0 <= i < |steamids| && GamesOf(replyOf, steamids[i]).Err?
    ensures outcome.Ok? ==> var f := outcome.value.frame;
      && outcome.value.sampleSize == |steamids|
      && Distinct(f.steamids)
      && (forall sid :: sid in f.steamids <==> sid in steamids)
      && (Distinct(steamids) ==> f == MatrixOther(UserRows(steamids, replyOf, HoursOther)))
  {
    var owned := FetchOwned(steamids, replyOf);
    if owned.Err? {
      return Err(owned.error);
    }
    var o := owned.value;
    var rows := OtherRows(o.userGames);
    var f := MatrixOther(rows);
    OtherRowsIds(o.userGames, rows);
    KeysPresent(o.userGames, steamids);
    if Distinct(steamids) {
      EntriesListed(replyOf, o.userGames);
      OtherRowsInOrder(steamids, replyOf, o.userGames, rows);
    }
    return Ok(Export(f, |steamids|));
  }

  /** The table's ids are the listings' keys, in order. */
  lemma OtherRowsIds(userGames: Assoc<SteamId, seq<OwnedGame>>, rows: seq<Row>)
    requires |rows| == |userGames|
    requires forall i :: 0 <= i < |userGames| ==> rows[i].steamid == userGames[i].0
    ensures MatrixOther(rows).steamids == Keys(userGames)
  {
  }

  /** Each entry of the listings holds what its own id's listing gave. */
  lemma EntriesListed(replyOf: SteamId -> Response<seq<OwnedGame>>, userGames: Assoc<SteamId, seq<OwnedGame>>)
    requires DistinctKeys(userGames)
    requires forall sid :: Lookup(userGames, sid).Some? ==> GamesOf(replyOf, sid) == Ok(Lookup(userGames, sid).value)
    ensures forall i :: 0 <= i < |userGames| ==> GamesOf(replyOf, userGames[i].0) == Ok(userGames[i].1)
  {
    forall i | 0 <= i < |userGames| ensures GamesOf(replyOf, userGames[i].0) == Ok(userGames[i].1) {
      LookupAt(userGames, i);
    }
  }

  /** With distinct ids the rows follow the sample, each from the id's own listing. */
  lemma OtherRowsInOrder(steamids: seq<SteamId>, replyOf: SteamId -> Response<seq<OwnedGame>>,
                         userGames: Assoc<SteamId, seq<OwnedGame>>, rows: seq<Row>)
    requires Keys(userGames) == steamids
    requires forall i :: 0 <= i < |userGames| ==> GamesOf(replyOf, userGames[i].0) == Ok(userGames[i].1)
    requires |rows| == |userGames|
    requires forall i :: 0 <= i < |userGames| ==> rows[i] == Row(userGames[i].0, HoursOf(userGames[i].1, HoursOther))
    ensures rows == UserRows(steamids, replyOf, HoursOther)
  {
  }
}
