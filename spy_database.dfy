/** The full SteamSpy database: the summary of every game, keyed by app id, enriched with the
    per-game details from a cache that is completed by fetching only what is missing. */
module SpyDatabase {
  import opened Common
  import opened Text
  import opened Json

  type Row = Assoc<string, Json>

  const AppidColumn: string := "appid"
  const DetailAttempts: int := 3
  const DetailOk: int := 200
  const LanguageSeparator: string := ", "

  // ---------------------------------------------------------------- summary rows

  /** `int(s)`: an optional sign followed by decimal digits. */
  function ParseInt(s: string): (r: Option<int>)
    ensures r.Some? ==> |s| > 0
    ensures r.Some? && r.value < 0 ==> s[0] == '-'
  {
    if |s| > 0 && (s[0] == '-' || s[0] == '+') && IsDigits(s[1..]) then
      var m: int := ParseDigits(s[1..]);
      Some(if s[0] == '-' then -m else m)
    else if IsDigits(s) then Some(ParseDigits(s))
    else None
  }

  /** `int(str(n)) == n`. */
  lemma ParseShowInt(n: int)
    ensures ParseInt(ShowInt(n)) == Some(n)
  {
    if n < 0 {
      assert ShowInt(n)[1..] == ShowNat(-n);
      ParseShowNat(-n);
    } else {
      ParseShowNat(n);
      assert ShowInt(n)[0] != '-' && ShowInt(n)[0] != '+' by {
        assert IsDigit(ShowNat(n)[0]);
      }
    }
  }

  /** One summary row and the id it was stored under. */
  datatype Summary = Summary(appid: int, row: Row)

  /** `row = data.copy(); row['appid'] = int(appid)`: only an object can be copied and then
      given a string key (a list copies but refuses the key, after `int` has been tried). */
  function SummaryRow(key: string, data: Json): Result<Summary> {
    match data
    case JObj(o) =>
      (match ParseInt(key)
       case None => Err(NotAnInteger)
       case Some(n) => Ok(Summary(n, Put(o, AppidColumn, JNum(n as real)))))
    case JArr(_) => if ParseInt(key).None? then Err(NotAnInteger) else Err(WrongType)
    case _ => Err(WrongType)
  }

  /** A row is made exactly from an object under an integer key; it is the object with `appid`
      set to the key's value, and every other column as it was. */
  lemma SummaryRowSpec(key: string, data: Json)
    ensures var r := SummaryRow(key, data);
      && (r.Ok? <==> data.JObj? && ParseInt(key).Some?)
      && (r.Err? && data.JObj? ==> r.error == NotAnInteger)
      && (r.Ok? ==> r.value.appid == ParseInt(key).value)
      && (r.Ok? ==> Lookup(r.value.row, AppidColumn) == Some(JNum(r.value.appid as real)))
      && (r.Ok? ==> forall c :: c != AppidColumn ==> Lookup(r.value.row, c) == Lookup(data.fields, c))
  {
    if data.JObj? && ParseInt(key).Some? {
      PutLookup(data.fields, AppidColumn, JNum(ParseInt(key).value as real));
    }
  }

  /** The rows for the entries of the summary, in order; the first entry that fails stops it. */
  function SummaryRows(entries: Assoc<string, Json>): (r: Result<seq<Summary>>)
    ensures r.Ok? <==> forall i :: 0 <= i < |entries| ==> SummaryRow(entries[i].0, entries[i].1).Ok?
    ensures r.Ok? ==> |r.value| == |entries|
    ensures r.Ok? ==> forall i :: 0 <= i < |entries| ==>
      r.value[i] == SummaryRow(entries[i].0, entries[i].1).value
  {
    if entries == [] then Ok([])
    else
      match SummaryRow(entries[0].0, entries[0].1)
      case Err(e) => Err(e)
      case Ok(row) =>
        match SummaryRows(entries[1..])
        case Err(e) => Err(e)
        case Ok(rest) => Ok([row] + rest)
  }

  /** The error of a failing summary is the error of its first failing entry. */
  lemma {:induction false} SummaryRowsError(entries: Assoc<string, Json>, i: nat)
    requires i < |entries| && SummaryRow(entries[i].0, entries[i].1).Err?
    requires forall j :: 0 <= j < i ==> SummaryRow(entries[j].0, entries[j].1).Ok?
    ensures SummaryRows(entries) == Err(SummaryRow(entries[i].0, entries[i].1).error)
  {
    if i > 0 {
      SummaryRowsError(entries[1..], i - 1);
    }
  }

  /** The summary download: `raise_for_status`, `resp.json()`, then `.items()`, which only an
      object has. */
  function SummaryTable(reply: Reply): Result<seq<Summary>> {
    match reply
    case NoReply => Err(RequestFailed)
    case Reply(status, body) =>
      if !IsOk(status) then Err(HttpError(status))
      else if body.None? then Err(RequestFailed)
      else if !body.value.JObj? then Err(WrongType)
      else SummaryRows(body.value.fields)
  }

  /** The loop building `rows` from `all_games.items()`. */
  method BuildRows(reply: Reply) returns (outcome: Result<seq<Summary>>)
    ensures outcome == SummaryTable(reply)
  {
    if reply.NoReply? {
      return Err(RequestFailed);
    }
    if !IsOk(reply.status) {
      return Err(HttpError(reply.status));
    }
    if reply.body.None? {
      return Err(RequestFailed);
    }
    if !reply.body.value.JObj? {
      return Err(WrongType);
    }
    outcome := RowsOf(reply.body.value.fields);
  }

  /** The `for appid, data in all_games.items()` loop itself. */
  method RowsOf(entries: Assoc<string, Json>) returns (outcome: Result<seq<Summary>>)
    ensures outcome == SummaryRows(entries)
  {
    var rows: seq<Summary> := [];
    var i := 0;
    while i < |entries|
      invariant 0 <= i <= |entries|
      invariant forall j :: 0 <= j < i ==> SummaryRow(entries[j].0, entries[j].1).Ok?
      invariant |rows| == i
      invariant forall j :: 0 <= j < i ==> rows[j] == SummaryRow(entries[j].0, entries[j].1).value
    {
      var row := SummaryRow(entries[i].0, entries[i].1);
      if row.Err? {
        SummaryRowsError(entries, i);
        return Err(row.error);
      }
      rows := rows + [row.value];
      i := i + 1;
    }
    assert SummaryRows(entries).Ok?;
    assert rows == SummaryRows(entries).value;
    return Ok(rows);
  }

  /** `df['appid']`: the ids in row order; a frame built from no rows has no such column. */
  function AppidsOf(rows: seq<Summary>): (r: Result<seq<int>>)
    ensures r.Ok? <==> rows != []
    ensures r.Ok? ==> |r.value| == |rows| && forall i :: 0 <= i < |rows| ==> r.value[i] == rows[i].appid
  {
    if rows == [] then Err(MissingKey) else Ok(seq(|rows|, i requires 0 <= i < |rows| => rows[i].appid))
  }

  // ---------------------------------------------------------------- completing the detail cache

  /** `details_needed`: `str(appid)` of every id in table order whose key is not cached. */
  function DetailsNeeded(appids: seq<int>, cache: Assoc<string, Json>): (r: seq<string>)
    ensures forall k :: k in r <==> k in IdKeys(appids) && Lookup(cache, k).None?
  {
    Filter(IdKeys(appids), k => Lookup(cache, k).None?)
  }

  /** The list follows the table: the ids of two consecutive parts give their lists one after
      the other. */
  lemma DetailsNeededAppend(a: seq<int>, b: seq<int>, cache: Assoc<string, Json>)
    ensures DetailsNeeded(a + b, cache) == DetailsNeeded(a, cache) + DetailsNeeded(b, cache)
  {
    assert IdKeys(a + b) == IdKeys(a) + IdKeys(b);
    FilterAppend(IdKeys(a), IdKeys(b), k => Lookup(cache, k).None?);
  }

  /** An attempt that stores its reply: status exactly 200 and a JSON body. */
  predicate Stored(reply: Reply) {
    reply.Reply? && reply.status == DetailOk && reply.body.Some?
  }

  /** The attempt the loop stops at, counting from attempt `k`: the first that stores, or
      `DetailAttempts` when none does. */
  function FirstStored(replyAt: nat -> Reply, k: nat): nat
    decreases DetailAttempts - k
  {
    if k >= DetailAttempts || Stored(replyAt(k)) then k else FirstStored(replyAt, k + 1)
  }

  lemma {:induction false} FirstStoredSpec(replyAt: nat -> Reply, k: nat)
    ensures var n := FirstStored(replyAt, k);
      && k <= n <= Max(k, DetailAttempts)
      && (forall j :: k <= j < n ==> !Stored(replyAt(j)))
      && (n < DetailAttempts ==> Stored(replyAt(n)))
    decreases DetailAttempts - k
  {
    if k < DetailAttempts && !Stored(replyAt(k)) {
      FirstStoredSpec(replyAt, k + 1);
    }
  }

  /** What the cache gets for a game: the body of the first stored attempt, or `{}`. */
  function Detail(replyAt: nat -> Reply): Json {
    var n := FirstStored(replyAt, 0);
    if n < DetailAttempts then replyAt(n).body.value else EmptyObject
  }

  /** Three failed attempts store `{}`; otherwise the first of them that succeeds is stored. */
  lemma DetailSpec(replyAt: nat -> Reply)
    ensures (forall j :: 0 <= j < DetailAttempts ==> !Stored(replyAt(j))) ==> Detail(replyAt) == EmptyObject
    ensures forall n :: (0 <= n < DetailAttempts && Stored(replyAt(n)) &&
      (forall j :: 0 <= j < n ==> !Stored(replyAt(j)))) ==> Detail(replyAt) == replyAt(n).body.value
  {
    FirstStoredSpec(replyAt, 0);
  }

  /** Only the first three replies matter: no fourth request is made. */
  lemma DetailFirstThree(replyAt: nat -> Reply, other: nat -> Reply)
    requires forall j :: 0 <= j < DetailAttempts ==> replyAt(j) == other(j)
    ensures Detail(replyAt) == Detail(other)
  {
    FirstStoredFirstThree(replyAt, other, 0);
  }

  lemma {:induction false} FirstStoredFirstThree(replyAt: nat -> Reply, other: nat -> Reply, k: nat)
    requires forall j :: 0 <= j < DetailAttempts ==> replyAt(j) == other(j)
    ensures FirstStored(replyAt, k) == FirstStored(other, k)
    decreases DetailAttempts - k
  {
    if k < DetailAttempts {
      FirstStoredFirstThree(replyAt, other, k + 1);
    }
  }

  /** The `for attempt in range(3)` loop with its `else`: returns what is stored and how many
      requests were made. */
  method FetchDetail(replyAt: nat -> Reply) returns (detail: Json, calls: nat)
    ensures detail == Detail(replyAt)
    ensures calls == Min(FirstStored(replyAt, 0) + 1, DetailAttempts)
    ensures 1 <= calls <= DetailAttempts
  {
    FirstStoredSpec(replyAt, 0);
    calls := 0;
    while calls < DetailAttempts
      invariant 0 <= calls <= DetailAttempts
      invariant FirstStored(replyAt, calls) == FirstStored(replyAt, 0)
    {
      var reply := replyAt(calls);
      calls := calls + 1;
      if reply.Reply? && reply.status == DetailOk && reply.body.Some? {
        return reply.body.value, calls;
      }
    }
    detail := EmptyObject;
  }

  /** The cache after storing the fetched details of `needed`, one after the other. */
  function StoreAll(cache: Assoc<string, Json>, needed: seq<string>, replies: string -> (nat -> Reply))
    : Assoc<string, Json>
  {
    if needed == [] then cache
    else
      var k := needed[|needed| - 1];
      Put(StoreAll(cache, needed[..|needed| - 1], replies), k, Detail(replies(k)))
  }

  /** Each listed key reads what its fetch stored; every other key reads what it did. */
  lemma {:induction false} StoreAllLookup(cache: Assoc<string, Json>, needed: seq<string>,
    replies: string -> (nat -> Reply), k: string)
    ensures Lookup(StoreAll(cache, needed, replies), k) ==
      if k in needed then Some(Detail(replies(k))) else Lookup(cache, k)
  {
    if needed != [] {
      var init := needed[..|needed| - 1];
      var last := needed[|needed| - 1];
      assert needed == init + [last];
      StoreAllLookup(cache, init, replies, k);
      PutLookup(StoreAll(cache, init, replies), last, Detail(replies(last)));
    }
  }

  /** Storing keeps the keys distinct. */
  lemma {:induction false} StoreAllDistinct(cache: Assoc<string, Json>, needed: seq<string>,
    replies: string -> (nat -> Reply))
    requires DistinctKeys(cache)
    ensures DistinctKeys(StoreAll(cache, needed, replies))
  {
    if needed != [] {
      var init := needed[..|needed| - 1];
      var last := needed[|needed| - 1];
      StoreAllDistinct(cache, init, replies);
      PutDistinct(StoreAll(cache, init, replies), last, Detail(replies(last)));
    }
  }

  /** Distinct keys not cached yet are added after the cached ones, in list order. */
  lemma {:induction false} StoreAllKeys(cache: Assoc<string, Json>, needed: seq<string>,
    replies: string -> (nat -> Reply))
    requires Distinct(needed)
    requires forall k :: k in needed ==> Lookup(cache, k).None?
    ensures Keys(StoreAll(cache, needed, replies)) == Keys(cache) + needed
  {
    if needed != [] {
      var init := needed[..|needed| - 1];
      var last := needed[|needed| - 1];
      var prev := StoreAll(cache, init, replies);
      DistinctInit(needed);
      assert Keys(prev) == Keys(cache) + init by {
        assert forall k :: k in init ==> k in needed;
        StoreAllKeys(cache, init, replies);
      }
      assert Lookup(prev, last).None? by {
        StoreAllLookup(cache, init, replies, last);
      }
      PutAfter(cache, prev, init, last, Detail(replies(last)));
      InitLast(needed);
    }
  }

  /** The loop over `details_needed`, storing each fetched detail under its key. */
  method FetchDetails(needed: seq<string>, cache: Assoc<string, Json>, replies: string -> (nat -> Reply))
    returns (updated: Assoc<string, Json>)
    ensures updated == StoreAll(cache, needed, replies)
  {
    updated := cache;
    var i := 0;
    while i < |needed|
      invariant 0 <= i <= |needed|
      invariant updated == StoreAll(cache, needed[..i], replies)
    {
      var detail, calls := FetchDetail(replies(needed[i]));
      assert needed[..i + 1][..i] == needed[..i];
      updated := Put(updated, needed[i], detail);
      i := i + 1;
    }
    assert needed[..i] == needed;
  }

  /** Completing the cache for the table's ids: afterwards every id of the table has an entry,
      entries already cached are untouched, and only the table's ids are added. */
  method CompleteDetails(appids: seq<int>, cache: Assoc<string, Json>, replies: string -> (nat -> Reply))
    returns (needed: seq<string>, updated: Assoc<string, Json>)
    ensures needed == DetailsNeeded(appids, cache)
    ensures forall a :: a in appids ==> Lookup(updated, ShowInt(a)).Some?
    ensures forall k :: Lookup(cache, k).Some? ==> Lookup(updated, k) == Lookup(cache, k)
    ensures forall k :: k in needed ==> Lookup(updated, k) == Some(Detail(replies(k)))
    ensures forall k :: Lookup(updated, k).Some? ==> Lookup(cache, k).Some? || k in IdKeys(appids)
  {
    needed := DetailsNeeded(appids, cache);
    updated := FetchDetails(needed, cache, replies);
    forall k ensures Lookup(updated, k) == if k in needed then Some(Detail(replies(k))) else Lookup(cache, k) {
      StoreAllLookup(cache, needed, replies, k);
    }
    forall a | a in appids ensures Lookup(updated, ShowInt(a)).Some? {
      var i :| 0 <= i < |appids| && appids[i] == a;
      assert IdKeys(appids)[i] == ShowInt(a);
    }
  }

  // ---------------------------------------------------------------- reading the details

  const TagsKey: string := "tags"
  const LanguagesKey: string := "languages"

  /** The JSON strings of `parts`. */
  function Strings(parts: seq<string>): (r: seq<Json>)
    ensures |r| == |parts| && forall i :: 0 <= i < |parts| ==> r[i] == JStr(parts[i])
  {
    seq(|parts|, i requires 0 <= i < |parts| => JStr(parts[i]))
  }

  /** `get_detail(appid, key)`: the cached details of the game (`{}` when there are none); for
      `tags` the keys of a non-empty tag object, for `languages` the pieces of a non-empty
      language list split on `", "`, for any other key the stored value or `None`. A detail
      entry that is not an object, a non-empty `tags` that is not an object, and a non-empty
      `languages` that is not a string have no such method and raise. */
  function GetDetail(cache: Assoc<string, Json>, appid: int, key: string): (r: Result<Json>)
    ensures Lookup(cache, ShowInt(appid)).None? ==>
      r == Ok(if key == TagsKey || key == LanguagesKey then JArr([]) else JNull)
    ensures r.Err? ==> r.error == WrongType
  {
    var d := Lookup(cache, ShowInt(appid)).GetOr(EmptyObject);
    if !d.JObj? then Err(WrongType)
    else
      var v := Lookup(d.fields, key);
      if key == TagsKey then
        if v.None? || !Truthy(v.value) then Ok(JArr([]))
        else if v.value.JObj? then Ok(JArr(Strings(Keys(v.value.fields))))
        else Err(WrongType)
      else if key == LanguagesKey then
        if v.None? || !Truthy(v.value) then Ok(JArr([]))
        else if v.value.JStr? then Ok(JArr(Strings(Split(v.value.s, LanguageSeparator))))
        else Err(WrongType)
      else Ok(v.GetOr(JNull))
  }

  /** The tags read back are the names of the stored tags, in their order. */
  lemma TagsDetail(cache: Assoc<string, Json>, appid: int, d: Assoc<string, Json>, tags: Assoc<string, Json>)
    requires Lookup(cache, ShowInt(appid)) == Some(JObj(d))
    requires Lookup(d, TagsKey) == Some(JObj(tags))
    ensures var r := GetDetail(cache, appid, TagsKey);
      && r.Ok? && r.value.JArr? && |r.value.items| == |tags|
      && forall i :: 0 <= i < |tags| ==> r.value.items[i] == JStr(tags[i].0)
  {
  }

  /** The languages read back join with `", "` into the stored string. */
  lemma LanguagesDetail(cache: Assoc<string, Json>, appid: int, d: Assoc<string, Json>, s: string)
    requires Lookup(cache, ShowInt(appid)) == Some(JObj(d))
    requires Lookup(d, LanguagesKey) == Some(JStr(s)) && s != ""
    ensures var r := GetDetail(cache, appid, LanguagesKey);
      && r.Ok? && r.value.JArr?
      && (forall i :: 0 <= i < |r.value.items| ==> r.value.items[i].JStr?)
      && Join(seq(|r.value.items|, i requires 0 <= i < |r.value.items| => r.value.items[i].s), LanguageSeparator) == s
  {
    var parts := Split(s, LanguageSeparator);
    var items := Strings(parts);
    assert GetDetail(cache, appid, LanguagesKey) == Ok(JArr(items));
    assert seq(|items|, i requires 0 <= i < |items| => items[i].s) == parts;
    JoinSplit(s, LanguageSeparator);
  }

  /** Any other key reads the stored value, or `None` when it is missing. */
  lemma OtherDetail(cache: Assoc<string, Json>, appid: int, d: Assoc<string, Json>, key: string)
    requires Lookup(cache, ShowInt(appid)) == Some(JObj(d))
    requires key != TagsKey && key != LanguagesKey
    ensures GetDetail(cache, appid, key) == Ok(Lookup(d, key).GetOr(JNull))
  {
  }

  // ---------------------------------------------------------------- the enriched table

  /** The detail columns in the order they are assigned: the extra fields without the four
      handled apart, then `genre`, `tags`, `release_date` and `languages`. */
  const EarlyFields: seq<string> := [
    "developer", "publisher", "score_rank", "positive", "negative", "userscore", "owners",
    "average_forever", "average_2weeks", "median_forever", "median_2weeks", "ccu", "price",
    "initialprice", "discount"]
  const LateFields: seq<string> := ["genre", TagsKey, "release_date", LanguagesKey]

  function FieldOrder(): seq<string> { EarlyFields + LateFields }

  /** Assigns the detail columns `fields` of one row, in order. */
  function PutDetails(row: Row, appid: int, cache: Assoc<string, Json>, fields: seq<string>): (r: Result<Row>)
    ensures r.Err? ==> r.error == WrongType
    decreases |fields|
  {
    if fields == [] then Ok(row)
    else
      match GetDetail(cache, appid, fields[0])
      case Err(e) => Err(e)
      case Ok(v) => PutDetails(Put(row, fields[0], v), appid, cache, fields[1..])
  }

  /** The row is enriched exactly when every column can be read; each assigned column then
      holds what `get_detail` read for it, and every other column is kept. */
  lemma {:induction false} PutDetailsSpec(row: Row, appid: int, cache: Assoc<string, Json>, fields: seq<string>)
    ensures var r := PutDetails(row, appid, cache, fields);
      && (r.Ok? <==> forall f :: f in fields ==> GetDetail(cache, appid, f).Ok?)
      && (r.Ok? ==> forall c ::
            Lookup(r.value, c) == if c in fields then Some(GetDetail(cache, appid, c).value) else Lookup(row, c))
    decreases |fields|
  {
    if fields != [] {
      var f := fields[0];
      if GetDetail(cache, appid, f).Ok? {
        var v := GetDetail(cache, appid, f).value;
        PutLookup(row, f, v);
        PutDetailsSpec(Put(row, f, v), appid, cache, fields[1..]);
        assert forall c :: c in fields <==> c == f || c in fields[1..];
      }
    }
  }

  /** One enriched row: every detail column read from the cache, every other column kept. */
  function EnrichedRow(s: Summary, cache: Assoc<string, Json>): Result<Row> {
    PutDetails(s.row, s.appid, cache, FieldOrder())
  }

  /** The details of a game can be read under `key` unless its entry is not an object, or
      `key` is `tags` and the tags are non-empty but not an object, or `key` is `languages` and
      the languages are non-empty but not a string. */
  predicate Readable(cache: Assoc<string, Json>, appid: int, key: string) {
    var d := Lookup(cache, ShowInt(appid)).GetOr(EmptyObject);
    && d.JObj?
    && (key == TagsKey && Lookup(d.fields, TagsKey).Some? && Truthy(Lookup(d.fields, TagsKey).value) ==>
          Lookup(d.fields, TagsKey).value.JObj?)
    && (key == LanguagesKey && Lookup(d.fields, LanguagesKey).Some? && Truthy(Lookup(d.fields, LanguagesKey).value) ==>
          Lookup(d.fields, LanguagesKey).value.JStr?)
  }

  lemma GetDetailOk(cache: Assoc<string, Json>, appid: int, key: string)
    ensures GetDetail(cache, appid, key).Ok? <==> Readable(cache, appid, key)
  {
  }

  /** A row can be enriched exactly when its detail entry is an object whose non-empty `tags`
      is an object and whose non-empty `languages` is a string. */
  lemma EnrichedRowOk(s: Summary, cache: Assoc<string, Json>)
    ensures EnrichedRow(s, cache).Ok? <==>
      Readable(cache, s.appid, TagsKey) && Readable(cache, s.appid, LanguagesKey)
  {
    var fields := FieldOrder();
    PutDetailsSpec(s.row, s.appid, cache, fields);
    assert TagsKey in fields && LanguagesKey in fields;
    GetDetailOk(cache, s.appid, TagsKey);
    GetDetailOk(cache, s.appid, LanguagesKey);
    if Readable(cache, s.appid, TagsKey) && Readable(cache, s.appid, LanguagesKey) {
      forall f | f in fields ensures GetDetail(cache, s.appid, f).Ok? {
        GetDetailOk(cache, s.appid, f);
      }
    }
  }

  /** The `df[field] = df['appid'].apply(...)` assignments of the columns `fields` over the
      whole table. */
  method EnrichTable(rows: seq<Summary>, cache: Assoc<string, Json>, fields: seq<string>)
    returns (outcome: Result<seq<Row>>)
    ensures outcome.Ok? <==> forall i :: 0 <= i < |rows| ==> PutDetails(rows[i].row, rows[i].appid, cache, fields).Ok?
    ensures outcome.Err? ==> outcome.error == WrongType
    ensures outcome.Ok? ==>
      && |outcome.value| == |rows|
      && forall i :: 0 <= i < |rows| ==> outcome.value[i] == PutDetails(rows[i].row, rows[i].appid, cache, fields).value
  {
    var table: seq<Row> := [];
    var i := 0;
    while i < |rows|
      invariant 0 <= i <= |rows|
      invariant forall j :: 0 <= j < i ==> PutDetails(rows[j].row, rows[j].appid, cache, fields).Ok?
      invariant |table| == i
      invariant forall j :: 0 <= j < i ==> table[j] == PutDetails(rows[j].row, rows[j].appid, cache, fields).value
    {
      var row := PutDetails(rows[i].row, rows[i].appid, cache, fields);
      if row.Err? {
        return Err(WrongType);
      }
      table := table + [row.value];
      i := i + 1;
    }
    return Ok(table);
  }

  /** The completed cache over the table's rows: an id that was not cached holds its fetched
      detail, and every added key is the id of some row. */
  lemma TableDetails(rows: seq<Summary>, appids: seq<int>, cache: Assoc<string, Json>, needed: seq<string>,
                     updated: Assoc<string, Json>, replies: string -> (nat -> Reply))
    requires |appids| == |rows| && forall i :: 0 <= i < |rows| ==> appids[i] == rows[i].appid
    requires needed == DetailsNeeded(appids, cache)
    requires forall k :: k in needed ==> Lookup(updated, k) == Some(Detail(replies(k)))
    requires forall k :: Lookup(updated, k).Some? ==> Lookup(cache, k).Some? || k in IdKeys(appids)
    ensures forall s :: s in rows ==>
      (Lookup(cache, ShowInt(s.appid)).None? ==> Lookup(updated, ShowInt(s.appid)) == Some(Detail(replies(ShowInt(s.appid)))))
    ensures forall k :: Lookup(updated, k).Some? && Lookup(cache, k).None? ==> exists s :: s in rows && k == ShowInt(s.appid)
  {
    forall s | s in rows && Lookup(cache, ShowInt(s.appid)).None?
      ensures Lookup(updated, ShowInt(s.appid)) == Some(Detail(replies(ShowInt(s.appid))))
    {
      var i :| 0 <= i < |rows| && rows[i] == s;
      assert IdKeys(appids)[i] == ShowInt(s.appid);
    }
    forall k | Lookup(updated, k).Some? && Lookup(cache, k).None?
      ensures exists s :: s in rows && k == ShowInt(s.appid)
    {
      var i :| 0 <= i < |appids| && IdKeys(appids)[i] == k;
      assert rows[i] in rows;
    }
  }

  /** The whole script: the summary table, the completed detail cache, and the enriched table.
      A summary that cannot be read leaves the cache as it was; otherwise every id of the table
      ends up cached before the details are read. */
  method UpdateDatabase(summary: Reply, cache: Assoc<string, Json>, replies: string -> (nat -> Reply))
    returns (outcome: Result<seq<Row>>, updated: Assoc<string, Json>)
    ensures SummaryTable(summary).Err? ==> outcome == Err(SummaryTable(summary).error) && updated == cache
    ensures SummaryTable(summary) == Ok([]) ==> outcome == Err(MissingKey) && updated == cache
    ensures SummaryTable(summary).Ok? ==> forall s :: s in SummaryTable(summary).value ==>
      Lookup(updated, ShowInt(s.appid)).Some?
    ensures forall k :: Lookup(cache, k).Some? ==> Lookup(updated, k) == Lookup(cache, k)
    ensures SummaryTable(summary).Ok? ==> forall s :: s in SummaryTable(summary).value ==>
      (Lookup(cache, ShowInt(s.appid)).None? ==> Lookup(updated, ShowInt(s.appid)) == Some(Detail(replies(ShowInt(s.appid)))))
    ensures forall k :: Lookup(updated, k).Some? && Lookup(cache, k).None? ==>
      SummaryTable(summary).Ok? && exists s :: s in SummaryTable(summary).value && k == ShowInt(s.appid)
    ensures SummaryTable(summary).Ok? && SummaryTable(summary).value != [] ==>
      var rows := SummaryTable(summary).value;
      && (outcome.Ok? <==> forall i :: 0 <= i < |rows| ==> EnrichedRow(rows[i], updated).Ok?)
      && (outcome.Ok? ==> |outcome.value| == |rows|)
      && (outcome.Ok? ==> forall i :: 0 <= i < |rows| ==> outcome.value[i] == EnrichedRow(rows[i], updated).value)
  {
    var rows := BuildRows(summary);
    if rows.Err? {
      return Err(rows.error), cache;
    }
    var appids := AppidsOf(rows.value);
    if appids.Err? {
      return Err(appids.error), cache;
    }
    var needed;
    needed, updated := CompleteDetails(appids.value, cache, replies);
    forall s | s in rows.value ensures Lookup(updated, ShowInt(s.appid)).Some? {
      var i :| 0 <= i < |rows.value| && rows.value[i] == s;
      assert appids.value[i] == s.appid;
    }
    TableDetails(rows.value, appids.value, cache, needed, updated, replies);
    outcome := EnrichTable(rows.value, updated, FieldOrder());
  }
}
