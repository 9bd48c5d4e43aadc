/** The review-text crawler: for one game it pages through the review feed, asking for at most
    100 records per page, until the wanted number of records has arrived, and flattens each
    record into one CSV row. */
module ReviewText {
  import opened Common
  import opened SteamTypes
  import opened Text

  /** `REVIEWS_PER_GAME` */
  const ReviewsPerGame: int := 1000

  /** The largest page the crawler asks for. */
  const MaxPageSize: int := 100

  /** One CSV row; every field but the game's id may be missing from the record. */
  datatype TextRow = TextRow(
    appid: int,
    steamid: Option<SteamId>,
    review: Option<string>,
    timestamp: Option<int>,
    votedUp: Option<bool>,
    playtimeForever: Option<int>,
    language: Option<string>,
    reviewId: Option<string>)

  /** The column names, in the order the row dictionary lists its keys. */
  const Columns: seq<string> :=
    ["appid", "steamid", "review", "timestamp", "voted_up", "playtime_forever", "language", "review_id"]

  /** The flattening of one record (`r.get("author", {}).get(...)` for the author fields). */
  function RowOf(appid: int, r: Review): TextRow {
    TextRow(appid, AuthorId(r), r.text, r.timestampCreated, r.votedUp,
            if r.author.Some? then r.author.value.playtimeForever else None,
            r.language, r.recommendationId)
  }

  /** The rows of one page, in order. */
  function RowsOf(appid: int, batch: seq<Review>): (rows: seq<TextRow>)
    ensures |rows| == |batch|
  {
    if batch == [] then [] else [RowOf(appid, batch[0])] + RowsOf(appid, batch[1..])
  }

  /** Each record of a page gives the row at its own position. */
  lemma {:induction false} RowsOfSpec(appid: int, batch: seq<Review>)
    ensures forall i :: 0 <= i < |batch| ==> RowsOf(appid, batch)[i] == RowOf(appid, batch[i])
  {
    if batch != [] {
      RowsOfSpec(appid, batch[1..]);
    }
  }

  /** The `cursor` and `num_per_page` parameters of one request. */
  datatype TextRequest = TextRequest(cursor: string, pageSize: int)

  /** A finished crawl: the rows, the `total_fetched` counter and the requests made. */
  datatype Crawl = Crawl(rows: seq<TextRow>, total: int, requests: seq<TextRequest>)

  /** The `while total_fetched < REVIEWS_PER_GAME` loop from its `|requests|`-th request on:
      an exception or an empty page leaves the loop, a page adds its rows and its length to
      the counter and moves the cursor. */
  function CrawlFrom(appid: int, replies: seq<PageReply>, maxReviews: int, cursor: string,
                     total: int, rows: seq<TextRow>, requests: seq<TextRequest>): Crawl
    decreases |replies| - |requests|
  {
    if total >= maxReviews then Crawl(rows, total, requests)
    else
      var reply := ReplyAt(replies, |requests|);
      var sent := requests + [TextRequest(cursor, Min(MaxPageSize, maxReviews - total))];
      if Raises(reply) || reply.page.reviews == [] then Crawl(rows, total, sent)
      else
        assert |requests| < |replies|;
        var batch := reply.page.reviews;
        CrawlFrom(appid, replies, maxReviews, reply.page.cursor.GetOr(cursor), total + |batch|,
                  rows + RowsOf(appid, batch), sent)
  }

  function CrawlGame(appid: int, replies: seq<PageReply>, maxReviews: int): Crawl {
    CrawlFrom(appid, replies, maxReviews, "*", 0, [], [])
  }

  /** What the `k`-th reply contributes: the rows of its page, nothing when it raised. */
  function PageRows(appid: int, reply: PageReply): seq<TextRow> {
    if Raises(reply) then [] else RowsOf(appid, reply.page.reviews)
  }

  /** The rows contributed by replies `lo .. hi - 1`, in order. */
  function RowsRange(appid: int, replies: seq<PageReply>, lo: nat, hi: nat): seq<TextRow>
    decreases hi - lo
  {
    if hi <= lo then [] else PageRows(appid, ReplyAt(replies, lo)) + RowsRange(appid, replies, lo + 1, hi)
  }

  /** A reply the crawl goes on after: served with a non-empty page. */
  predicate Continues(reply: PageReply) {
    !Raises(reply) && reply.page.reviews != []
  }

  /** The rows are those of the pages served since, and the counter keeps counting them. */
  lemma {:induction false} CrawlFromRows(appid: int, replies: seq<PageReply>, maxReviews: int, cursor: string,
                                         total: int, rows: seq<TextRow>, requests: seq<TextRequest>)
    requires total == |rows|
    ensures var c := CrawlFrom(appid, replies, maxReviews, cursor, total, rows, requests);
      && c.total == |c.rows|
      && c.rows == rows + RowsRange(appid, replies, |requests|, |c.requests|)
    decreases |replies| - |requests|
  {
    var c := CrawlFrom(appid, replies, maxReviews, cursor, total, rows, requests);
    var n := |requests|;
    if total >= maxReviews {
      assert rows + [] == rows;
    } else {
      var reply := ReplyAt(replies, n);
      var sent := requests + [TextRequest(cursor, Min(MaxPageSize, maxReviews - total))];
      CrawlFromStep(appid, replies, maxReviews, cursor, total, rows, requests);
      if !Continues(reply) {
        assert c == Crawl(rows, total, sent);
        assert RowsRange(appid, replies, n, n + 1) == [] by {
          assert PageRows(appid, reply) == [];
        }
        assert rows + [] == rows;
      } else {
        var batch := reply.page.reviews;
        var page := RowsOf(appid, batch);
        var next := reply.page.cursor.GetOr(cursor);
        var d := CrawlFrom(appid, replies, maxReviews, next, total + |batch|, rows + page, sent);
        assert c == d;
        assert |sent| == n + 1;
        CrawlFromPrefix(appid, replies, maxReviews, next, total + |batch|, rows + page, sent);
        CrawlFromRows(appid, replies, maxReviews, next, total + |batch|, rows + page, sent);
        var later := RowsRange(appid, replies, n + 1, |d.requests|);
        assert d.rows == (rows + page) + later;
        RowsRangeFirst(appid, replies, n, |c.requests|);
        assert RowsRange(appid, replies, n, |c.requests|) == page + later;
        assert (rows + page) + later == rows + (page + later);
      }
    }
  }

  /** The rows of a range of replies start with those of its first reply. */
  lemma RowsRangeFirst(appid: int, replies: seq<PageReply>, lo: nat, hi: nat)
    requires lo < hi
    ensures RowsRange(appid, replies, lo, hi) == PageRows(appid, ReplyAt(replies, lo)) + RowsRange(appid, replies, lo + 1, hi)
  {
  }

  /** The requests made so far stay; one more is made exactly when the counter is below the
      target, and it sends the cursor in hand and asks for at most what is still wanted. */
  lemma {:induction false} CrawlFromPrefix(appid: int, replies: seq<PageReply>, maxReviews: int, cursor: string,
                                           total: int, rows: seq<TextRow>, requests: seq<TextRequest>)
    ensures var c := CrawlFrom(appid, replies, maxReviews, cursor, total, rows, requests);
      && requests <= c.requests
      && (|requests| < |c.requests| <==> total < maxReviews)
      && (total < maxReviews ==> c.requests[|requests|] == TextRequest(cursor, Min(MaxPageSize, maxReviews - total)))
    decreases |replies| - |requests|
  {
    if total < maxReviews {
      var n := |requests|;
      var reply := ReplyAt(replies, n);
      var sent := requests + [TextRequest(cursor, Min(MaxPageSize, maxReviews - total))];
      if Continues(reply) {
        assert n < |replies|;
        var batch := reply.page.reviews;
        var next := reply.page.cursor.GetOr(cursor);
        CrawlFromPrefix(appid, replies, maxReviews, next, total + |batch|, rows + RowsOf(appid, batch), sent);
        assert sent[n] == TextRequest(cursor, Min(MaxPageSize, maxReviews - total));
      }
    }
  }

  /** Every request from the `|requests|`-th on asks for 1 to 100 records. */
  lemma {:induction false} CrawlFromSize(appid: int, replies: seq<PageReply>, maxReviews: int, cursor: string,
                                         total: int, rows: seq<TextRow>, requests: seq<TextRequest>, k: int)
    requires |requests| <= k < |CrawlFrom(appid, replies, maxReviews, cursor, total, rows, requests).requests|
    ensures 1 <= CrawlFrom(appid, replies, maxReviews, cursor, total, rows, requests).requests[k].pageSize <= MaxPageSize
    decreases |replies| - |requests|
  {
    var n := |requests|;
    var c := CrawlFrom(appid, replies, maxReviews, cursor, total, rows, requests);
    assert total < maxReviews && c.requests[n] == TextRequest(cursor, Min(MaxPageSize, maxReviews - total)) by {
      CrawlFromPrefix(appid, replies, maxReviews, cursor, total, rows, requests);
    }
    if k > n {
      var reply := ReplyAt(replies, n);
      var sent := requests + [TextRequest(cursor, Min(MaxPageSize, maxReviews - total))];
      var batch := reply.page.reviews;
      var next := reply.page.cursor.GetOr(cursor);
      assert Continues(reply) && n < |replies| && c == CrawlFrom(appid, replies, maxReviews, next, total + |batch|,
                                                                  rows + RowsOf(appid, batch), sent) by {
        CrawlFromStep(appid, replies, maxReviews, cursor, total, rows, requests);
      }
      CrawlFromSize(appid, replies, maxReviews, next, total + |batch|, rows + RowsOf(appid, batch), sent, k);
    }
  }

  /** Every request after the `|requests|`-th follows a served, non-empty page and sends that
      page's cursor, or the one before when the page has none. */
  lemma {:induction false} CrawlFromCursor(appid: int, replies: seq<PageReply>, maxReviews: int, cursor: string,
                                           total: int, rows: seq<TextRow>, requests: seq<TextRequest>, k: int)
    requires |requests| <= k < |CrawlFrom(appid, replies, maxReviews, cursor, total, rows, requests).requests| - 1
    ensures var c := CrawlFrom(appid, replies, maxReviews, cursor, total, rows, requests);
      && Continues(ReplyAt(replies, k))
      && c.requests[k + 1].cursor == ReplyAt(replies, k).page.cursor.GetOr(c.requests[k].cursor)
    decreases |replies| - |requests|
  {
    var n := |requests|;
    var c := CrawlFrom(appid, replies, maxReviews, cursor, total, rows, requests);
    assert total < maxReviews && c.requests[n].cursor == cursor by {
      CrawlFromPrefix(appid, replies, maxReviews, cursor, total, rows, requests);
    }
    var reply := ReplyAt(replies, n);
    var sent := requests + [TextRequest(cursor, Min(MaxPageSize, maxReviews - total))];
    var batch := reply.page.reviews;
    var next := reply.page.cursor.GetOr(cursor);
    assert Continues(reply) && n < |replies| && c == CrawlFrom(appid, replies, maxReviews, next, total + |batch|,
                                                                rows + RowsOf(appid, batch), sent) by {
      CrawlFromStep(appid, replies, maxReviews, cursor, total, rows, requests);
    }
    if k == n {
      assert c.requests[n + 1].cursor == next by {
        CrawlFromPrefix(appid, replies, maxReviews, next, total + |batch|, rows + RowsOf(appid, batch), sent);
      }
    } else {
      CrawlFromCursor(appid, replies, maxReviews, next, total + |batch|, rows + RowsOf(appid, batch), sent, k);
    }
  }

  /** The loop ends with the counter at the target, or after a request that raised or
      brought an empty page. */
  lemma {:induction false} CrawlFromEnd(appid: int, replies: seq<PageReply>, maxReviews: int, cursor: string,
                                        total: int, rows: seq<TextRow>, requests: seq<TextRequest>)
    ensures var c := CrawlFrom(appid, replies, maxReviews, cursor, total, rows, requests);
      c.total >= maxReviews || (|requests| < |c.requests| && !Continues(ReplyAt(replies, |c.requests| - 1)))
    decreases |replies| - |requests|
  {
    if total < maxReviews {
      var n := |requests|;
      var reply := ReplyAt(replies, n);
      var sent := requests + [TextRequest(cursor, Min(MaxPageSize, maxReviews - total))];
      if !Raises(reply) && reply.page.reviews != [] {
        assert n < |replies|;
        var batch := reply.page.reviews;
        var next := reply.page.cursor.GetOr(cursor);
        CrawlFromEnd(appid, replies, maxReviews, next, total + |batch|, rows + RowsOf(appid, batch), sent);
      }
    }
  }

  /** The crawl of one game: it starts from cursor `"*"`; every request asks for 1 to 100
      records; each request after the first sends the cursor of the page before it, which was
      served and non-empty; the rows are the flattened records of every page, in order, and
      their count is the counter; the crawl ends with the counter at the target, or after a
      request that raised or brought an empty page. */
  lemma CrawlGameSpec(appid: int, replies: seq<PageReply>, maxReviews: int)
    ensures var c := CrawlGame(appid, replies, maxReviews);
      && c.total == |c.rows|
      && c.rows == RowsRange(appid, replies, 0, |c.requests|)
      && (maxReviews > 0 <==> |c.requests| > 0)
      && (|c.requests| > 0 ==> c.requests[0] == TextRequest("*", Min(MaxPageSize, maxReviews)))
      && (forall k :: 0 <= k < |c.requests| ==> 1 <= c.requests[k].pageSize <= MaxPageSize)
      && (forall k :: 0 <= k < |c.requests| - 1 ==>
            && Continues(ReplyAt(replies, k))
            && c.requests[k + 1].cursor == ReplyAt(replies, k).page.cursor.GetOr(c.requests[k].cursor))
      && (c.total >= maxReviews || !Continues(ReplyAt(replies, |c.requests| - 1)))
  {
    var c := CrawlGame(appid, replies, maxReviews);
    assert c.total == |c.rows| && c.rows == RowsRange(appid, replies, 0, |c.requests|) by {
      CrawlFromRows(appid, replies, maxReviews, "*", 0, [], []);
      assert [] + RowsRange(appid, replies, 0, |c.requests|) == RowsRange(appid, replies, 0, |c.requests|);
    }
    assert && (maxReviews > 0 <==> |c.requests| > 0)
           && (|c.requests| > 0 ==> c.requests[0] == TextRequest("*", Min(MaxPageSize, maxReviews))) by {
      CrawlFromPrefix(appid, replies, maxReviews, "*", 0, [], []);
    }
    forall k | 0 <= k < |c.requests| ensures 1 <= c.requests[k].pageSize <= MaxPageSize {
      CrawlFromSize(appid, replies, maxReviews, "*", 0, [], [], k);
    }
    forall k | 0 <= k < |c.requests| - 1
      ensures Continues(ReplyAt(replies, k))
      ensures c.requests[k + 1].cursor == ReplyAt(replies, k).page.cursor.GetOr(c.requests[k].cursor)
    {
      CrawlFromCursor(appid, replies, maxReviews, "*", 0, [], [], k);
    }
    assert c.total >= maxReviews || !Continues(ReplyAt(replies, |c.requests| - 1)) by {
      CrawlFromEnd(appid, replies, maxReviews, "*", 0, [], []);
    }
  }

  /** The crawl of one game, as its loop runs. */
  method FetchReviewsText(appid: int, replies: seq<PageReply>, maxReviews: int)
    returns (rows: seq<TextRow>, requests: seq<TextRequest>)
    ensures var c := CrawlGame(appid, replies, maxReviews); rows == c.rows && requests == c.requests
  {
    rows, requests := [], [];
    var cursor := "*";
    var total := 0;
    while total < maxReviews
      invariant CrawlFrom(appid, replies, maxReviews, cursor, total, rows, requests) == CrawlGame(appid, replies, maxReviews)
      decreases |replies| - |requests|
    {
      var reply := ReplyAt(replies, |requests|);
      CrawlFromStep(appid, replies, maxReviews, cursor, total, rows, requests);
      requests := requests + [TextRequest(cursor, Min(MaxPageSize, maxReviews - total))];
      if Raises(reply) {
        break;
      }
      var batch := reply.page.reviews;
      if batch == [] {
        break;
      }
      rows := AppendRows(appid, rows, batch);
      total := total + |batch|;
      cursor := reply.page.cursor.GetOr(cursor);
    }
  }

  /** One turn of the loop: it stops after a request that raised or brought an empty page,
      and otherwise goes on from the page's cursor with the page's rows added. */
  lemma CrawlFromStep(appid: int, replies: seq<PageReply>, maxReviews: int, cursor: string,
                      total: int, rows: seq<TextRow>, requests: seq<TextRequest>)
    requires total < maxReviews
    ensures var reply := ReplyAt(replies, |requests|);
      var sent := requests + [TextRequest(cursor, Min(MaxPageSize, maxReviews - total))];
      var c := CrawlFrom(appid, replies, maxReviews, cursor, total, rows, requests);
      && (!Continues(reply) ==> c == Crawl(rows, total, sent))
      && (Continues(reply) ==>
            && |requests| < |replies|
            && c == CrawlFrom(appid, replies, maxReviews, reply.page.cursor.GetOr(cursor), total + |reply.page.reviews|,
                              rows + RowsOf(appid, reply.page.reviews), sent))
  {
  }

  /** `rows.append(...)` for each record of a page, in order. */
  method AppendRows(appid: int, rows: seq<TextRow>, batch: seq<Review>) returns (r: seq<TextRow>)
    ensures r == rows + RowsOf(appid, batch)
  {
    r := rows;
    var j := 0;
    while j < |batch|
      invariant 0 <= j <= |batch|
      invariant r == rows + RowsOf(appid, batch[..j])
    {
      assert batch[..j + 1] == batch[..j] + [batch[j]];
      RowsOfAppend(appid, batch[..j], [batch[j]]);
      r := r + [RowOf(appid, batch[j])];
      j := j + 1;
    }
    assert batch[..j] == batch;
  }

  lemma {:induction false} RowsOfAppend(appid: int, s: seq<Review>, t: seq<Review>)
    ensures RowsOf(appid, s + t) == RowsOf(appid, s) + RowsOf(appid, t)
  {
    if s == [] {
      assert s + t == t;
    } else {
      assert (s + t)[0] == s[0] && (s + t)[1..] == s[1..] + t;
      RowsOfAppend(appid, s[1..], t);
    }
  }

  /** A field as `csv.DictWriter` writes it: its text, or `""` for `None`. */
  function Cell<T>(v: Option<T>, show: T -> string): string {
    if v.Some? then show(v.value) else ""
  }

  function ShowBool(b: bool): string { if b then "True" else "False" }

  /** The row dictionary as the writer sees it: each key, in the order the dictionary literal
      lists it, with its cell. */
  function Cells(row: TextRow): (cells: seq<(string, string)>)
    ensures Keys(cells) == Columns
  {
    var cells := [("appid", ShowInt(row.appid)),
                  ("steamid", Cell(row.steamid, (s: string) => s)),
                  ("review", Cell(row.review, (s: string) => s)),
                  ("timestamp", Cell(row.timestamp, ShowInt)),
                  ("voted_up", Cell(row.votedUp, ShowBool)),
                  ("playtime_forever", Cell(row.playtimeForever, ShowInt)),
                  ("language", Cell(row.language, (s: string) => s)),
                  ("review_id", Cell(row.reviewId, (s: string) => s))];
    assert forall i :: 0 <= i < 8 ==> Keys(cells)[i] == Columns[i];
    cells
  }

  /** The CSV header: the keys of the first row, or the same eight names written out when no
      row was fetched; either way every row's keys are exactly the header. */
  function CsvHeader(rows: seq<TextRow>): (h: seq<string>)
    ensures h == ["appid", "steamid", "review", "timestamp", "voted_up", "playtime_forever", "language", "review_id"]
    ensures rows != [] ==> h == Keys(Cells(rows[0]))
    ensures forall r :: r in rows ==> Keys(Cells(r)) == h
  {
    if rows != [] then Keys(Cells(rows[0])) else Columns
  }
}
