/** The windowed walk over the store's review feed (newest first), in its three variants:
    the collector's five-request walk that survives failed requests, and the walks of the
    single-game sampler and the SteamSpy scripts that run until a review quota is met and let
    a failed request raise. All three share the scan of one page. */
module ReviewWalk {
  import opened Common
  import opened SteamTypes

  /** The time filter of a walk; an absent bound filters nothing. */
  datatype Window = Window(lower: Option<int>, upper: Option<int>)

  /** The walk stops for good at the first record created before the lower bound. */
  predicate OlderThan(w: Window, r: Review) {
    w.lower.Some? && Timestamp(r) < w.lower.value
  }

  /** Records created after the upper bound are skipped. */
  predicate NewerThan(w: Window, r: Review) {
    w.upper.Some? && Timestamp(r) > w.upper.value
  }

  predicate InWindow(w: Window, r: Review) {
    !OlderThan(w, r) && !NewerThan(w, r)
  }

  /** `r["country"] = country`, done by the SteamSpy scripts to each record they keep. */
  function Stamp(r: Review, country: Option<string>): Review {
    if country.Some? then r.(country := country) else r
  }

  /** A kept record: in the window, and carrying the country tag when there is one. */
  predicate KeptRecord(w: Window, country: Option<string>, r: Review) {
    InWindow(w, r) && (country.Some? ==> r.country == country)
  }

  predicate HasOlder(w: Window, batch: seq<Review>) {
    exists k :: 0 <= k < |batch| && OlderThan(w, batch[k])
  }

  /** How the scan of one page ended: the records kept so far, and whether a record older
      than the window was met (which ends the whole walk). */
  datatype Scan = Scan(kept: seq<Review>, older: bool)

  /** The `for r in batch` loop: stop at an older record, skip newer ones, keep the rest and
      leave the page once `maxReviews` records are kept. */
  function ScanBatch(batch: seq<Review>, w: Window, country: Option<string>, maxReviews: int,
                     acc: seq<Review>): (r: Scan)
    ensures acc <= r.kept
    ensures |r.kept| <= Max(|acc| + 1, maxReviews)
    ensures |acc| < maxReviews ==> |r.kept| <= maxReviews
    ensures forall k :: |acc| <= k < |r.kept| ==> KeptRecord(w, country, r.kept[k])
    ensures r.older ==> HasOlder(w, batch)
    decreases |batch|
  {
    if batch == [] then Scan(acc, false)
    else if OlderThan(w, batch[0]) then Scan(acc, true)
    else if NewerThan(w, batch[0]) then
      var r := ScanBatch(batch[1..], w, country, maxReviews, acc);
      assert r.older ==> HasOlder(w, batch) by {
        if r.older {
          var k :| 0 <= k < |batch[1..]| && OlderThan(w, batch[1..][k]);
          assert OlderThan(w, batch[k + 1]);
        }
      }
      r
    else
      var acc' := acc + [Stamp(batch[0], country)];
      if |acc'| >= maxReviews then Scan(acc', false)
      else
        var r := ScanBatch(batch[1..], w, country, maxReviews, acc');
        assert r.older ==> HasOlder(w, batch) by {
          if r.older {
            var k :| 0 <= k < |batch[1..]| && OlderThan(w, batch[1..][k]);
            assert OlderThan(w, batch[k + 1]);
          }
        }
        r
  }

  /** Reference for an uncapped page: the records before the first older one that lie in the
      window, tagged. */
  function Kept(batch: seq<Review>, w: Window, country: Option<string>): seq<Review> {
    if batch == [] || OlderThan(w, batch[0]) then []
    else if NewerThan(w, batch[0]) then Kept(batch[1..], w, country)
    else [Stamp(batch[0], country)] + Kept(batch[1..], w, country)
  }

  /** While the quota is not reached, the scan keeps exactly the reference records and reports
      an older record exactly when the page holds one. */
  lemma {:induction false} ScanUncapped(batch: seq<Review>, w: Window, country: Option<string>,
                                        maxReviews: int, acc: seq<Review>)
    requires |ScanBatch(batch, w, country, maxReviews, acc).kept| < maxReviews
    ensures ScanBatch(batch, w, country, maxReviews, acc) == Scan(acc + Kept(batch, w, country), HasOlder(w, batch))
    decreases |batch|
  {
    if batch == [] || OlderThan(w, batch[0]) {
      assert acc + [] == acc;
    } else {
      var acc' := if NewerThan(w, batch[0]) then acc else acc + [Stamp(batch[0], country)];
      assert ScanBatch(batch, w, country, maxReviews, acc) == ScanBatch(batch[1..], w, country, maxReviews, acc') by {
        if !NewerThan(w, batch[0]) && |acc'| >= maxReviews {
          assert false;
        }
      }
      ScanUncapped(batch[1..], w, country, maxReviews, acc');
      assert acc + Kept(batch, w, country) == acc' + Kept(batch[1..], w, country) by {
        if !NewerThan(w, batch[0]) {
          var x := Stamp(batch[0], country);
          assert Kept(batch, w, country) == [x] + Kept(batch[1..], w, country);
          assert acc + ([x] + Kept(batch[1..], w, country)) == (acc + [x]) + Kept(batch[1..], w, country);
        }
      }
      HasOlderTail(w, batch);
    }
  }

  /** A page whose first record is not older holds an older record exactly when the rest of
      it does. */
  lemma HasOlderTail(w: Window, batch: seq<Review>)
    requires batch != [] && !OlderThan(w, batch[0])
    ensures HasOlder(w, batch) == HasOlder(w, batch[1..])
  {
    if HasOlder(w, batch) {
      var k :| 0 <= k < |batch| && OlderThan(w, batch[k]);
      assert k > 0 && OlderThan(w, batch[1..][k - 1]);
    }
    if HasOlder(w, batch[1..]) {
      var k :| 0 <= k < |batch[1..]| && OlderThan(w, batch[1..][k]);
      assert OlderThan(w, batch[k + 1]);
    }
  }

  /** The scan of one page, as the loop of the source runs it. */
  method ScanPage(batch: seq<Review>, w: Window, country: Option<string>, maxReviews: int,
                  acc: seq<Review>) returns (kept: seq<Review>, older: bool)
    ensures Scan(kept, older) == ScanBatch(batch, w, country, maxReviews, acc)
  {
    kept, older := acc, false;
    var j := 0;
    while j < |batch|
      invariant 0 <= j <= |batch|
      invariant ScanBatch(batch[j..], w, country, maxReviews, kept) == ScanBatch(batch, w, country, maxReviews, acc)
    {
      var r := batch[j];
      assert batch[j..][0] == r && batch[j..][1..] == batch[j + 1..];
      if OlderThan(w, r) {
        older := true;
        return;
      }
      if !NewerThan(w, r) {
        kept := kept + [Stamp(r, country)];
        if |kept| >= maxReviews {
          return;
        }
      }
      j := j + 1;
    }
    assert batch[j..] == [];
  }

  // ------------------------------------------------------------ the collector's walk

  /** `for attempt in range(max_retries)` with `max_retries = 5`. */
  const MaxPageRequests: nat := 5

  /** A finished walk: the records kept, and the cursor sent with each request, in order. */
  datatype Walk = Walk(reviews: seq<Review>, cursors: seq<string>)

  /** The cursor after a request: a failed request leaves it, a page replaces it with its own
      (`data.get('cursor', cursor)`). */
  function NextCursor(reply: PageReply, cursor: string): string {
    if Raises(reply) then cursor else reply.page.cursor.GetOr(cursor)
  }

  /** The collector's loop from its `|cursors|`-th request on: a failed request uses up a
      pass and retries the same cursor, an empty page ends the walk, an older record returns
      at once, and the quota only leaves the current page. */
  function CollectFrom(replies: seq<PageReply>, w: Window, maxReviews: int, cursor: string,
                       acc: seq<Review>, cursors: seq<string>): (r: Walk)
    requires |cursors| <= MaxPageRequests
    ensures cursors <= r.cursors && |r.cursors| <= MaxPageRequests
    ensures |cursors| < MaxPageRequests ==> |cursors| < |r.cursors|
    ensures acc <= r.reviews
    ensures |r.reviews| <= Max(|acc|, maxReviews) + |r.cursors| - |cursors|
    ensures forall k :: |acc| <= k < |r.reviews| ==> InWindow(w, r.reviews[k])
    decreases MaxPageRequests - |cursors|
  {
    if |cursors| == MaxPageRequests then Walk(acc, cursors)
    else
      var reply := ReplyAt(replies, |cursors|);
      var sent := cursors + [cursor];
      if Raises(reply) then CollectFrom(replies, w, maxReviews, cursor, acc, sent)
      else if reply.page.reviews == [] then Walk(acc, sent)
      else
        var s := ScanBatch(reply.page.reviews, w, None, maxReviews, acc);
        if s.older then Walk(s.kept, sent)
        else CollectFrom(replies, w, maxReviews, NextCursor(reply, cursor), s.kept, sent)
  }

  /** `get_reviews` of the collector, over the records created in `[startTs, endTs]`. */
  function CollectWalk(replies: seq<PageReply>, startTs: int, endTs: int, maxReviews: int): Walk {
    CollectFrom(replies, Window(Some(startTs), Some(endTs)), maxReviews, "*", [], [])
  }

  /** Every record returned was created inside the window; between one and five requests
      are made; the quota is overshot by at most one record per request, since reaching it
      only leaves the current page. */
  lemma CollectWalkBounds(replies: seq<PageReply>, startTs: int, endTs: int, maxReviews: int)
    ensures var wk := CollectWalk(replies, startTs, endTs, maxReviews);
      && 1 <= |wk.cursors| <= MaxPageRequests
      && |wk.reviews| <= Max(0, maxReviews) + |wk.cursors|
      && forall r :: r in wk.reviews ==> startTs <= Timestamp(r) <= endTs
  {
    var wk := CollectWalk(replies, startTs, endTs, maxReviews);
    forall r | r in wk.reviews ensures startTs <= Timestamp(r) <= endTs {
      var k :| 0 <= k < |wk.reviews| && wk.reviews[k] == r;
      assert InWindow(Window(Some(startTs), Some(endTs)), wk.reviews[k]);
    }
  }

  /** A quota of one is overshot when two pages each hold one record of the window. */
  lemma CollectQuotaOvershoot(a: Review, b: Review)
    requires Timestamp(a) == 10 && Timestamp(b) == 10
    ensures CollectWalk([PageResponse(200, Page([a], Some("c1"))), PageResponse(200, Page([b], Some("c2")))], 0, 20, 1).reviews == [a, b]
  {
    var w := Window(Some(0), Some(20));
    var replies := [PageResponse(200, Page([a], Some("c1"))), PageResponse(200, Page([b], Some("c2")))];
    assert ScanBatch([a], w, None, 1, []) == Scan([a], false);
    assert ScanBatch([b], w, None, 1, [a]) == Scan([a, b], false);
    assert ReplyAt(replies, 2) == ExhaustedFeed;
    assert CollectFrom(replies, w, 1, "c2", [a, b], ["*", "c1"]) == Walk([a, b], ["*", "c1", "c2"]);
    assert CollectFrom(replies, w, 1, "c1", [a], ["*"]) == Walk([a, b], ["*", "c1", "c2"]);
    assert CollectFrom(replies, w, 1, "*", [], []) == Walk([a, b], ["*", "c1", "c2"]);
  }

  /** The cursor protocol from the `|cursors|`-th request on: the first request sends the
      cursor in hand, and each later one sends the cursor left by the previous reply. */
  lemma {:induction false} CollectFromCursors(replies: seq<PageReply>, w: Window, maxReviews: int,
                                              cursor: string, acc: seq<Review>, cursors: seq<string>)
    requires |cursors| < MaxPageRequests
    ensures var wk := CollectFrom(replies, w, maxReviews, cursor, acc, cursors);
      && wk.cursors[|cursors|] == cursor
      && forall k :: |cursors| <= k < |wk.cursors| - 1 ==>
           wk.cursors[k + 1] == NextCursor(ReplyAt(replies, k), wk.cursors[k])
    decreases MaxPageRequests - |cursors|
  {
    var reply := ReplyAt(replies, |cursors|);
    var sent := cursors + [cursor];
    var wk := CollectFrom(replies, w, maxReviews, cursor, acc, cursors);
    if |sent| < MaxPageRequests {
      if Raises(reply) {
        CollectFromCursors(replies, w, maxReviews, cursor, acc, sent);
      } else if reply.page.reviews != [] {
        var s := ScanBatch(reply.page.reviews, w, None, maxReviews, acc);
        if !s.older {
          CollectFromCursors(replies, w, maxReviews, NextCursor(reply, cursor), s.kept, sent);
        }
      }
    }
    assert wk.cursors[|cursors|] == sent[|cursors|];
  }

  /** The first request asks for cursor `"*"`; a failed request is repeated with the same
      cursor; after a page the next request sends the page's cursor (or the old one when the
      page has none). */
  lemma CollectWalkCursors(replies: seq<PageReply>, startTs: int, endTs: int, maxReviews: int)
    ensures var wk := CollectWalk(replies, startTs, endTs, maxReviews);
      && wk.cursors[0] == "*"
      && forall k :: 0 <= k < |wk.cursors| - 1 ==>
           wk.cursors[k + 1] == (if Raises(ReplyAt(replies, k)) then wk.cursors[k]
                                 else ReplyAt(replies, k).page.cursor.GetOr(wk.cursors[k]))
  {
    CollectFromCursors(replies, Window(Some(startTs), Some(endTs)), maxReviews, "*", [], []);
  }

  /** What a reply contributes to an uncapped walk: nothing when it failed, its reference
      records otherwise. */
  function PageKept(reply: PageReply, w: Window, country: Option<string>): seq<Review> {
    if Raises(reply) then [] else Kept(reply.page.reviews, w, country)
  }

  /** The records of replies `lo .. hi - 1` that an uncapped walk keeps, in arrival order. */
  function KeptRange(replies: seq<PageReply>, w: Window, country: Option<string>, lo: nat, hi: nat): seq<Review>
    decreases hi - lo
  {
    if hi <= lo then [] else PageKept(ReplyAt(replies, lo), w, country) + KeptRange(replies, w, country, lo + 1, hi)
  }

  /** A page that lets the walk go on: it failed, or it is non-empty without an older record. */
  predicate PassedOver(reply: PageReply, w: Window) {
    Raises(reply) || (reply.page.reviews != [] && !HasOlder(w, reply.page.reviews))
  }

  /** A page that ends the walk early: served, and empty or holding an older record. */
  predicate EndsWalk(reply: PageReply, w: Window) {
    !Raises(reply) && (reply.page.reviews == [] || HasOlder(w, reply.page.reviews))
  }

  lemma {:induction false} CollectFromUncapped(replies: seq<PageReply>, w: Window, maxReviews: int,
                                               cursor: string, acc: seq<Review>, cursors: seq<string>)
    requires |cursors| <= MaxPageRequests
    requires |CollectFrom(replies, w, maxReviews, cursor, acc, cursors).reviews| < maxReviews
    ensures var wk := CollectFrom(replies, w, maxReviews, cursor, acc, cursors);
      && wk.reviews == acc + KeptRange(replies, w, None, |cursors|, |wk.cursors|)
      && forall k :: |cursors| <= k < |wk.cursors| - 1 ==> PassedOver(ReplyAt(replies, k), w)
    decreases MaxPageRequests - |cursors|
  {
    var wk := CollectFrom(replies, w, maxReviews, cursor, acc, cursors);
    if |cursors| == MaxPageRequests {
      assert acc + [] == acc;
    } else {
      var reply := ReplyAt(replies, |cursors|);
      var sent := cursors + [cursor];
      var n := |cursors|;
      if Raises(reply) {
        CollectFromUncapped(replies, w, maxReviews, cursor, acc, sent);
        assert KeptRange(replies, w, None, n, |wk.cursors|) == KeptRange(replies, w, None, n + 1, |wk.cursors|);
      } else if reply.page.reviews == [] {
        assert KeptRange(replies, w, None, n, n + 1) == [];
      } else {
        var s := ScanBatch(reply.page.reviews, w, None, maxReviews, acc);
        ScanUncapped(reply.page.reviews, w, None, maxReviews, acc);
        if s.older {
          assert KeptRange(replies, w, None, n, n + 1) == Kept(reply.page.reviews, w, None);
        } else {
          CollectFromUncapped(replies, w, maxReviews, NextCursor(reply, cursor), s.kept, sent);
          assert KeptRange(replies, w, None, n, |wk.cursors|) ==
                 Kept(reply.page.reviews, w, None) + KeptRange(replies, w, None, n + 1, |wk.cursors|);
        }
      }
    }
  }

  lemma {:induction false} CollectFromEnd(replies: seq<PageReply>, w: Window, maxReviews: int,
                                          cursor: string, acc: seq<Review>, cursors: seq<string>)
    requires |cursors| <= MaxPageRequests
    ensures var wk := CollectFrom(replies, w, maxReviews, cursor, acc, cursors);
      |wk.cursors| < MaxPageRequests ==> EndsWalk(ReplyAt(replies, |wk.cursors| - 1), w)
    decreases MaxPageRequests - |cursors|
  {
    if |cursors| < MaxPageRequests {
      var reply := ReplyAt(replies, |cursors|);
      var sent := cursors + [cursor];
      if Raises(reply) {
        CollectFromEnd(replies, w, maxReviews, cursor, acc, sent);
      } else if reply.page.reviews != [] {
        var s := ScanBatch(reply.page.reviews, w, None, maxReviews, acc);
        if !s.older {
          CollectFromEnd(replies, w, maxReviews, NextCursor(reply, cursor), s.kept, sent);
        }
      }
    }
  }

  /** The walk stops for good: fewer than five requests means the last page was served and
      was empty or held a record older than the window. Below the quota the result is exactly
      the window's records of each page up to its first older record, page after page, and
      every page but the last failed or was non-empty with no older record. */
  lemma CollectWalkStops(replies: seq<PageReply>, startTs: int, endTs: int, maxReviews: int)
    ensures var w := Window(Some(startTs), Some(endTs));
      var wk := CollectWalk(replies, startTs, endTs, maxReviews);
      && (|wk.cursors| < MaxPageRequests ==> EndsWalk(ReplyAt(replies, |wk.cursors| - 1), w))
      && (|wk.reviews| < maxReviews ==>
            && wk.reviews == KeptRange(replies, w, None, 0, |wk.cursors|)
            && forall k :: 0 <= k < |wk.cursors| - 1 ==> PassedOver(ReplyAt(replies, k), w))
  {
    var w := Window(Some(startTs), Some(endTs));
    CollectFromEnd(replies, w, maxReviews, "*", [], []);
    var wk := CollectWalk(replies, startTs, endTs, maxReviews);
    if |wk.reviews| < maxReviews {
      CollectFromUncapped(replies, w, maxReviews, "*", [], []);
      assert [] + KeptRange(replies, w, None, 0, |wk.cursors|) == KeptRange(replies, w, None, 0, |wk.cursors|);
    }
  }

  /** `get_reviews` of the collector, as its loop runs. */
  method GetReviews(replies: seq<PageReply>, startTs: int, endTs: int, maxReviews: int)
    returns (reviews: seq<Review>, cursors: seq<string>)
    ensures Walk(reviews, cursors) == CollectWalk(replies, startTs, endTs, maxReviews)
  {
    var w := Window(Some(startTs), Some(endTs));
    reviews, cursors := [], [];
    var cursor := "*";
    for attempt := 0 to MaxPageRequests
      invariant attempt == |cursors|
      invariant CollectFrom(replies, w, maxReviews, cursor, reviews, cursors) == CollectWalk(replies, startTs, endTs, maxReviews)
    {
      var reply := ReplyAt(replies, attempt);
      cursors := cursors + [cursor];
      if Raises(reply) {
        continue;
      }
      var batch := reply.page.reviews;
      if batch == [] {
        return;
      }
      var older;
      reviews, older := ScanPage(batch, w, None, maxReviews, reviews);
      if older {
        return;
      }
      cursor := NextCursor(reply, cursor);
    }
  }

  // ------------------------------------------------------------ walks until the quota

  function ErrorOf(reply: PageReply): Error {
    if reply.ConnectionFailed? then RequestFailed else HttpError(reply.status)
  }

  /** `while len(reviews) < max_reviews`: an empty page or an older record ends the walk and a
      failed request raises out of it. */
  function UntilQuotaFrom(replies: seq<PageReply>, w: Window, country: Option<string>, maxReviews: int,
                          cursor: string, acc: seq<Review>, cursors: seq<string>): (r: Result<Walk>)
    ensures r.Ok? ==> acc <= r.value.reviews && cursors <= r.value.cursors
    ensures r.Ok? ==> |r.value.reviews| <= Max(|acc|, maxReviews)
    ensures r.Ok? ==> forall k :: |acc| <= k < |r.value.reviews| ==> KeptRecord(w, country, r.value.reviews[k])
    ensures r.Ok? ==> forall k :: |cursors| <= k < |r.value.cursors| ==> !Raises(ReplyAt(replies, k))
    ensures r.Err? ==> exists k :: |cursors| <= k < |replies| && Raises(replies[k]) && r.error == ErrorOf(replies[k])
    decreases |replies| - |cursors|
  {
    if |acc| >= maxReviews then Ok(Walk(acc, cursors))
    else
      var reply := ReplyAt(replies, |cursors|);
      var sent := cursors + [cursor];
      if Raises(reply) then
        assert replies[|cursors|] == reply;
        Err(ErrorOf(reply))
      else if reply.page.reviews == [] then Ok(Walk(acc, sent))
      else
        var s := ScanBatch(reply.page.reviews, w, country, maxReviews, acc);
        if s.older then Ok(Walk(s.kept, sent))
        else UntilQuotaFrom(replies, w, country, maxReviews, NextCursor(reply, cursor), s.kept, sent)
  }

  function UntilQuota(replies: seq<PageReply>, w: Window, country: Option<string>, maxReviews: int): Result<Walk> {
    UntilQuotaFrom(replies, w, country, maxReviews, "*", [], [])
  }

  /** Below the quota, the walk made at least one more request, went on only past failed
      pages or non-empty pages without an older record, and returned after a served page that
      was empty or held an older record. */
  lemma {:induction false} UntilQuotaFromEnds(replies: seq<PageReply>, w: Window, country: Option<string>,
                                              maxReviews: int, cursor: string, acc: seq<Review>, cursors: seq<string>)
    requires |acc| < maxReviews
    requires UntilQuotaFrom(replies, w, country, maxReviews, cursor, acc, cursors).Ok?
    requires |UntilQuotaFrom(replies, w, country, maxReviews, cursor, acc, cursors).value.reviews| < maxReviews
    ensures var wk := UntilQuotaFrom(replies, w, country, maxReviews, cursor, acc, cursors).value;
      && |cursors| < |wk.cursors|
      && (forall k :: |cursors| <= k < |wk.cursors| - 1 ==> PassedOver(ReplyAt(replies, k), w))
      && EndsWalk(ReplyAt(replies, |wk.cursors| - 1), w)
    decreases |replies| - |cursors|
  {
    var wk := UntilQuotaFrom(replies, w, country, maxReviews, cursor, acc, cursors).value;
    var reply := ReplyAt(replies, |cursors|);
    var sent := cursors + [cursor];
    assert !Raises(reply);
    if reply.page.reviews == [] {
      assert wk == Walk(acc, sent);
    } else {
      var s := ScanBatch(reply.page.reviews, w, country, maxReviews, acc);
      if s.older {
        assert wk == Walk(s.kept, sent);
      } else {
        var rest := UntilQuotaFrom(replies, w, country, maxReviews, NextCursor(reply, cursor), s.kept, sent);
        assert rest.Ok? && wk == rest.value && |s.kept| < maxReviews;
        assert !HasOlder(w, reply.page.reviews) by {
          ScanUncapped(reply.page.reviews, w, country, maxReviews, acc);
        }
        UntilQuotaFromEnds(replies, w, country, maxReviews, NextCursor(reply, cursor), s.kept, sent);
      }
    }
  }

  /** Below the quota, the walk keeps exactly the reference records of the pages it was
      served, in arrival order. */
  lemma {:induction false} UntilQuotaFromKept(replies: seq<PageReply>, w: Window, country: Option<string>,
                                              maxReviews: int, cursor: string, acc: seq<Review>, cursors: seq<string>)
    requires |acc| < maxReviews
    requires UntilQuotaFrom(replies, w, country, maxReviews, cursor, acc, cursors).Ok?
    requires |UntilQuotaFrom(replies, w, country, maxReviews, cursor, acc, cursors).value.reviews| < maxReviews
    ensures var wk := UntilQuotaFrom(replies, w, country, maxReviews, cursor, acc, cursors).value;
      wk.reviews == acc + KeptRange(replies, w, country, |cursors|, |wk.cursors|)
    decreases |replies| - |cursors|
  {
    var wk := UntilQuotaFrom(replies, w, country, maxReviews, cursor, acc, cursors).value;
    var reply := ReplyAt(replies, |cursors|);
    var sent := cursors + [cursor];
    var n := |cursors|;
    assert !Raises(reply);
    var page := Kept(reply.page.reviews, w, country);
    assert PageKept(reply, w, country) == page;
    if reply.page.reviews == [] {
      assert wk == Walk(acc, sent);
      assert KeptRange(replies, w, country, n, n + 1) == [];
    } else {
      var s := ScanBatch(reply.page.reviews, w, country, maxReviews, acc);
      assert s.kept == acc + page by {
        ScanUncapped(reply.page.reviews, w, country, maxReviews, acc);
      }
      if s.older {
        assert wk == Walk(s.kept, sent);
        assert KeptRange(replies, w, country, n, n + 1) == page;
      } else {
        var next := NextCursor(reply, cursor);
        var rest := UntilQuotaFrom(replies, w, country, maxReviews, next, s.kept, sent);
        assert rest.Ok? && wk == rest.value && |s.kept| < maxReviews;
        UntilQuotaFromKept(replies, w, country, maxReviews, next, s.kept, sent);
        var later := KeptRange(replies, w, country, n + 1, |wk.cursors|);
        assert wk.reviews == (acc + page) + later;
        assert KeptRange(replies, w, country, n, |wk.cursors|) == page + later;
        assert (acc + page) + later == acc + (page + later);
      }
    }
  }

  /** The quota is never exceeded and every record kept lies in the window and carries the
      tag; any failed request makes the whole walk raise. Below the quota the walk returned
      because a served page was empty or held an older record, and the result is exactly the
      reference records of its pages, in arrival order. */
  lemma UntilQuotaSpec(replies: seq<PageReply>, w: Window, country: Option<string>, maxReviews: int)
    ensures var r := UntilQuota(replies, w, country, maxReviews);
      && (r.Ok? ==> |r.value.reviews| <= Max(0, maxReviews))
      && (r.Ok? ==> forall x :: x in r.value.reviews ==> KeptRecord(w, country, x))
      && (r.Ok? ==> forall k :: 0 <= k < |r.value.cursors| ==> !Raises(ReplyAt(replies, k)))
      && (r.Err? ==> exists k :: 0 <= k < |replies| && Raises(replies[k]) && r.error == ErrorOf(replies[k]))
      && (r.Ok? && |r.value.reviews| < maxReviews ==>
            && r.value.reviews == KeptRange(replies, w, country, 0, |r.value.cursors|)
            && EndsWalk(ReplyAt(replies, |r.value.cursors| - 1), w))
  {
    var r := UntilQuota(replies, w, country, maxReviews);
    if r.Ok? {
      forall x | x in r.value.reviews ensures KeptRecord(w, country, x) {
        var k :| 0 <= k < |r.value.reviews| && r.value.reviews[k] == x;
      }
      if |r.value.reviews| < maxReviews {
        UntilQuotaFromEnds(replies, w, country, maxReviews, "*", [], []);
        UntilQuotaFromKept(replies, w, country, maxReviews, "*", [], []);
        assert [] + KeptRange(replies, w, country, 0, |r.value.cursors|) == KeptRange(replies, w, country, 0, |r.value.cursors|);
      }
    }
  }

  /** The loop of `get_reviews` / `fetch_reviews` that runs until the quota. */
  method GetReviewsUntilQuota(replies: seq<PageReply>, w: Window, country: Option<string>, maxReviews: int)
    returns (r: Result<Walk>)
    ensures r == UntilQuota(replies, w, country, maxReviews)
  {
    var reviews: seq<Review> := [];
    var cursors: seq<string> := [];
    var cursor := "*";
    while |reviews| < maxReviews
      invariant UntilQuotaFrom(replies, w, country, maxReviews, cursor, reviews, cursors) == UntilQuota(replies, w, country, maxReviews)
      decreases |replies| - |cursors|
    {
      var reply := ReplyAt(replies, |cursors|);
      cursors := cursors + [cursor];
      if Raises(reply) {
        return Err(ErrorOf(reply));
      }
      var batch := reply.page.reviews;
      if batch == [] {
        break;
      }
      var older;
      reviews, older := ScanPage(batch, w, country, maxReviews, reviews);
      if older {
        break;
      }
      cursor := NextCursor(reply, cursor);
    }
    r := Ok(Walk(reviews, cursors));
  }

  /** `get_reviews` of the single-game sampler: records created in `[startTs, endTs]`. */
  method GetReviewsInRange(replies: seq<PageReply>, startTs: int, endTs: int, maxReviews: int)
    returns (r: Result<seq<Review>>)
    ensures r.Ok? ==> |r.value| <= Max(0, maxReviews)
    ensures r.Ok? ==> forall x :: x in r.value ==> startTs <= Timestamp(x) <= endTs
    ensures r.Ok? <==> UntilQuota(replies, Window(Some(startTs), Some(endTs)), None, maxReviews).Ok?
    ensures r.Ok? ==> r.value == UntilQuota(replies, Window(Some(startTs), Some(endTs)), None, maxReviews).value.reviews
  {
    var w := Window(Some(startTs), Some(endTs));
    var walk := GetReviewsUntilQuota(replies, w, None, maxReviews);
    UntilQuotaSpec(replies, w, None, maxReviews);
    if walk.Ok? {
      forall x | x in walk.value.reviews ensures startTs <= Timestamp(x) <= endTs {
        assert KeptRecord(w, None, x);
      }
      r := Ok(walk.value.reviews);
    } else {
      r := Err(walk.error);
    }
  }

  /** A date bound of the SteamSpy scripts applies only when given and non-zero
      (`if start_ts and ...`). */
  function TruthyBound(bound: Option<int>): Option<int> {
    if bound.Some? && bound.value != 0 then bound else None
  }

  /** `fetch_reviews` of the SteamSpy scripts: optional bounds, and the country stamped on
      every record kept. */
  method FetchReviews(replies: seq<PageReply>, country: string, startTs: Option<int>, endTs: Option<int>,
                      maxReviews: int) returns (r: Result<seq<Review>>)
    ensures r.Ok? ==> |r.value| <= Max(0, maxReviews)
    ensures r.Ok? ==> forall x :: x in r.value ==> x.country == Some(country)
    ensures r.Ok? ==> forall x :: x in r.value ==>
      (startTs.Some? && startTs.value != 0 ==> startTs.value <= Timestamp(x)) &&
      (endTs.Some? && endTs.value != 0 ==> Timestamp(x) <= endTs.value)
    ensures r.Ok? <==> UntilQuota(replies, Window(TruthyBound(startTs), TruthyBound(endTs)), Some(country), maxReviews).Ok?
    ensures r.Ok? ==> r.value == UntilQuota(replies, Window(TruthyBound(startTs), TruthyBound(endTs)), Some(country), maxReviews).value.reviews
  {
    var w := Window(TruthyBound(startTs), TruthyBound(endTs));
    var walk := GetReviewsUntilQuota(replies, w, Some(country), maxReviews);
    UntilQuotaSpec(replies, w, Some(country), maxReviews);
    if walk.Ok? {
      forall x | x in walk.value.reviews ensures x.country == Some(country) {
        assert KeptRecord(w, Some(country), x);
      }
      r := Ok(walk.value.reviews);
    } else {
      r := Err(walk.error);
    }
  }
}
