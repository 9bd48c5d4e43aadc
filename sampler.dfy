/** Sampling public reviewer profiles for one game: the collector widens the review window and
    falls back to a second language until enough public profiles are found; the single-game
    sampler makes one pass over one window. */
module Sampler {
  import opened Common
  import opened SteamTypes
  import opened ReviewWalk
  import opened Profiles

  /** The visibility test as a value, for filtering. */
  function PublicBy(summaryOf: SteamId -> Response<seq<Player>>): SteamId -> bool {
    sid => IsProfilePublic(summaryOf(sid))
  }

  // ------------------------------------------------------------ candidates

  /** The reviewers of `reviews` worth checking, in first-seen order: non-empty ids, each once,
      none already sampled. */
  function Candidates(reviews: seq<Review>, sampled: set<SteamId>): (cands: seq<SteamId>)
    ensures forall c :: c in cands ==> c != "" && c !in sampled
    decreases |reviews|
  {
    if reviews == [] then []
    else
      var prev := Candidates(reviews[..|reviews| - 1], sampled);
      var r := reviews[|reviews| - 1];
      if HasAuthorId(r) && AuthorId(r).value !in sampled && AuthorId(r).value !in prev
      then prev + [AuthorId(r).value]
      else prev
  }

  /** `k` is the first review written by `sid`. */
  predicate FirstAt(reviews: seq<Review>, sid: SteamId, k: int) {
    0 <= k < |reviews| && AuthorId(reviews[k]) == Some(sid) &&
    forall m :: 0 <= m < k ==> AuthorId(reviews[m]) != Some(sid)
  }

  predicate WroteOne(reviews: seq<Review>, sid: SteamId) {
    exists k :: 0 <= k < |reviews| && AuthorId(reviews[k]) == Some(sid)
  }

  /** The candidates are distinct, and they are exactly the non-empty reviewer ids not yet
      sampled. */
  lemma {:induction false} CandidatesMembers(reviews: seq<Review>, sampled: set<SteamId>)
    ensures Distinct(Candidates(reviews, sampled))
    ensures forall c :: c in Candidates(reviews, sampled) <==> c != "" && c !in sampled && WroteOne(reviews, c)
    decreases |reviews|
  {
    if reviews != [] {
      var pre := reviews[..|reviews| - 1];
      var r := reviews[|reviews| - 1];
      CandidatesMembers(pre, sampled);
      forall c ensures WroteOne(reviews, c) <==> WroteOne(pre, c) || AuthorId(r) == Some(c) {
        if WroteOne(reviews, c) {
          var k :| 0 <= k < |reviews| && AuthorId(reviews[k]) == Some(c);
          if k < |pre| {
            assert pre[k] == reviews[k];
          }
        }
        if WroteOne(pre, c) {
          var k :| 0 <= k < |pre| && AuthorId(pre[k]) == Some(c);
          assert reviews[k] == pre[k];
        }
      }
    }
  }

  /** The candidates come in the order of their first reviews. */
  lemma {:induction false} CandidatesOrder(reviews: seq<Review>, sampled: set<SteamId>, i: int, j: int, ki: int, kj: int)
    requires 0 <= i < j < |Candidates(reviews, sampled)|
    requires FirstAt(reviews, Candidates(reviews, sampled)[i], ki)
    requires FirstAt(reviews, Candidates(reviews, sampled)[j], kj)
    ensures ki < kj
    decreases |reviews|
  {
    var n := |reviews|;
    var pre := reviews[..n - 1];
    var prev := Candidates(pre, sampled);
    var cands := Candidates(reviews, sampled);
    CandidatesMembers(pre, sampled);
    assert i < |prev| && cands[i] == prev[i];
    assert WroteOne(pre, prev[i]);
    FirstInPrefix(reviews, cands[i], ki);
    if j < |prev| {
      assert cands[j] == prev[j];
      assert WroteOne(pre, prev[j]);
      FirstInPrefix(reviews, cands[j], kj);
      CandidatesOrder(pre, sampled, i, j, ki, kj);
    }
  }

  /** A reviewer who wrote one of the earlier reviews has their first review among them. */
  lemma FirstInPrefix(reviews: seq<Review>, sid: SteamId, k: int)
    requires |reviews| > 0 && WroteOne(reviews[..|reviews| - 1], sid) && FirstAt(reviews, sid, k)
    ensures k < |reviews| - 1 && FirstAt(reviews[..|reviews| - 1], sid, k)
  {
    var pre := reviews[..|reviews| - 1];
    var w :| 0 <= w < |pre| && AuthorId(pre[w]) == Some(sid);
    assert reviews[w] == pre[w];
    assert pre[k] == reviews[k];
    forall m | 0 <= m < k ensures AuthorId(pre[m]) != Some(sid) {
      assert pre[m] == reviews[m];
    }
  }

  /** The `candidate_steamids` loop of the collector, with its `seen` set. */
  method CollectCandidates(reviews: seq<Review>, sampled: set<SteamId>) returns (cands: seq<SteamId>)
    ensures cands == Candidates(reviews, sampled)
  {
    cands := [];
    var seen: set<SteamId> := {};
    for i := 0 to |reviews|
      invariant cands == Candidates(reviews[..i], sampled)
      invariant seen == set c | c in cands
    {
      assert reviews[..i + 1][..i] == reviews[..i];
      var sid := AuthorId(reviews[i]);
      if sid.Some? && sid.value != "" && sid.value !in seen && sid.value !in sampled {
        cands := cands + [sid.value];
        seen := seen + {sid.value};
      }
    }
    assert reviews[..|reviews|] == reviews;
  }

  // ------------------------------------------------------------ admission

  /** The public profiles among `ids`. */
  function PublicAmong(ids: seq<SteamId>, summaryOf: SteamId -> Response<seq<Player>>): set<SteamId> {
    if ids == [] then {}
    else
      var last := ids[|ids| - 1];
      PublicAmong(ids[..|ids| - 1], summaryOf) + (if IsProfilePublic(summaryOf(last)) then {last} else {})
  }

  /** An id is admitted exactly when it is among the candidates and its profile is public. */
  lemma {:induction false} PublicAmongMembers(ids: seq<SteamId>, summaryOf: SteamId -> Response<seq<Player>>, c: SteamId)
    ensures c in PublicAmong(ids, summaryOf) <==> c in ids && IsProfilePublic(summaryOf(c))
  {
    if ids != [] {
      var init := ids[..|ids| - 1];
      PublicAmongMembers(init, summaryOf, c);
      assert ids == init + [ids[|ids| - 1]];
    }
  }

  /** The admission loop of the collector: each candidate whose profile is public joins the
      sample, and the loop leaves as soon as the sample holds `sampleSize` profiles. */
  method Admit(cands: seq<SteamId>, summaryOf: SteamId -> Response<seq<Player>>, sampled: set<SteamId>,
               sampleSize: int) returns (admitted: set<SteamId>, checked: nat)
    ensures checked <= |cands|
    ensures admitted == sampled + PublicAmong(cands[..checked], summaryOf)
    ensures checked < |cands| ==> |admitted| >= sampleSize
    ensures checked > 1 ==> |sampled + PublicAmong(cands[..checked - 1], summaryOf)| < sampleSize
    ensures |sampled| < sampleSize ==> |admitted| <= sampleSize
  {
    admitted := sampled;
    checked := 0;
    var full := false;
    ghost var before := sampled;
    while checked < |cands| && !full
      invariant checked <= |cands|
      invariant admitted == sampled + PublicAmong(cands[..checked], summaryOf)
      invariant full <==> checked > 0 && |admitted| >= sampleSize
      invariant |sampled| < sampleSize ==> |admitted| <= sampleSize
      invariant checked > 0 ==> before == sampled + PublicAmong(cands[..checked - 1], summaryOf)
      invariant checked > 1 ==> |before| < sampleSize
    {
      var sid := cands[checked];
      before := admitted;
      admitted := AdmitOne(admitted, sid, summaryOf);
      AdmitStep(cands, checked, summaryOf, sampled, before, admitted);
      checked := checked + 1;
      full := |admitted| >= sampleSize;
    }
  }

  /** `if is_profile_public(sid): sampled.add(sid)` */
  method AdmitOne(admitted: set<SteamId>, sid: SteamId, summaryOf: SteamId -> Response<seq<Player>>)
    returns (r: set<SteamId>)
    ensures r == admitted + (if IsProfilePublic(summaryOf(sid)) then {sid} else {})
    ensures |r| <= |admitted| + 1
  {
    r := admitted;
    if IsProfilePublic(summaryOf(sid)) {
      r := r + {sid};
      if sid in admitted {
        assert r == admitted;
      }
    }
  }

  /** Admitting the next candidate keeps the admitted set the public ones so far. */
  lemma AdmitStep(cands: seq<SteamId>, i: nat, summaryOf: SteamId -> Response<seq<Player>>,
                  sampled: set<SteamId>, before: set<SteamId>, after: set<SteamId>)
    requires i < |cands|
    requires before == sampled + PublicAmong(cands[..i], summaryOf)
    requires after == before + (if IsProfilePublic(summaryOf(cands[i])) then {cands[i]} else {})
    ensures after == sampled + PublicAmong(cands[..i + 1], summaryOf)
  {
    PublicAmongStep(cands, i, summaryOf);
  }

  lemma PublicAmongStep(ids: seq<SteamId>, i: nat, summaryOf: SteamId -> Response<seq<Player>>)
    requires i < |ids|
    ensures PublicAmong(ids[..i + 1], summaryOf) ==
      PublicAmong(ids[..i], summaryOf) + (if IsProfilePublic(summaryOf(ids[i])) then {ids[i]} else {})
  {
    assert ids[..i + 1][..i] == ids[..i];
  }

  // ------------------------------------------------------------ the collector's sampler

  /** One pass of the sampling loop: the language index and attempt number it ran with, the
      months of history it asked for, and the sample size after it. */
  datatype Attempt = Attempt(language: nat, attempt: nat, monthsBack: int, sampledAfter: nat)

  const InitialMonths: int := 6
  const MaxAttempts: nat := 5
  const SampleSize: int := 1000

  /** `timedelta(days=months_back * 30)` in seconds. */
  const SecondsPerMonth: int := 30 * 86400

  /** The early-success floor `min(500, SAMPLE_SIZE)`. */
  function EarlyFloor(sampleSize: int): int { Min(500, sampleSize) }

  /** The review quota of one pass, `min(SAMPLE_SIZE * 2, 2000)`. */
  function ReviewQuota(sampleSize: int): int { Min(sampleSize * 2, 2000) }

  /** The pass after `a`: the next attempt in the same language, or the first attempt in the
      next language once the attempts are used up. */
  predicate Follows(a: Attempt, b: Attempt, maxAttempts: nat) {
    if a.attempt + 1 < maxAttempts then b.language == a.language && b.attempt == a.attempt + 1
    else b.language == a.language + 1 && b.attempt == 0
  }

  /** `sid` wrote one of the reviews fetched by some pass. */
  predicate Authored(fetched: seq<seq<Review>>, sid: SteamId) {
    exists reviews :: reviews in fetched && WroteOne(reviews, sid)
  }

  /** The window of a pass reaching `monthsBack` months before `now`. */
  function PassStart(now: int, monthsBack: int): int { now - monthsBack * SecondsPerMonth }

  /** `list(s)`, in some order. */
  method ListOf(s: set<SteamId>) returns (xs: seq<SteamId>)
    ensures Distinct(xs) && |xs| == |s|
    ensures forall x :: x in xs <==> x in s
  {
    xs := [];
    var rest := s;
    while rest != {}
      invariant rest <= s
      invariant forall x :: x in s <==> x in xs || x in rest
      invariant forall x :: x in xs ==> x !in rest
      invariant Distinct(xs)
      invariant |xs| + |rest| == |s|
      decreases |rest|
    {
      var x :| x in rest;
      xs := xs + [x];
      rest := rest - {x};
    }
  }

  /** One pass of the collector's loop: fetch the reviews of the window, list the candidates
      not yet sampled, and admit the public ones until the sample is full. */
  method SamplePass(replies: seq<PageReply>, summaryOf: SteamId -> Response<seq<Player>>,
                    sampled: set<SteamId>, start: int, now: int, sampleSize: int)
    returns (reviews: seq<Review>, cands: seq<SteamId>, checked: nat, admitted: set<SteamId>)
    ensures reviews == CollectWalk(replies, start, now, ReviewQuota(sampleSize)).reviews
    ensures cands == Candidates(reviews, sampled)
    ensures checked <= |cands| && admitted == sampled + PublicAmong(cands[..checked], summaryOf)
    ensures checked < |cands| ==> |admitted| >= sampleSize
    ensures checked > 1 ==> |sampled + PublicAmong(cands[..checked - 1], summaryOf)| < sampleSize
    ensures |sampled| < sampleSize ==> |admitted| <= sampleSize
    ensures |sampled| <= |admitted|
    ensures forall s :: s in admitted && s !in sampled ==> s != "" && IsProfilePublic(summaryOf(s)) && WroteOne(reviews, s)
  {
    var cursors;
    reviews, cursors := GetReviews(replies, start, now, ReviewQuota(sampleSize));
    cands := CollectCandidates(reviews, sampled);
    admitted, checked := Admit(cands, summaryOf, sampled, sampleSize);
    UnionGrows(sampled, PublicAmong(cands[..checked], summaryOf));
    CandidatesMembers(reviews, sampled);
    forall s | s in admitted && s !in sampled
      ensures s != "" && IsProfilePublic(summaryOf(s)) && WroteOne(reviews, s)
    {
      PublicAmongMembers(cands[..checked], summaryOf, s);
      assert s in cands;
    }
  }

  lemma UnionGrows(a: set<SteamId>, b: set<SteamId>)
    ensures |a| <= |a + b|
  {
    assert a + b == a + (b - a);
    assert a * (b - a) == {};
  }

  /** The pass log of the collector's loop is well formed: it starts with the first attempt
      in the first language; every pass uses a known language and attempt number and asks for
      `initialMonths` more months per attempt; each pass but the last left the sample below
      the early floor, and the next pass follows it with a sample at least as large. */
  predicate TraceShape(trace: seq<Attempt>, languages: nat, maxAttempts: nat, initialMonths: int, floor: int) {
    && (trace != [] ==> trace[0].language == 0 && trace[0].attempt == 0)
    && (forall k :: 0 <= k < |trace| ==>
          && trace[k].language < languages && trace[k].attempt < maxAttempts
          && trace[k].monthsBack == Times(trace[k].attempt + 1, initialMonths))
    && (forall k :: 0 <= k < |trace| - 1 ==>
          && Follows(trace[k], trace[k + 1], maxAttempts)
          && trace[k].sampledAfter < floor
          && trace[k].sampledAfter <= trace[k + 1].sampledAfter)
  }

  lemma TraceShapeSnoc(trace: seq<Attempt>, a: Attempt, languages: nat, maxAttempts: nat, initialMonths: int, floor: int)
    requires TraceShape(trace, languages, maxAttempts, initialMonths, floor)
    requires a.language < languages && a.attempt < maxAttempts && a.monthsBack == Times(a.attempt + 1, initialMonths)
    requires trace == [] ==> a.language == 0 && a.attempt == 0
    requires trace != [] ==> var last := trace[|trace| - 1];
      Follows(last, a, maxAttempts) && last.sampledAfter < floor && last.sampledAfter <= a.sampledAfter
    ensures TraceShape(trace + [a], languages, maxAttempts, initialMonths, floor)
  {
    var t := trace + [a];
    forall k | 0 <= k < |t| - 1
      ensures Follows(t[k], t[k + 1], maxAttempts) && t[k].sampledAfter < floor && t[k].sampledAfter <= t[k + 1].sampledAfter
    {
      assert t[k] == trace[k];
      if k + 1 < |trace| {
        assert t[k + 1] == trace[k + 1];
      }
    }
  }

  /** The (language, attempt) pair the loop moves to after a pass that left the sample below
      the early floor: the next attempt, or the first attempt of the next language once the
      attempts are used up and a language is left. */
  function NextSlot(language: nat, attempt: nat, maxAttempts: nat, languages: nat): (nat, nat) {
    if attempt + 1 >= maxAttempts && language + 1 < languages then (language + 1, 0)
    else (language, attempt + 1)
  }

  /** The loop's control state agrees with its pass log. */
  predicate LoopControl(trace: seq<Attempt>, langIdx: nat, attempts: nat, count: nat, sampleSize: int,
                        languages: nat, maxAttempts: nat, initialMonths: int) {
    && langIdx < languages && attempts <= maxAttempts
    && TraceShape(trace, languages, maxAttempts, initialMonths, EarlyFloor(sampleSize))
    && (trace == [] ==> langIdx == 0 && attempts == 0 && count == 0)
    && (trace != [] ==>
          && 0 < sampleSize
          && trace[|trace| - 1].sampledAfter == count < EarlyFloor(sampleSize)
          && (langIdx, attempts) == NextSlot(trace[|trace| - 1].language, trace[|trace| - 1].attempt, maxAttempts, languages))
  }

  /** A pass keeps the log well formed, and the control state in step with it when the loop
      goes on. */
  lemma ControlStep(trace: seq<Attempt>, langIdx: nat, attempts: nat, count: nat, sampleSize: int,
                    languages: nat, maxAttempts: nat, initialMonths: int, after: nat)
    requires LoopControl(trace, langIdx, attempts, count, sampleSize, languages, maxAttempts, initialMonths)
    requires attempts < maxAttempts && count < sampleSize && count <= after
    ensures var a := Attempt(langIdx, attempts, Times(attempts + 1, initialMonths), after);
      && TraceShape(trace + [a], languages, maxAttempts, initialMonths, EarlyFloor(sampleSize))
      && (after < EarlyFloor(sampleSize) ==>
            var (l, t) := NextSlot(langIdx, attempts, maxAttempts, languages);
            LoopControl(trace + [a], l, t, after, sampleSize, languages, maxAttempts, initialMonths))
  {
    var a := Attempt(langIdx, attempts, Times(attempts + 1, initialMonths), after);
    TraceShapeSnoc(trace, a, languages, maxAttempts, initialMonths, EarlyFloor(sampleSize));
  }

  /** When the loop condition fails, the last pass was the last attempt in the last language. */
  lemma ControlExit(trace: seq<Attempt>, langIdx: nat, attempts: nat, count: nat, sampleSize: int,
                    languages: nat, maxAttempts: nat, initialMonths: int)
    requires LoopControl(trace, langIdx, attempts, count, sampleSize, languages, maxAttempts, initialMonths)
    requires !(attempts < maxAttempts && count < sampleSize)
    ensures trace == [] <==> maxAttempts == 0 || sampleSize <= 0
    ensures trace != [] ==>
      trace[|trace| - 1].attempt == maxAttempts - 1 && trace[|trace| - 1].language == languages - 1
  {
  }

  /** Every id of the sample is non-empty, public, and wrote one of the fetched reviews. */
  ghost predicate Admissible(sampled: set<SteamId>, fetched: seq<seq<Review>>, summaryOf: SteamId -> Response<seq<Player>>) {
    forall s :: s in sampled ==> s != "" && IsProfilePublic(summaryOf(s)) && Authored(fetched, s)
  }

  lemma AdmissibleSnoc(sampled: set<SteamId>, admitted: set<SteamId>, fetched: seq<seq<Review>>, reviews: seq<Review>,
                       summaryOf: SteamId -> Response<seq<Player>>)
    requires Admissible(sampled, fetched, summaryOf)
    requires forall s :: s in admitted && s !in sampled ==> s != "" && IsProfilePublic(summaryOf(s)) && WroteOne(reviews, s)
    ensures Admissible(admitted, fetched + [reviews], summaryOf)
  {
    var all := fetched + [reviews];
    forall s | s in admitted ensures s != "" && IsProfilePublic(summaryOf(s)) && Authored(all, s) {
      if s in sampled {
        var rs :| rs in fetched && WroteOne(rs, s);
        assert rs in all;
      } else {
        assert reviews in all;
      }
    }
  }

  /** What one pass did with its candidates: the sample it started from, the list it built
      and how many of them it checked. */
  datatype Pass = Pass(before: set<SteamId>, cands: seq<SteamId>, checked: nat)

  /** The ids a pass admitted: the public profiles among the candidates it checked. */
  function PassAdmitted(p: Pass, summaryOf: SteamId -> Response<seq<Player>>): set<SteamId> {
    PublicAmong(p.cands[..Min(p.checked, |p.cands|)], summaryOf)
  }

  /** The sample a pass left. */
  function After(p: Pass, summaryOf: SteamId -> Response<seq<Player>>): set<SteamId> {
    p.before + PassAdmitted(p, summaryOf)
  }

  /** `steamids_set` after the passes: the union of what each admitted. */
  function Union(passes: seq<Pass>, summaryOf: SteamId -> Response<seq<Player>>): set<SteamId> {
    if passes == [] then {}
    else Union(passes[..|passes| - 1], summaryOf) + PassAdmitted(passes[|passes| - 1], summaryOf)
  }

  /** A pass that fetched `reviews` listed the reviewers not yet sampled, checked them in
      order, and stopped checking only once the sample was full, right after the check that
      filled it. */
  predicate PassRule(p: Pass, reviews: seq<Review>, summaryOf: SteamId -> Response<seq<Player>>, sampleSize: int) {
    && p.cands == Candidates(reviews, p.before)
    && p.checked <= |p.cands|
    && (p.checked < |p.cands| ==> |p.before + PublicAmong(p.cands[..p.checked], summaryOf)| >= sampleSize)
    && (p.checked > 1 ==> |p.before + PublicAmong(p.cands[..p.checked - 1], summaryOf)| < sampleSize)
  }

  /** The admission log of the passes that fetched `fetched`: every pass followed the rule,
      the first started from an empty sample, each later one from the sample the one before
      it left, and `sampled` is what the last one left. */
  ghost predicate Admissions(passes: seq<Pass>, fetched: seq<seq<Review>>,
                             summaryOf: SteamId -> Response<seq<Player>>, sampleSize: int, sampled: set<SteamId>) {
    && |passes| == |fetched|
    && (forall k :: 0 <= k < |passes| ==> PassRule(passes[k], fetched[k], summaryOf, sampleSize))
    && (forall k :: 0 < k < |passes| ==> passes[k].before == After(passes[k - 1], summaryOf))
    && (passes == [] ==> sampled == {})
    && (passes != [] ==> passes[0].before == {} && sampled == After(passes[|passes| - 1], summaryOf))
  }

  lemma AdmissionsSnoc(passes: seq<Pass>, fetched: seq<seq<Review>>, summaryOf: SteamId -> Response<seq<Player>>,
                       sampleSize: int, sampled: set<SteamId>, p: Pass, reviews: seq<Review>)
    requires Admissions(passes, fetched, summaryOf, sampleSize, sampled)
    requires p.before == sampled && PassRule(p, reviews, summaryOf, sampleSize)
    ensures Admissions(passes + [p], fetched + [reviews], summaryOf, sampleSize, After(p, summaryOf))
  {
    var ps, fs := passes + [p], fetched + [reviews];
    forall k | 0 <= k < |ps| ensures PassRule(ps[k], fs[k], summaryOf, sampleSize) {
      if k < |passes| {
        assert ps[k] == passes[k] && fs[k] == fetched[k];
      }
    }
    forall k | 0 < k < |ps| ensures ps[k].before == After(ps[k - 1], summaryOf) {
      assert ps[k - 1] == passes[k - 1];
      if k < |passes| {
        assert ps[k] == passes[k];
      }
    }
  }

  /** A pass that left the sample below `sampleSize` checked every candidate: each reviewer of
      its window not yet sampled whose profile is public was admitted. */
  lemma PassComplete(p: Pass, reviews: seq<Review>, summaryOf: SteamId -> Response<seq<Player>>,
                     sampleSize: int, s: SteamId)
    requires PassRule(p, reviews, summaryOf, sampleSize)
    requires |After(p, summaryOf)| < sampleSize
    requires s in Candidates(reviews, p.before) && IsProfilePublic(summaryOf(s))
    ensures s in After(p, summaryOf)
  {
    assert p.checked == |p.cands| && p.cands[..p.checked] == p.cands;
    PublicAmongMembers(p.cands, summaryOf, s);
  }

  /** The sample a log ends with is the union of what its passes admitted. */
  lemma {:induction false} AdmissionsUnion(passes: seq<Pass>, fetched: seq<seq<Review>>,
                                           summaryOf: SteamId -> Response<seq<Player>>, sampleSize: int,
                                           sampled: set<SteamId>)
    requires Admissions(passes, fetched, summaryOf, sampleSize, sampled)
    ensures sampled == Union(passes, summaryOf)
    decreases |passes|
  {
    if passes != [] {
      var n := |passes| - 1;
      var ps, fs := passes[..n], fetched[..n];
      assert Admissions(ps, fs, summaryOf, sampleSize, passes[n].before) by {
        forall k | 0 <= k < |ps| ensures PassRule(ps[k], fs[k], summaryOf, sampleSize) {
          assert ps[k] == passes[k] && fs[k] == fetched[k];
        }
        forall k | 0 < k < |ps| ensures ps[k].before == After(ps[k - 1], summaryOf) {
          assert ps[k] == passes[k] && ps[k - 1] == passes[k - 1];
        }
      }
      AdmissionsUnion(ps, fs, summaryOf, sampleSize, passes[n].before);
    }
  }

  /** Pass `k` fetched the reviews of `pages[k]` in the window its log entry names. */
  ghost predicate FetchedBy(pages: seq<seq<PageReply>>, trace: seq<Attempt>, fetched: seq<seq<Review>>,
                            now: int, sampleSize: int) {
    |fetched| == |trace| &&
    forall k {:trigger fetched[k]} :: 0 <= k < |trace| ==>
      fetched[k] == CollectWalk(At(pages, k, []), PassStart(now, trace[k].monthsBack), now, ReviewQuota(sampleSize)).reviews
  }

  lemma FetchedBySnoc(pages: seq<seq<PageReply>>, trace: seq<Attempt>, fetched: seq<seq<Review>>, now: int, sampleSize: int,
                      a: Attempt, reviews: seq<Review>)
    requires FetchedBy(pages, trace, fetched, now, sampleSize)
    requires reviews == CollectWalk(At(pages, |trace|, []), PassStart(now, a.monthsBack), now, ReviewQuota(sampleSize)).reviews
    ensures FetchedBy(pages, trace + [a], fetched + [reviews], now, sampleSize)
  {
    var t, f := trace + [a], fetched + [reviews];
    forall k | 0 <= k < |t|
      ensures f[k] == CollectWalk(At(pages, k, []), PassStart(now, t[k].monthsBack), now, ReviewQuota(sampleSize)).reviews
    {
      if k < |trace| {
        assert f[k] == fetched[k] && t[k] == trace[k];
      }
    }
  }

  /** The fetched reviews lie in the windows of their passes. */
  lemma FetchedInWindow(pages: seq<seq<PageReply>>, trace: seq<Attempt>, fetched: seq<seq<Review>>, now: int, sampleSize: int)
    requires FetchedBy(pages, trace, fetched, now, sampleSize)
    ensures forall k, i :: 0 <= k < |trace| && 0 <= i < |fetched[k]| ==>
      PassStart(now, trace[k].monthsBack) <= Timestamp(fetched[k][i]) <= now
  {
    forall k, i | 0 <= k < |trace| && 0 <= i < |fetched[k]|
      ensures PassStart(now, trace[k].monthsBack) <= Timestamp(fetched[k][i]) <= now
    {
      CollectWalkBounds(At(pages, k, []), PassStart(now, trace[k].monthsBack), now, ReviewQuota(sampleSize));
      assert fetched[k][i] in fetched[k];
    }
  }

  /** `n * m` as repeated addition, so that the loop counters stay linear. */
  function Times(n: nat, m: int): int {
    if n == 0 then 0 else Times(n - 1, m) + m
  }

  lemma {:induction false} TimesIsMul(n: nat, m: int)
    ensures Times(n, m) == n * m
  {
    if n > 0 {
      TimesIsMul(n - 1, m);
      assert (n - 1) * m + m == n * m;
    }
  }

  lemma {:induction false} TimesMono(n: nat, k: nat, m: nat)
    requires n <= k
    ensures Times(n, m) <= Times(k, m)
    decreases k - n
  {
    if n < k {
      TimesMono(n, k - 1, m);
    }
  }

  /** Pass `k` of a well-formed log is the `k`-th (language, attempt) pair in order. */
  lemma {:induction false} TraceIndex(trace: seq<Attempt>, languages: nat, maxAttempts: nat, initialMonths: int, floor: int, k: nat)
    requires TraceShape(trace, languages, maxAttempts, initialMonths, floor)
    requires k < |trace|
    ensures Times(trace[k].language, maxAttempts) + trace[k].attempt == k
  {
    if k > 0 {
      TraceIndex(trace, languages, maxAttempts, initialMonths, floor, k - 1);
      var a, b := trace[k - 1], trace[k];
      assert Follows(a, b, maxAttempts);
      if a.attempt + 1 >= maxAttempts {
        assert Times(b.language, maxAttempts) == Times(a.language, maxAttempts) + maxAttempts;
      }
    }
  }

  /** A well-formed log holds at most `maxAttempts` passes per language. */
  lemma TraceCount(trace: seq<Attempt>, languages: nat, maxAttempts: nat, initialMonths: int, floor: int)
    requires TraceShape(trace, languages, maxAttempts, initialMonths, floor)
    ensures |trace| <= Times(languages, maxAttempts)
  {
    if trace != [] {
      var last := trace[|trace| - 1];
      TraceIndex(trace, languages, maxAttempts, initialMonths, floor, |trace| - 1);
      TimesMono(last.language + 1, languages, maxAttempts);
    }
  }

  /** What the passes so far did: pass `k` fetched its window from `pages[k]`, every sampled id
      is admissible, every pass followed the admission rule, and the sample is the union of
      what the passes admitted. */
  ghost predicate History(pages: seq<seq<PageReply>>, summaryOf: SteamId -> Response<seq<Player>>, now: int,
                          sampleSize: int, trace: seq<Attempt>, fetched: seq<seq<Review>>, passes: seq<Pass>,
                          sampled: set<SteamId>) {
    && FetchedBy(pages, trace, fetched, now, sampleSize)
    && Admissible(sampled, fetched, summaryOf)
    && Admissions(passes, fetched, summaryOf, sampleSize, sampled)
  }

  /** One pass of the collector's loop with its bookkeeping: the pass runs on the replies of
      its own index, and its log entry and its reviews are appended. */
  method RecordPass(pages: seq<seq<PageReply>>, summaryOf: SteamId -> Response<seq<Player>>, now: int, sampleSize: int,
                    trace: seq<Attempt>, fetched: seq<seq<Review>>, passes: seq<Pass>, sampled: set<SteamId>,
                    langIdx: nat, attempts: nat, monthsBack: int)
    returns (trace': seq<Attempt>, fetched': seq<seq<Review>>, passes': seq<Pass>, sampled': set<SteamId>)
    requires History(pages, summaryOf, now, sampleSize, trace, fetched, passes, sampled)
    ensures trace' == trace + [Attempt(langIdx, attempts, monthsBack, |sampled'|)]
    ensures |fetched'| == |fetched| + 1 && fetched'[..|fetched|] == fetched
    ensures |passes'| == |passes| + 1 && passes'[..|passes|] == passes
    ensures History(pages, summaryOf, now, sampleSize, trace', fetched', passes', sampled')
    ensures sampled <= sampled' && |sampled| <= |sampled'|
    ensures |sampled| < sampleSize ==> |sampled'| <= sampleSize
  {
    var reviews, cands, checked, admitted := SamplePass(At(pages, |trace|, []), summaryOf, sampled, PassStart(now, monthsBack), now, sampleSize);
    var a := Attempt(langIdx, attempts, monthsBack, |admitted|);
    var p := Pass(sampled, cands, checked);
    FetchedBySnoc(pages, trace, fetched, now, sampleSize, a, reviews);
    AdmissibleSnoc(sampled, admitted, fetched, reviews, summaryOf);
    AdmissionsSnoc(passes, fetched, summaryOf, sampleSize, sampled, p, reviews);
    trace', fetched', passes', sampled' := trace + [a], fetched + [reviews], passes + [p], admitted;
    assert passes'[..|passes|] == passes;
    assert fetched'[..|fetched|] == fetched;
  }

  /** The end of a pass that left the sample below the early floor: one more attempt with
      `initialMonths` more months, or the first attempt of the next language, starting again
      from `initialMonths`, once the attempts are used up. */
  method NextPass(langIdx: nat, attempts: nat, monthsBack: int, count: nat, sampleSize: int,
                  initialMonths: int, maxAttempts: nat, languages: nat)
    returns (langIdx': nat, attempts': nat, monthsBack': int)
    requires monthsBack == Times(attempts + 1, initialMonths)
    requires count < EarlyFloor(sampleSize)
    ensures (langIdx', attempts') == NextSlot(langIdx, attempts, maxAttempts, languages)
    ensures monthsBack' == Times(attempts' + 1, initialMonths)
  {
    assert Times(attempts + 2, initialMonths) == Times(attempts + 1, initialMonths) + initialMonths;
    langIdx', attempts', monthsBack' := langIdx, attempts + 1, monthsBack + initialMonths;
    if attempts' >= maxAttempts && langIdx' + 1 < languages && count < sampleSize {
      langIdx' := langIdx' + 1;
      attempts' := 0;
      monthsBack' := initialMonths;
    }
  }

  /** The invariant of the collector's loop: the control state agrees with the pass log, the
      window is `initialMonths` per attempt, and the history of the passes so far. */
  ghost predicate Looping(pages: seq<seq<PageReply>>, summaryOf: SteamId -> Response<seq<Player>>,
                          now: int, sampleSize: int, initialMonths: int, maxAttempts: nat, languages: nat,
                          trace: seq<Attempt>, fetched: seq<seq<Review>>, passes: seq<Pass>, sampled: set<SteamId>,
                          langIdx: nat, attempts: nat, monthsBack: int) {
    && LoopControl(trace, langIdx, attempts, |sampled|, sampleSize, languages, maxAttempts, initialMonths)
    && monthsBack == Times(attempts + 1, initialMonths)
    && History(pages, summaryOf, now, sampleSize, trace, fetched, passes, sampled)
  }

  /** One iteration of the collector's `while` loop: a pass, then either the break at the
      early floor or the move to the next attempt. */
  method LoopStep(pages: seq<seq<PageReply>>, summaryOf: SteamId -> Response<seq<Player>>,
                  now: int, sampleSize: int, initialMonths: int, maxAttempts: nat, languages: nat,
                  trace: seq<Attempt>, fetched: seq<seq<Review>>, passes: seq<Pass>, sampled: set<SteamId>,
                  langIdx: nat, attempts: nat, monthsBack: int)
    returns (trace': seq<Attempt>, fetched': seq<seq<Review>>, passes': seq<Pass>, sampled': set<SteamId>,
             langIdx': nat, attempts': nat, monthsBack': int, stop: bool)
    requires Looping(pages, summaryOf, now, sampleSize, initialMonths, maxAttempts, languages,
                     trace, fetched, passes, sampled, langIdx, attempts, monthsBack)
    requires attempts < maxAttempts && |sampled| < sampleSize
    ensures History(pages, summaryOf, now, sampleSize, trace', fetched', passes', sampled')
    ensures TraceShape(trace', languages, maxAttempts, initialMonths, EarlyFloor(sampleSize))
    ensures trace' != [] && trace'[|trace'| - 1].sampledAfter == |sampled'| <= sampleSize
    ensures stop <==> |sampled'| >= EarlyFloor(sampleSize)
    ensures stop ==> 0 < sampleSize && 0 < maxAttempts
    ensures !stop ==>
      && Looping(pages, summaryOf, now, sampleSize, initialMonths, maxAttempts, languages,
                 trace', fetched', passes', sampled', langIdx', attempts', monthsBack')
      && (langIdx', attempts') == NextSlot(langIdx, attempts, maxAttempts, languages)
      && (langIdx < langIdx' || (langIdx == langIdx' && attempts < attempts'))
  {
    trace', fetched', passes', sampled' := RecordPass(pages, summaryOf, now, sampleSize, trace, fetched, passes, sampled,
                                                      langIdx, attempts, monthsBack);
    ControlStep(trace, langIdx, attempts, |sampled|, sampleSize, languages, maxAttempts, initialMonths, |sampled'|);
    langIdx', attempts', monthsBack' := langIdx, attempts, monthsBack;
    stop := |sampled'| >= EarlyFloor(sampleSize);
    if !stop {
      langIdx', attempts', monthsBack' := NextPass(langIdx, attempts, monthsBack, |sampled'|, sampleSize,
                                                   initialMonths, maxAttempts, languages);
    }
  }

  /** Before the first pass: no log, no sample, the first attempt in the first language. */
  lemma StartState(pages: seq<seq<PageReply>>, summaryOf: SteamId -> Response<seq<Player>>,
                   now: int, sampleSize: int, initialMonths: int, maxAttempts: nat, languages: nat)
    requires languages > 0
    ensures Looping(pages, summaryOf, now, sampleSize, initialMonths, maxAttempts, languages,
                    [], [], [], {}, 0, 0, initialMonths)
  {
  }

  /** The sampling loop of the collector. The `k`-th pass walks the reviews of `pages[k]`
      (an exhausted feed past the end); `summaryOf` answers the visibility request of each id. */
  method SampleProfiles(pages: seq<seq<PageReply>>, summaryOf: SteamId -> Response<seq<Player>>,
                        now: int, sampleSize: int, initialMonths: int, maxAttempts: nat, languages: seq<string>)
    returns (steamids: seq<SteamId>, trace: seq<Attempt>, fetched: seq<seq<Review>>, passes: seq<Pass>)
    requires |languages| > 0
    ensures |trace| <= Times(|languages|, maxAttempts)
    ensures trace == [] <==> maxAttempts == 0 || sampleSize <= 0
    ensures TraceShape(trace, |languages|, maxAttempts, initialMonths, EarlyFloor(sampleSize))
    ensures trace != [] ==>
      && trace[|trace| - 1].sampledAfter == |steamids|
      && (trace[|trace| - 1].sampledAfter >= EarlyFloor(sampleSize) ||
          (trace[|trace| - 1].attempt == maxAttempts - 1 && trace[|trace| - 1].language == |languages| - 1))
    ensures FetchedBy(pages, trace, fetched, now, sampleSize)
    ensures forall k, i :: 0 <= k < |trace| && 0 <= i < |fetched[k]| ==>
      PassStart(now, trace[k].monthsBack) <= Timestamp(fetched[k][i]) <= now
    ensures Distinct(steamids) && |steamids| <= Max(0, sampleSize)
    ensures forall s :: s in steamids ==> s != "" && IsProfilePublic(summaryOf(s)) && Authored(fetched, s)
    ensures Admissions(passes, fetched, summaryOf, sampleSize, Union(passes, summaryOf))
    ensures forall s :: s in steamids ==> s in Union(passes, summaryOf)
    ensures |steamids| == Min(Max(0, sampleSize), |Union(passes, summaryOf)|)
  {
    var sampled;
    sampled, trace, fetched, passes := RunPasses(pages, summaryOf, now, sampleSize, initialMonths, maxAttempts, |languages|);
    AdmissionsUnion(passes, fetched, summaryOf, sampleSize, sampled);
    TraceCount(trace, |languages|, maxAttempts, initialMonths, EarlyFloor(sampleSize));
    FetchedInWindow(pages, trace, fetched, now, sampleSize);
    steamids := SampleList(sampled, sampleSize);
  }

  /** The `while` loop of the collector's sampler (collect_game_data_and_reviews.py:205-239),
      over `languages` languages. The loop condition is line 210; `LoopStep` is one iteration
      (lines 211-239). Within it, `RecordPass` is the pass itself (lines 211-229: the window,
      the fetch, the candidates and the admissions), the early `break` is line 230, and
      `NextPass` is the move to the next attempt or language (lines 232-239). `LoopControl`,
      with `ControlStep` and `ControlExit`, ties the counters to the pass log, and `History`
      ties the sample to the admission log. */
  method RunPasses(pages: seq<seq<PageReply>>, summaryOf: SteamId -> Response<seq<Player>>,
                   now: int, sampleSize: int, initialMonths: int, maxAttempts: nat, languages: nat)
    returns (sampled: set<SteamId>, trace: seq<Attempt>, fetched: seq<seq<Review>>, passes: seq<Pass>)
    requires languages > 0
    ensures trace == [] <==> maxAttempts == 0 || sampleSize <= 0
    ensures TraceShape(trace, languages, maxAttempts, initialMonths, EarlyFloor(sampleSize))
    ensures trace != [] ==>
      && trace[|trace| - 1].sampledAfter == |sampled| <= sampleSize
      && (trace[|trace| - 1].sampledAfter >= EarlyFloor(sampleSize) ||
          (trace[|trace| - 1].attempt == maxAttempts - 1 && trace[|trace| - 1].language == languages - 1))
    ensures trace == [] ==> sampled == {}
    ensures History(pages, summaryOf, now, sampleSize, trace, fetched, passes, sampled)
  {
    StartState(pages, summaryOf, now, sampleSize, initialMonths, maxAttempts, languages);
    var attempts: nat := 0;
    sampled := {};
    var monthsBack := initialMonths;
    var langIdx: nat := 0;
    trace, fetched, passes := [], [], [];
    var early := false;
    while attempts < maxAttempts && |sampled| < sampleSize
      invariant Looping(pages, summaryOf, now, sampleSize, initialMonths, maxAttempts, languages,
                        trace, fetched, passes, sampled, langIdx, attempts, monthsBack)
      decreases languages - langIdx, maxAttempts - attempts
    {
      var stop;
      trace, fetched, passes, sampled, langIdx, attempts, monthsBack, stop :=
        LoopStep(pages, summaryOf, now, sampleSize, initialMonths, maxAttempts, languages,
                 trace, fetched, passes, sampled, langIdx, attempts, monthsBack);
      if stop {
        early := true;
        break;
      }
    }
    if !early {
      ControlExit(trace, langIdx, attempts, |sampled|, sampleSize, languages, maxAttempts, initialMonths);
    }
  }

  /** `list(steamids_set)[:SAMPLE_SIZE]`: at most `sampleSize` of the sampled ids, each once,
      and all of them when there are no more. */
  method SampleList(sampled: set<SteamId>, sampleSize: int) returns (steamids: seq<SteamId>)
    ensures Distinct(steamids)
    ensures forall s :: s in steamids ==> s in sampled
    ensures |steamids| == if sampleSize >= 0 then Min(sampleSize, |sampled|) else Max(0, |sampled| + sampleSize)
  {
    var all := ListOf(sampled);
    steamids := TakePrefix(all, sampleSize);
    forall i, j | 0 <= i < j < |steamids| ensures steamids[i] != steamids[j] {
      assert steamids[i] == all[i] && steamids[j] == all[j];
    }
    forall s | s in steamids ensures s in sampled {
      var i :| 0 <= i < |steamids| && steamids[i] == s;
      assert all[i] == s;
    }
  }

  // ------------------------------------------------------------ the single-game sampler

  /** The state of the one-pass loop after the reviews `seen`: `steamids` holds, in order, the
      public profiles among the candidates of `seen`; `checked` logs every id whose profile was
      requested, a private one as often as it came up, a public one once; and the ids requested
      are exactly the non-empty reviewer ids of `seen`. */
  ghost predicate OnePassState(seen: seq<Review>, steamids: seq<SteamId>, checked: seq<SteamId>,
                               summaryOf: SteamId -> Response<seq<Player>>) {
    && steamids == Filter(Candidates(seen, {}), PublicBy(summaryOf))
    && steamids == Filter(checked, PublicBy(summaryOf))
    && PublicOnce(checked, summaryOf)
    && RequestedIds(seen, checked)
  }

  /** No public id was requested twice. */
  predicate PublicOnce(checked: seq<SteamId>, summaryOf: SteamId -> Response<seq<Player>>) {
    forall i, j :: 0 <= i < j < |checked| && checked[i] == checked[j] ==> !IsProfilePublic(summaryOf(checked[i]))
  }

  /** The ids requested are the non-empty reviewer ids of `seen`. */
  ghost predicate RequestedIds(seen: seq<Review>, checked: seq<SteamId>) {
    forall c :: c in checked <==> c != "" && WroteOne(seen, c)
  }

  /** One iteration of the one-pass loop on review `rev`: a non-empty id not yet admitted is
      requested, and admitted when its profile is public. */
  function Visit(steamids: seq<SteamId>, checked: seq<SteamId>, rev: Review,
                 summaryOf: SteamId -> Response<seq<Player>>): (seq<SteamId>, seq<SteamId>) {
    var sid := AuthorId(rev);
    if sid.Some? && sid.value != "" && sid.value !in steamids then
      (if IsProfilePublic(summaryOf(sid.value)) then steamids + [sid.value] else steamids,
       checked + [sid.value])
    else (steamids, checked)
  }

  lemma WroteOneSnoc(seen: seq<Review>, rev: Review, c: SteamId)
    ensures WroteOne(seen + [rev], c) <==> WroteOne(seen, c) || AuthorId(rev) == Some(c)
  {
    var post := seen + [rev];
    if WroteOne(seen, c) {
      var k :| 0 <= k < |seen| && AuthorId(seen[k]) == Some(c);
      assert post[k] == seen[k];
    }
    if WroteOne(post, c) {
      var k :| 0 <= k < |post| && AuthorId(post[k]) == Some(c);
      if k < |seen| {
        assert seen[k] == post[k];
      }
    }
    assert post[|seen|] == rev;
  }

  /** The candidates after one more review. */
  lemma CandidatesSnoc(seen: seq<Review>, rev: Review)
    ensures Candidates(seen + [rev], {}) ==
      if HasAuthorId(rev) && AuthorId(rev).value !in Candidates(seen, {})
      then Candidates(seen, {}) + [AuthorId(rev).value] else Candidates(seen, {})
  {
    var post := seen + [rev];
    assert post[..|seen|] == seen && post[|seen|] == rev;
  }

  lemma VisitKeepsAdmitted(seen: seq<Review>, rev: Review, steamids: seq<SteamId>, checked: seq<SteamId>,
                           summaryOf: SteamId -> Response<seq<Player>>)
    requires steamids == Filter(Candidates(seen, {}), PublicBy(summaryOf))
    ensures Visit(steamids, checked, rev, summaryOf).0 == Filter(Candidates(seen + [rev], {}), PublicBy(summaryOf))
  {
    var prev := Candidates(seen, {});
    CandidatesSnoc(seen, rev);
    var sid := AuthorId(rev);
    if HasAuthorId(rev) && sid.value !in prev {
      FilterAppend(prev, [sid.value], PublicBy(summaryOf));
    }
  }

  lemma VisitKeepsLog(rev: Review, steamids: seq<SteamId>, checked: seq<SteamId>,
                      summaryOf: SteamId -> Response<seq<Player>>)
    requires steamids == Filter(checked, PublicBy(summaryOf))
    requires PublicOnce(checked, summaryOf)
    ensures var (s, c) := Visit(steamids, checked, rev, summaryOf);
      s == Filter(c, PublicBy(summaryOf)) && PublicOnce(c, summaryOf)
  {
    var sid := AuthorId(rev);
    if sid.Some? && sid.value != "" && sid.value !in steamids {
      var v := sid.value;
      FilterAppend(checked, [v], PublicBy(summaryOf));
      var c := checked + [v];
      forall i, j | 0 <= i < j < |c| && c[i] == c[j] ensures !IsProfilePublic(summaryOf(c[i])) {
        if j < |checked| {
          assert c[i] == checked[i] && c[j] == checked[j];
        }
      }
    }
  }

  lemma VisitKeepsRequested(seen: seq<Review>, rev: Review, steamids: seq<SteamId>, checked: seq<SteamId>,
                            summaryOf: SteamId -> Response<seq<Player>>)
    requires RequestedIds(seen, checked)
    requires steamids == Filter(checked, PublicBy(summaryOf))
    ensures RequestedIds(seen + [rev], Visit(steamids, checked, rev, summaryOf).1)
  {
    var sid := AuthorId(rev);
    var c := Visit(steamids, checked, rev, summaryOf).1;
    forall x ensures x in c <==> x != "" && WroteOne(seen + [rev], x) {
      WroteOneSnoc(seen, rev, x);
    }
  }

  /** An iteration keeps the loop state. */
  lemma VisitKeeps(reviews: seq<Review>, p: nat, steamids: seq<SteamId>, checked: seq<SteamId>,
                   summaryOf: SteamId -> Response<seq<Player>>)
    requires p < |reviews|
    requires OnePassState(reviews[..p], steamids, checked, summaryOf)
    ensures var (s, c) := Visit(steamids, checked, reviews[p], summaryOf); OnePassState(reviews[..p + 1], s, c, summaryOf)
  {
    assert reviews[..p + 1] == reviews[..p] + [reviews[p]];
    VisitKeepsAfter(reviews[..p], reviews[p], steamids, checked, summaryOf);
  }

  /** An iteration on one more review keeps the loop state. */
  lemma VisitKeepsAfter(seen: seq<Review>, rev: Review, steamids: seq<SteamId>, checked: seq<SteamId>,
                        summaryOf: SteamId -> Response<seq<Player>>)
    requires OnePassState(seen, steamids, checked, summaryOf)
    ensures var (s, c) := Visit(steamids, checked, rev, summaryOf); OnePassState(seen + [rev], s, c, summaryOf)
  {
    VisitKeepsAdmitted(seen, rev, steamids, checked, summaryOf);
    VisitKeepsLog(rev, steamids, checked, summaryOf);
    VisitKeepsRequested(seen, rev, steamids, checked, summaryOf);
  }

  /** The one-pass loop of the single-game sampler over the reviews of one window: an id is
      checked when it is non-empty and not yet admitted, admitted when its profile is public,
      and the loop leaves once `sampleSize` ids are admitted. `checked` lists the ids whose
      profile was requested and `processed` counts the reviews looked at. */
  method SampleOnePass(reviews: seq<Review>, summaryOf: SteamId -> Response<seq<Player>>, sampleSize: int)
    returns (steamids: seq<SteamId>, checked: seq<SteamId>, processed: nat)
    ensures processed <= |reviews|
    ensures OnePassState(reviews[..processed], steamids, checked, summaryOf)
    ensures processed < |reviews| ==> |steamids| >= sampleSize
    ensures |steamids| <= Max(sampleSize, 1)
  {
    steamids, checked := [], [];
    processed := 0;
    while processed < |reviews|
      invariant processed <= |reviews|
      invariant OnePassState(reviews[..processed], steamids, checked, summaryOf)
      invariant processed == 0 ==> steamids == []
      invariant processed > 0 ==> |steamids| < sampleSize
    {
      VisitKeeps(reviews, processed, steamids, checked, summaryOf);
      ghost var next := Visit(steamids, checked, reviews[processed], summaryOf);
      var sid := AuthorId(reviews[processed]);
      if sid.Some? && sid.value != "" && sid.value !in steamids {
        if IsProfilePublic(summaryOf(sid.value)) {
          steamids := steamids + [sid.value];
        }
        checked := checked + [sid.value];
      }
      assert (steamids, checked) == next;
      processed := processed + 1;
      if |steamids| >= sampleSize {
        break;
      }
    }
  }
}
