/** Resolving a game title to its Steam app id: the name-to-id dictionary lookups of the
    two collectors and the store-search lookup of the SteamSpy scripts. */
module AppLookup {
  import opened Common
  import opened Text

  /** `{app['name']: app['appid'] for app in apps}`, in dictionary order. */
  type AppsMap = Assoc<string, int>

  /** `''.join(ch.lower() for ch in name if ch.isalnum())` */
  function Normalize(name: string): (r: string)
    ensures |r| <= |name|
  {
    if name == [] then []
    else (if IsAlnum(name[0]) then [Lower(name[0])] else []) + Normalize(name[1..])
  }

  /** A normalised name is left as it is by normalising again. */
  lemma {:induction false} NormalizeIdempotent(name: string)
    ensures Normalize(Normalize(name)) == Normalize(name)
  {
    if name != [] {
      var head := if IsAlnum(name[0]) then [Lower(name[0])] else [];
      var tail := Normalize(name[1..]);
      NormalizeIdempotent(name[1..]);
      NormalizeAppend(head, tail);
      if head != [] {
        assert Normalize(head) == head by {
          assert head[1..] == [];
        }
      }
    }
  }

  lemma {:induction false} NormalizeAppend(s: string, t: string)
    ensures Normalize(s + t) == Normalize(s) + Normalize(t)
  {
    if s == [] {
      assert s + t == t;
    } else {
      var head := if IsAlnum(s[0]) then [Lower(s[0])] else [];
      assert (s + t)[0] == s[0];
      assert (s + t)[1..] == s[1..] + t;
      assert Normalize(s + t) == head + Normalize(s[1..] + t);
      NormalizeAppend(s[1..], t);
      assert Normalize(s) == head + Normalize(s[1..]);
    }
  }

  /** `k` is the position of the first entry whose name passes `matches`. */
  predicate FirstMatchAt(apps: AppsMap, matches: string -> bool, k: int) {
    0 <= k < |apps| && matches(apps[k].0) &&
    forall j :: 0 <= j < k ==> !matches(apps[j].0)
  }

  /** The `for n, aid in apps_map.items(): if ...: return aid` scan, `None` when it falls through. */
  function FirstMatch(apps: AppsMap, matches: string -> bool): Option<int> {
    if apps == [] then None
    else if matches(apps[0].0) then Some(apps[0].1)
    else FirstMatch(apps[1..], matches)
  }

  /** The scan returns the id of the first passing entry, and nothing only when no entry passes. */
  lemma {:induction false} FirstMatchSpec(apps: AppsMap, matches: string -> bool)
    ensures FirstMatch(apps, matches).None? <==> forall i :: 0 <= i < |apps| ==> !matches(apps[i].0)
    ensures FirstMatch(apps, matches).Some? ==>
      exists k :: FirstMatchAt(apps, matches, k) && apps[k].1 == FirstMatch(apps, matches).value
  {
    if apps != [] {
      if matches(apps[0].0) {
        assert FirstMatchAt(apps, matches, 0);
      } else {
        FirstMatchSpec(apps[1..], matches);
        if FirstMatch(apps[1..], matches).Some? {
          var k :| FirstMatchAt(apps[1..], matches, k) && apps[1..][k].1 == FirstMatch(apps[1..], matches).value;
          assert FirstMatchAt(apps, matches, k + 1);
        }
      }
    }
  }

  /** The fuzzy test of the collector: the normalised query is a substring of the normalised name. */
  predicate NormalizedContains(query: string, name: string) {
    Contains(Normalize(name), Normalize(query))
  }

  /** `find_appid` of the collector: a numeric title is the id itself, then an exact key,
      then the first name that contains the query once both are normalised. */
  function FindAppIdByName(apps: AppsMap, name: string): Option<int> {
    if IsDigits(name) then Some(ParseDigits(name))
    else match Lookup(apps, name)
      case Some(id) => Some(id)
      case None => FirstMatch(apps, n => NormalizedContains(name, n))
  }

  lemma FindAppIdByNameSpec(apps: AppsMap, name: string)
    ensures IsDigits(name) ==> FindAppIdByName(apps, name) == Some(ParseDigits(name))
    ensures !IsDigits(name) && (exists i :: 0 <= i < |apps| && apps[i].0 == name) ==>
      FindAppIdByName(apps, name).Some? && (name, FindAppIdByName(apps, name).value) in apps
    ensures !IsDigits(name) && (forall i :: 0 <= i < |apps| ==> apps[i].0 != name) ==>
      && (FindAppIdByName(apps, name).None? <==>
            forall i :: 0 <= i < |apps| ==> !NormalizedContains(name, apps[i].0))
      && (FindAppIdByName(apps, name).Some? ==>
            exists k :: FirstMatchAt(apps, n => NormalizedContains(name, n), k) &&
                        apps[k].1 == FindAppIdByName(apps, name).value)
  {
    LookupFound(apps, name);
    FirstMatchSpec(apps, n => NormalizedContains(name, n));
  }

  /** A query with no letters or digits normalises to the empty string, which every name
      contains: a non-empty dictionary then answers with its first id. */
  lemma PunctuationOnlyQuery(apps: AppsMap, name: string)
    requires !IsDigits(name) && |apps| > 0
    requires forall i :: 0 <= i < |apps| ==> apps[i].0 != name
    requires forall i :: 0 <= i < |name| ==> !IsAlnum(name[i])
    ensures FindAppIdByName(apps, name) == Some(apps[0].1)
  {
    assert Normalize(name) == [] by {
      NormalizeDropsAll(name);
    }
    assert NormalizedContains(name, apps[0].0);
  }

  lemma {:induction false} NormalizeDropsAll(name: string)
    requires forall i :: 0 <= i < |name| ==> !IsAlnum(name[i])
    ensures Normalize(name) == []
  {
    if name != [] {
      NormalizeDropsAll(name[1..]);
    }
  }

  /** The fuzzy test of the single-game sampler: case-insensitive substring. */
  predicate LowerContains(query: string, name: string) {
    Contains(LowerString(name), LowerString(query))
  }

  /** `find_appid` of the single-game sampler: an exact key, else the first name containing
      the query case-insensitively, else `None`. */
  function FindAppIdExactOrLower(apps: AppsMap, name: string): Option<int> {
    match Lookup(apps, name)
    case Some(id) => Some(id)
    case None => FirstMatch(apps, n => LowerContains(name, n))
  }

  lemma FindAppIdExactOrLowerSpec(apps: AppsMap, name: string)
    ensures (exists i :: 0 <= i < |apps| && apps[i].0 == name) ==>
      FindAppIdExactOrLower(apps, name).Some? && (name, FindAppIdExactOrLower(apps, name).value) in apps
    ensures (forall i :: 0 <= i < |apps| ==> apps[i].0 != name) ==>
      && (FindAppIdExactOrLower(apps, name).None? <==>
            forall i :: 0 <= i < |apps| ==> !LowerContains(name, apps[i].0))
      && (FindAppIdExactOrLower(apps, name).Some? ==>
            exists k :: FirstMatchAt(apps, n => LowerContains(name, n), k) &&
                        apps[k].1 == FindAppIdExactOrLower(apps, name).value)
  {
    LookupFound(apps, name);
    FirstMatchSpec(apps, n => LowerContains(name, n));
  }

  /** One hit of the store search. */
  datatype SearchItem = SearchItem(id: int, name: string)

  /** `find_app_id` of the SteamSpy scripts: the first search hit, `ValueError` without hits,
      and the HTTP error of a rejected reply. */
  function FindAppIdBySearch(reply: Response<seq<SearchItem>>): (r: Result<(int, string)>)
    ensures r.Ok? <==> IsOk(reply.status) && reply.body != []
    ensures r.Ok? ==> r.value == (reply.body[0].id, reply.body[0].name)
    ensures IsOk(reply.status) && reply.body == [] ==> r == Err(NoSearchHits)
    ensures !IsOk(reply.status) ==> r == Err(HttpError(reply.status))
  {
    if !IsOk(reply.status) then Err(HttpError(reply.status))
    else if reply.body == [] then Err(NoSearchHits)
    else Ok((reply.body[0].id, reply.body[0].name))
  }
}
