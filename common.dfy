/** Wrappers and HTTP status handling shared by every collection script. */
module Common {

  datatype Option<+T> = None | Some(value: T) {
    /** The value, or `d` when absent: Python's `d.get(key, default)`. */
    function GetOr(d: T): T {
      match this
      case Some(v) => v
      case None => d
    }
  }

  /** Why a call raised instead of returning. */
  datatype Error =
    | HttpError(status: int)   // `raise_for_status` on a 4xx/5xx reply
    | RequestFailed            // connection error, timeout or a body that is not JSON
    | NoSearchHits             // `ValueError("No Steam app found ...")`
    | MissingKey               // `KeyError` on `r["author"]["steamid"]`
    | EmptySheet               // `df.iloc[0]` on a sheet without rows
    | NotAnInteger             // `int(key)` on a key that is not a decimal number
    | WrongType                // `.keys()` / `.split()` / `.get()` on a value of the wrong JSON type

  datatype Result<+T> = Ok(value: T) | Err(error: Error)

  /** What `requests`' `Response.ok` and `raise_for_status` agree on: a status outside 400..599. */
  predicate IsOk(status: int) {
    !(400 <= status < 600)
  }

  /** A reply whose body has been decoded. */
  datatype Response<T> = Response(status: int, body: T)

  function Min(a: int, b: int): int { if a <= b then a else b }
  function Max(a: int, b: int): int { if a <= b then b else a }

  /** The element of a sequence, or `d` past its end. */
  function At<T>(s: seq<T>, i: nat, d: T): T {
    if i < |s| then s[i] else d
  }

  /** Python's `xs[:n]`: the first `n` elements, or all but the last `-n` when `n` is negative. */
  function TakePrefix<T>(xs: seq<T>, n: int): (r: seq<T>)
    ensures r <= xs
    ensures |r| == if n >= 0 then Min(n, |xs|) else Max(0, |xs| + n)
  {
    if n >= |xs| then xs
    else if n >= 0 then xs[..n]
    else if |xs| + n <= 0 then []
    else xs[..|xs| + n]
  }

  predicate Distinct<T(==)>(s: seq<T>) {
    forall i, j :: 0 <= i < j < |s| ==> s[i] != s[j]
  }

  /** A non-empty sequence is its front followed by its last element. */
  lemma InitLast<T>(s: seq<T>)
    requires s != []
    ensures s == s[..|s| - 1] + [s[|s| - 1]]
  {
  }

  /** Without its last element a sequence without repeats still has none, and does not hold
      that element. */
  lemma DistinctInit<T>(s: seq<T>)
    requires Distinct(s) && s != []
    ensures Distinct(s[..|s| - 1]) && s[|s| - 1] !in s[..|s| - 1]
  {
    var init := s[..|s| - 1];
    forall i, j | 0 <= i < j < |init| ensures init[i] != init[j] {
      assert init[i] == s[i] && init[j] == s[j];
    }
    forall i | 0 <= i < |init| ensures init[i] != s[|s| - 1] {
      assert init[i] == s[i];
    }
  }

  /** The elements of `s` that satisfy `p`, in order (a list comprehension with an `if`). */
  function Filter<T(!new)>(s: seq<T>, p: T -> bool): (r: seq<T>)
    ensures |r| <= |s|
    ensures forall x :: x in r <==> x in s && p(x)
  {
    if s == [] then []
    else (if p(s[0]) then [s[0]] else []) + Filter(s[1..], p)
  }

  lemma {:induction false} FilterAppend<T(!new)>(s: seq<T>, t: seq<T>, p: T -> bool)
    ensures Filter(s + t, p) == Filter(s, p) + Filter(t, p)
  {
    if s == [] {
      assert s + t == t;
    } else {
      assert (s + t)[1..] == s[1..] + t;
      FilterAppend(s[1..], t, p);
    }
  }

  lemma {:induction false} FilterDistinct<T(!new)>(s: seq<T>, p: T -> bool)
    requires Distinct(s)
    ensures Distinct(Filter(s, p))
  {
    if s != [] {
      FilterDistinct(s[1..], p);
      assert s[0] !in s[1..];
    }
  }

  /** A dictionary in insertion order, as `dict.items()` iterates it. */
  type Assoc<K, V> = seq<(K, V)>

  /** `d.get(k)`: the value stored under `k`, the first entry when a key repeats. */
  function Lookup<K(==), V>(d: Assoc<K, V>, k: K): (r: Option<V>)
    ensures r.Some? ==> (k, r.value) in d
  {
    if d == [] then None
    else if d[0].0 == k then Some(d[0].1)
    else Lookup(d[1..], k)
  }

  /** Without repeated keys, each entry is what its key reads. */
  lemma {:induction false} LookupAt<K, V>(d: Assoc<K, V>, i: nat)
    requires DistinctKeys(d) && i < |d|
    ensures Lookup(d, d[i].0) == Some(d[i].1)
  {
    if i > 0 {
      assert DistinctKeys(d[1..]);
      LookupAt(d[1..], i - 1);
      assert d[0].0 != d[i].0;
    }
  }

  /** `k in d`: some entry has the key `k`. */
  lemma {:induction false} LookupFound<K, V>(d: Assoc<K, V>, k: K)
    ensures Lookup(d, k).Some? <==> exists i :: 0 <= i < |d| && d[i].0 == k
  {
    if d != [] && d[0].0 != k {
      LookupFound(d[1..], k);
      if exists i :: 0 <= i < |d| && d[i].0 == k {
        var i :| 0 <= i < |d| && d[i].0 == k;
        assert d[1..][i - 1].0 == k;
      }
    }
  }


  function Keys<K, V>(d: Assoc<K, V>): (r: seq<K>)
    ensures |r| == |d|
    ensures forall i :: 0 <= i < |d| ==> r[i] == d[i].0
  {
    if d == [] then [] else [d[0].0] + Keys(d[1..])
  }

  predicate DistinctKeys<K(==), V>(d: Assoc<K, V>) {
    forall i, j :: 0 <= i < j < |d| ==> d[i].0 != d[j].0
  }

  /** `d[k] = v`: a key already present keeps its place and takes the new value, a new key
      goes last. */
  function Put<K(==), V>(d: Assoc<K, V>, k: K, v: V): (r: Assoc<K, V>)
    ensures |r| == |d| || (|r| == |d| + 1 && r[|d|] == (k, v))
    ensures forall i :: 0 <= i < |d| ==> r[i].0 == d[i].0
  {
    if d == [] then [(k, v)]
    else if d[0].0 == k then [(k, v)] + d[1..]
    else [d[0]] + Put(d[1..], k, v)
  }

  /** After `d[k] = v`, `k` reads `v`, every other key reads what it did, and the dictionary
      grows exactly when `k` is new. */
  lemma {:induction false} PutLookup<K(!new), V>(d: Assoc<K, V>, k: K, v: V)
    ensures var r := Put(d, k, v);
      && Lookup(r, k) == Some(v)
      && (forall k' :: k' != k ==> Lookup(r, k') == Lookup(d, k'))
      && (|r| == |d| <==> Lookup(d, k).Some?)
  {
    if d != [] && d[0].0 != k {
      PutLookup(d[1..], k, v);
    }
  }

  /** `d[k] = v` read back at one key. */
  lemma {:induction false} PutLookupAt<K(!new), V>(d: Assoc<K, V>, k: K, v: V, x: K)
    ensures Lookup(Put(d, k, v), x) == if x == k then Some(v) else Lookup(d, x)
  {
    if d != [] && d[0].0 != k {
      PutLookupAt(d[1..], k, v, x);
    }
  }

  /** The keys present after `d[k] = v`: those before, and `k`. */
  lemma PutSeen<K(!new), V>(d: Assoc<K, V>, ks: seq<K>, k: K, v: V)
    requires forall x :: Lookup(d, x).Some? <==> x in ks
    ensures forall x :: Lookup(Put(d, k, v), x).Some? <==> x in ks + [k]
  {
    forall x ensures Lookup(Put(d, k, v), x).Some? <==> x in ks + [k] {
      PutLookupAt(d, k, v, x);
    }
  }

  /** A new key goes to the end: `d[k] = v` then lists the old keys followed by `k`. */
  lemma {:induction false} PutNewKeys<K(!new), V>(d: Assoc<K, V>, k: K, v: V)
    requires Lookup(d, k).None?
    ensures Keys(Put(d, k, v)) == Keys(d) + [k]
  {
    if d != [] {
      assert d[0].0 != k;
      PutNewKeys(d[1..], k, v);
      assert Put(d, k, v) == [d[0]] + Put(d[1..], k, v);
    }
  }

  /** A new key put after keys `init` added to `d` extends them by that key. */
  lemma PutAfter<K(!new), V>(d: Assoc<K, V>, prev: Assoc<K, V>, init: seq<K>, k: K, v: V)
    requires Keys(prev) == Keys(d) + init && Lookup(prev, k).None?
    ensures Keys(Put(prev, k, v)) == Keys(d) + (init + [k])
  {
    PutNewKeys(prev, k, v);
  }

  /** `d[k] = v` keeps the keys distinct. */
  lemma {:induction false} PutDistinct<K(!new), V>(d: Assoc<K, V>, k: K, v: V)
    requires DistinctKeys(d)
    ensures DistinctKeys(Put(d, k, v))
  {
    if d != [] && d[0].0 != k {
      PutDistinct(d[1..], k, v);
      var r := Put(d, k, v);
      assert r[1..] == Put(d[1..], k, v);
      forall i, j | 0 <= i < j < |r| ensures r[i].0 != r[j].0 {
        if i > 0 {
          assert r[i].0 == r[1..][i - 1].0 && r[j].0 == r[1..][j - 1].0;
        } else if j < |d| {
          assert r[j].0 == d[j].0;
        }
      }
    }
  }

  /** `del d[k]` when `k` is present (and a no-op when it is not): every entry under `k` goes. */
  function Remove<K(==,!new), V(!new)>(d: Assoc<K, V>, k: K): (r: Assoc<K, V>)
    ensures Lookup(r, k) == None
    ensures forall k' :: k' != k ==> Lookup(r, k') == Lookup(d, k')
    ensures forall e :: e in r <==> e in d && e.0 != k
    ensures DistinctKeys(d) ==> DistinctKeys(r)
  {
    if d == [] then []
    else if d[0].0 == k then Remove(d[1..], k)
    else [d[0]] + Remove(d[1..], k)
  }

  /** The elements of `s` with repeats dropped, each where it first occurs. */
  function Dedup<T(==,!new)>(s: seq<T>): (r: seq<T>)
    ensures Distinct(r)
    ensures forall x :: x in r <==> x in s
  {
    if s == [] then []
    else
      var d := Dedup(s[..|s| - 1]);
      assert forall x :: x in s <==> x in s[..|s| - 1] || x == s[|s| - 1];
      if s[|s| - 1] in d then d else d + [s[|s| - 1]]
  }

  /** A sequence without repeats is its own de-duplication. */
  lemma {:induction false} DedupDistinct<T(!new)>(s: seq<T>)
    requires Distinct(s)
    ensures Dedup(s) == s
  {
    if s != [] {
      DedupDistinct(s[..|s| - 1]);
      assert s == s[..|s| - 1] + [s[|s| - 1]];
    }
  }

  /** A key is listed by `Keys` exactly when `Lookup` finds it. */
  lemma KeysLookup<K, V>(d: Assoc<K, V>, k: K)
    ensures k in Keys(d) <==> Lookup(d, k).Some?
  {
    var ks := Keys(d);
    if k in ks {
      var i :| 0 <= i < |ks| && ks[i] == k;
      assert d[i].0 == k;
    }
    if Lookup(d, k).Some? {
      var i :| 0 <= i < |d| && d[i].0 == k;
      assert ks[i] == k;
    }
  }

  /** The keys listed are the keys present, each once. */
  lemma KeysPresent<K, V>(d: Assoc<K, V>, ks: seq<K>)
    requires DistinctKeys(d)
    requires forall x :: Lookup(d, x).Some? <==> x in ks
    ensures Distinct(Keys(d))
    ensures forall x :: x in Keys(d) <==> x in ks
  {
    forall x ensures x in Keys(d) <==> x in ks {
      KeysLookup(d, x);
    }
  }

  /** `d.update(es)`: each entry of `es` put in turn. */
  function Update<K(==), V>(d: Assoc<K, V>, es: Assoc<K, V>): Assoc<K, V>
    decreases |es|
  {
    if es == [] then d else Update(Put(d, es[0].0, es[0].1), es[1..])
  }

  /** After the update a key reads the last value `es` gives it, or what it read before; with
      distinct keys in `es` that is its only value there. */
  lemma {:induction false} UpdateLookup<K(!new), V>(d: Assoc<K, V>, es: Assoc<K, V>, c: K)
    requires DistinctKeys(es)
    ensures Lookup(Update(d, es), c) == if Lookup(es, c).Some? then Lookup(es, c) else Lookup(d, c)
    decreases |es|
  {
    if es != [] {
      var k := es[0].0;
      PutLookup(d, k, es[0].1);
      assert DistinctKeys(es[1..]);
      UpdateLookup(Put(d, k, es[0].1), es[1..], c);
      if c == k {
        forall i | 0 <= i < |es| - 1 ensures es[1..][i].0 != c {
          assert es[1..][i] == es[i + 1];
        }
      }
    }
  }

  /** The keys after an update are the old ones and those of `es`. */
  lemma {:induction false} UpdateKeys<K(!new), V>(d: Assoc<K, V>, es: Assoc<K, V>, c: K)
    ensures Lookup(Update(d, es), c).Some? <==> Lookup(d, c).Some? || Lookup(es, c).Some?
    decreases |es|
  {
    if es != [] {
      PutLookup(d, es[0].0, es[0].1);
      UpdateKeys(Put(d, es[0].0, es[0].1), es[1..], c);
    }
  }
}
