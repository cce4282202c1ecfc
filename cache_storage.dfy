/** The cache store a service worker sees: the CacheStorage name-to-cache map of
    section 5.5 of the W3C Service Workers specification, each cache (section 5.4) a
    map from request URL to stored response. Only the operations the offline cache
    controller uses are modelled: open, put, addAll, delete and the cross-cache match. */
module CacheStorage {
  import opened Wrappers

  /** The `type` of a fetch response, as the Fetch Standard names it. */
  datatype ResponseType = Basic | Cors | Default | Error | Opaque | OpaqueRedirect

  /** A response as a plain value: reading or cloning it gives an equal value, so the
      copy written to a cache and the response handed to the page are the same value. */
  datatype Response = Response(status: int, kind: ResponseType, body: string)

  /** What a call to `fetch` gives: a response (absent only in principle) or a rejection. */
  datatype FetchResult = Arrived(response: Option<Response>) | NetworkFailure

  /** One named cache: request URL to stored response. */
  datatype Bucket = Bucket(name: string, entries: map<string, Response>)

  predicate DistinctNames(s: seq<Bucket>) {
    forall i, j :: 0 <= i < j < |s| ==> s[i].name != s[j].name
  }

  /** The name-to-cache map, in creation order; a name names at most one cache. */
  type Storage = s: seq<Bucket> | DistinctNames(s) witness []

  predicate HasBucket(s: Storage, name: string) {
    exists i :: 0 <= i < |s| && s[i].name == name
  }

  /** The entries of the cache called `name`, if there is one. */
  function Lookup(s: Storage, name: string): (r: Option<map<string, Response>>)
    ensures r.Some? <==> HasBucket(s, name)
    ensures r.Some? ==> exists i :: 0 <= i < |s| && s[i] == Bucket(name, r.value)
  {
    if s == [] then None
    else if s[0].name == name then Some(s[0].entries)
    else
      var r := Lookup(s[1..], name);
      assert HasBucket(s, name) ==> HasBucket(s[1..], name) by {
        if HasBucket(s, name) {
          var i :| 0 <= i < |s| && s[i].name == name;
          assert i > 0 && s[1..][i - 1].name == name;
        }
      }
      assert r.Some? ==> exists i :: 0 <= i < |s| && s[i] == Bucket(name, r.value) by {
        if r.Some? {
          var i :| 0 <= i < |s[1..]| && s[1..][i] == Bucket(name, r.value);
          assert s[i + 1] == Bucket(name, r.value);
        }
      }
      r
  }

  /** Lookup finds the one cache of that name. */
  lemma {:induction false} LookupAt(s: Storage, i: nat)
    requires i < |s|
    ensures Lookup(s, s[i].name) == Some(s[i].entries)
  {
    if i > 0 {
      LookupAt(s[1..], i - 1);
    }
  }

  /** A request URL held by some cache. */
  predicate Cached(s: Storage, key: string) {
    exists i :: 0 <= i < |s| && key in s[i].entries
  }

  /** `caches.match(key)` (section 5.5 of the W3C Service Workers specification): the
      entry of the first cache, in creation order, that holds `key`, or nothing. */
  function MatchAll(s: Storage, key: string): (r: Option<Response>)
    ensures r.Some? <==> Cached(s, key)
    ensures r.Some? ==>
      exists i :: 0 <= i < |s| && key in s[i].entries && s[i].entries[key] == r.value
        && forall j :: 0 <= j < i ==> key !in s[j].entries
  {
    if s == [] then None
    else if key in s[0].entries then Some(s[0].entries[key])
    else
      var r := MatchAll(s[1..], key);
      assert Cached(s, key) ==> Cached(s[1..], key) by {
        if Cached(s, key) {
          var i :| 0 <= i < |s| && key in s[i].entries;
          assert i > 0 && key in s[1..][i - 1].entries;
        }
      }
      assert r.Some? ==>
        exists i :: 0 <= i < |s| && key in s[i].entries && s[i].entries[key] == r.value
          && forall j :: 0 <= j < i ==> key !in s[j].entries
      by {
        if r.Some? {
          var i :| 0 <= i < |s[1..]| && key in s[1..][i].entries && s[1..][i].entries[key] == r.value
            && forall j :: 0 <= j < i ==> key !in s[1..][j].entries;
          assert forall j :: 0 <= j < i + 1 ==> key !in s[j].entries by {
            forall j | 0 <= j < i + 1 ensures key !in s[j].entries {
              if j > 0 { assert s[j] == s[1..][j - 1]; }
            }
          }
        }
      }
      r
  }

  /** `caches.open(name)`: the cache called `name`, created empty at the end of the
      creation order when there is none; no existing cache changes. */
  function Open(s: Storage, name: string): (r: Storage)
    ensures Lookup(r, name) == Some(Lookup(s, name).GetOr(map[]))
    ensures forall n :: n != name ==> Lookup(r, n) == Lookup(s, n)
    ensures |s| <= |r| <= |s| + 1 && r[..|s|] == s
    ensures forall key :: MatchAll(r, key) == MatchAll(s, key)
  {
    if HasBucket(s, name) then s
    else
      var r: Storage := s + [Bucket(name, map[])];
      LookupAppend(s, Bucket(name, map[]));
      MatchAllAppendEmpty(s, name);
      r
  }

  lemma {:induction false} LookupAppend(s: Storage, b: Bucket)
    requires !HasBucket(s, b.name)
    ensures DistinctNames(s + [b])
    ensures Lookup(s + [b], b.name) == Some(b.entries)
    ensures forall n :: n != b.name ==> Lookup(s + [b], n) == Lookup(s, n)
  {
    var t: Storage := s + [b];
    LookupAt(t, |s|);
    forall n | n != b.name ensures Lookup(t, n) == Lookup(s, n) {
      if s != [] {
        assert t[1..] == s[1..] + [b];
        LookupAppend(s[1..], b);
      }
    }
  }

  lemma {:induction false} MatchAllAppendEmpty(s: Storage, name: string)
    requires !HasBucket(s, name)
    ensures DistinctNames(s + [Bucket(name, map[])])
    ensures forall key :: MatchAll(s + [Bucket(name, map[])], key) == MatchAll(s, key)
  {
    var b := Bucket(name, map[]);
    var t: Storage := s + [b];
    if s != [] {
      assert t[1..] == s[1..] + [b];
      MatchAllAppendEmpty(s[1..], name);
    }
  }

  /** `cache.put` of every entry of `added` into the cache called `name`: those keys are
      overwritten, every other key and every other cache is unchanged. */
  function PutEntries(s: Storage, name: string, added: map<string, Response>): (r: Storage)
    ensures |r| == |s| && forall i :: 0 <= i < |s| ==> r[i].name == s[i].name
    ensures Lookup(r, name) == (if HasBucket(s, name) then Some(Lookup(s, name).value + added) else None)
    ensures forall n :: n != name ==> Lookup(r, n) == Lookup(s, n)
  {
    var r: Storage := seq(|s|, i requires 0 <= i < |s| =>
      if s[i].name == name then Bucket(name, s[i].entries + added) else s[i]);
    forall n ensures Lookup(r, n) == if n == name && HasBucket(s, name) then Some(Lookup(s, name).value + added) else Lookup(s, n) {
      LookupSameNames(s, r, n);
      if HasBucket(s, n) {
        var i :| 0 <= i < |s| && s[i].name == n;
        LookupAt(s, i);
        LookupAt(r, i);
      }
    }
    r
  }

  /** Each cache of the store after `PutEntries`, place by place. */
  lemma PutEntriesAt(s: Storage, name: string, added: map<string, Response>)
    ensures var r := PutEntries(s, name, added);
      forall i :: 0 <= i < |s| ==> r[i].entries == if s[i].name == name then s[i].entries + added else s[i].entries
  {
    var r := PutEntries(s, name, added);
    forall i | 0 <= i < |s| ensures r[i].entries == if s[i].name == name then s[i].entries + added else s[i].entries {
      LookupAt(s, i);
      LookupAt(r, i);
    }
  }

  /** Two stores with the same names in the same places have the same caches. */
  lemma LookupSameNames(s: Storage, r: Storage, n: string)
    requires |r| == |s| && forall i :: 0 <= i < |s| ==> r[i].name == s[i].name
    ensures HasBucket(r, n) <==> HasBucket(s, n)
  {
    if HasBucket(r, n) {
      var i :| 0 <= i < |r| && r[i].name == n;
      assert s[i].name == n;
    }
  }

  /** `cache.put(key, resp)` into the cache called `name`: the caches keep their names
      and places, and the cross-cache match of every other URL is unchanged. */
  function Put(s: Storage, name: string, key: string, resp: Response): (r: Storage)
    ensures |r| == |s| && forall i :: 0 <= i < |s| ==> r[i].name == s[i].name
    ensures Lookup(r, name) == (if HasBucket(s, name) then Some(Lookup(s, name).value[key := resp]) else None)
    ensures forall n :: n != name ==> Lookup(r, n) == Lookup(s, n)
    ensures forall k :: k != key ==> MatchAll(r, k) == MatchAll(s, k)
  {
    var r := PutEntries(s, name, map[key := resp]);
    assert HasBucket(s, name) ==> Lookup(s, name).value + map[key := resp] == Lookup(s, name).value[key := resp] by {
      if HasBucket(s, name) {
        MergeOne(Lookup(s, name).value, key, resp);
      }
    }
    PutKeepsOtherMatches(s, name, key, resp);
    r
  }

  /** Merging a one-entry map is a single update. */
  lemma MergeOne(m: map<string, Response>, key: string, resp: Response)
    ensures m + map[key := resp] == m[key := resp]
  {
  }

  /** Writing `key` leaves the cross-cache match of every other URL as it was. */
  lemma PutKeepsOtherMatches(s: Storage, name: string, key: string, resp: Response)
    ensures forall k :: k != key ==> MatchAll(PutEntries(s, name, map[key := resp]), k) == MatchAll(s, k)
  {
    var r := PutEntries(s, name, map[key := resp]);
    PutEntriesAt(s, name, map[key := resp]);
    forall k | k != key ensures MatchAll(r, k) == MatchAll(s, k) {
      MatchAllSameEntry(s, r, k);
    }
  }

  /** Two stores of the same length whose caches agree, place by place, on the entry
      for `key` give the same cross-cache match for it. */
  lemma {:induction false} MatchAllSameEntry(s: Storage, r: Storage, key: string)
    requires |r| == |s|
    requires forall i :: 0 <= i < |s| ==> (key in r[i].entries <==> key in s[i].entries)
    requires forall i :: 0 <= i < |s| && key in s[i].entries ==> r[i].entries[key] == s[i].entries[key]
    ensures MatchAll(r, key) == MatchAll(s, key)
  {
    if s != [] && key !in s[0].entries {
      MatchAllSameEntry(s[1..], r[1..], key);
    }
  }

  /** A put of a URL no cache holds is what the next cross-cache match finds. */
  lemma PutOnMiss(s: Storage, name: string, key: string, resp: Response)
    requires HasBucket(s, name) && !Cached(s, key)
    ensures MatchAll(Put(s, name, key, resp), key) == Some(resp)
  {
    var r := Put(s, name, key, resp);
    forall i | 0 <= i < |r| && key in r[i].entries ensures r[i].name == name {
      LookupAt(r, i);
      if r[i].name != name {
        assert false;
      }
    }
    forall i | 0 <= i < |r| && key in r[i].entries ensures r[i].entries[key] == resp {
      LookupAt(r, i);
    }
    var j :| 0 <= j < |r| && r[j] == Bucket(name, Lookup(r, name).value);
    assert key in r[j].entries;
  }

  /** The caches of `s` whose names are not in `dead`. */
  function Keep(s: Storage, dead: set<string>): (r: seq<Bucket>)
    ensures forall b :: b in r <==> b in s && b.name !in dead
    ensures DistinctNames(r)
  {
    if s == [] then []
    else
      var tail := Keep(s[1..], dead);
      if s[0].name in dead then tail
      else
        assert forall b :: b in tail ==> b.name != s[0].name by {
          forall b | b in tail ensures b.name != s[0].name {
            var i :| 0 <= i < |s[1..]| && s[1..][i] == b;
            assert s[i + 1] == b;
          }
        }
        var r := [s[0]] + tail;
        assert forall i :: 1 <= i < |r| ==> r[i] in tail;
        r
  }

  /** Deleting every cache whose name is in `dead` (each a `caches.delete`). */
  function Without(s: Storage, dead: set<string>): (r: Storage)
    ensures forall b :: b in r <==> b in s && b.name !in dead
    ensures forall n :: Lookup(r, n) == if n in dead then None else Lookup(s, n)
  {
    var r: Storage := Keep(s, dead);
    forall n ensures Lookup(r, n) == if n in dead then None else Lookup(s, n) {
      if HasBucket(r, n) {
        var j :| 0 <= j < |r| && r[j].name == n;
        assert r[j] in r;
        var i :| 0 <= i < |s| && s[i] == r[j];
        LookupAt(r, j);
        LookupAt(s, i);
      }
    }
    r
  }

  /** Deleting in two rounds is deleting the union at once. */
  lemma {:induction false} WithoutTwice(s: Storage, first: set<string>, second: set<string>)
    ensures Without(Without(s, first), second) == Without(s, first + second)
  {
    KeepTwice(s, first, second);
  }

  lemma {:induction false} KeepTwice(s: Storage, first: set<string>, second: set<string>)
    ensures Keep(Keep(s, first), second) == Keep(s, first + second)
  {
    if s != [] {
      KeepTwice(s[1..], first, second);
      if s[0].name !in first {
        var once := Keep(s, first);
        assert once[0] == s[0] && once[1..] == Keep(s[1..], first);
      }
    }
  }

  /** Deleting nothing changes nothing. */
  lemma {:induction false} WithoutNothing(s: Storage)
    ensures Without(s, {}) == s
  {
    KeepNothing(s);
  }

  lemma {:induction false} KeepNothing(s: Storage)
    ensures Keep(s, {}) == s
  {
    if s != [] {
      KeepNothing(s[1..]);
    }
  }

  /** Every name in the store other than `current`. */
  function StaleNames(s: Storage, current: string): (dead: set<string>)
    ensures current !in dead
    ensures forall i :: 0 <= i < |s| && s[i].name != current ==> s[i].name in dead
  {
    set i | 0 <= i < |s| && s[i].name != current :: s[i].name
  }

  /** The store after deleting every cache not called `current`. */
  function Pruned(s: Storage, current: string): (r: Storage)
    ensures forall i :: 0 <= i < |r| ==> r[i].name == current
    ensures Lookup(r, current) == Lookup(s, current)
    ensures |r| <= 1
  {
    var r := Without(s, StaleNames(s, current));
    assert |r| >= 2 ==> r[0].name != r[1].name;
    assert forall i :: 0 <= i < |r| ==> r[i].name == current by {
      forall i | 0 <= i < |r| ensures r[i].name == current {
        assert r[i] in r;
        var j :| 0 <= j < |s| && s[j] == r[i];
      }
    }
    r
  }

  /** Pruning a pruned store changes nothing. */
  lemma PrunedIdempotent(s: Storage, current: string)
    ensures Pruned(Pruned(s, current), current) == Pruned(s, current)
  {
    var once := Pruned(s, current);
    assert StaleNames(once, current) == {};
    WithoutNothing(once);
  }

  /** The pre-load fetches of `cache.addAll` that it accepts: a response arrived, it is
      not a network error, and its status is ok (200 to 299) and not 206 (section 5.4 of
      the W3C Service Workers specification). */
  predicate Storable(f: FetchResult): (st: bool)
    ensures st ==> f.Arrived? && f.response.Some?
    ensures f.Arrived? && f.response.Some? && !(200 <= f.response.value.status <= 299) ==> !st
    ensures f.Arrived? && f.response.Some? && f.response.value.status == 206 ==> !st
    ensures f.Arrived? && f.response.Some? && f.response.value.kind == Error ==> !st
    ensures f.Arrived? && f.response.Some? && f.response.value.status == 200 && f.response.value.kind == Basic ==> st
  {
    && f.Arrived? && f.response.Some?
    && f.response.value.kind != Error
    && 200 <= f.response.value.status <= 299 && f.response.value.status != 206
  }

  /** `cache.addAll(urls)` on the cache called `name`: all or nothing. When every fetch
      is accepted, each URL maps to its response; otherwise the store is left as it was. */
  function AddAll(s: Storage, name: string, urls: seq<string>, network: string -> FetchResult): (r: Option<Storage>)
    ensures r.Some? <==> forall u :: u in urls ==> Storable(network(u))
    ensures r.Some? ==> forall n :: n != name ==> Lookup(r.value, n) == Lookup(s, n)
    ensures r.Some? && HasBucket(s, name) ==>
      Lookup(r.value, name).Some?
      && Lookup(r.value, name).value.Keys == Lookup(s, name).value.Keys + (set u | u in urls)
      && (forall u :: u in urls ==> u in Lookup(r.value, name).value && Lookup(r.value, name).value[u] == network(u).response.value)
      && (forall k :: k in Lookup(s, name).value && k !in urls ==> k in Lookup(r.value, name).value && Lookup(r.value, name).value[k] == Lookup(s, name).value[k])
  {
    if forall u :: u in urls ==> Storable(network(u)) then
      Some(PutEntries(s, name, map u | u in urls :: network(u).response.value))
    else
      None
  }
}
