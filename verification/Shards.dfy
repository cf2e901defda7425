/** The v2 shard cache: choosing the shards from the signing config, and knowing when to rebuild. */
module Shards {
  import opened Prelude

  /** A parsed URL: its scheme and its full text. */
  datatype Url = Url(scheme: string, text: string)

  /** A service of the signing config; `url` is None when it does not parse. Times are instants. */
  datatype Service = Service(url: Option<Url>, version: int, start: int, end: int)

  /** The zero time. */
  const ZERO_TIME: int := 0

  // ----- selection

  predicate Eligible(s: Service, now: int) {
    s.version == 2 && s.start != ZERO_TIME && s.start < now
  }

  predicate OldestFirst(services: seq<Service>) {
    forall i, j :: 0 <= i < j < |services| ==> services[i].start <= services[j].start
  }

  predicate NewestFirst(services: seq<Service>) {
    forall i, j :: 0 <= i < j < |services| ==> services[i].start >= services[j].start
  }

  /** The eligible services, each as often as it is there. */
  ghost predicate Keeps(r: seq<Service>, services: seq<Service>, now: int) {
    forall s :: multiset(r)[s] == if Eligible(s, now) then multiset(services)[s] else 0
  }

  lemma KeepsOneMore(r: seq<Service>, services: seq<Service>, s: Service, now: int)
    requires Keeps(r, services, now)
    ensures Eligible(s, now) ==> Keeps(r + [s], [s] + services, now)
    ensures !Eligible(s, now) ==> Keeps(r, [s] + services, now)
  {
  }

  /** `sorted` is the library sort's result, in any order among equal starts. The result is a permutation of
      exactly the eligible services, newest first. */
  method FilterV2Shards(services: seq<Service>, sorted: seq<Service>, now: int) returns (r: seq<Service>)
    requires multiset(sorted) == multiset(services) && OldestFirst(sorted)
    ensures forall i, j :: 0 <= i < j < |r| ==> r[i].start >= r[j].start
    ensures forall s :: multiset(r)[s] ==
                        if s.version == 2 && s.start != 0 && s.start < now then multiset(services)[s] else 0
  {
    r := [];
    var i := |sorted|;
    assert sorted[i..] == [];
    while i > 0
      invariant 0 <= i <= |sorted|
      invariant Keeps(r, sorted[i..], now)
      invariant NewestFirst(r)
      invariant forall k :: 0 <= k < |r| ==> i < |sorted| && r[k].start >= sorted[i].start
    {
      KeepsOneMore(r, sorted[i..], sorted[i - 1], now);
      assert [sorted[i - 1]] + sorted[i..] == sorted[i - 1..];
      i := i - 1;
      if Eligible(sorted[i], now) {
        r := r + [sorted[i]];
      }
    }
    assert sorted[0..] == sorted;
  }

  /** The URL without its scheme and "://", which must leave something. */
  function GetOrigin(u: Url): (r: Result<string>)
    ensures r.Ok? <==> |u.scheme| + 3 < |u.text|
    ensures r.Ok? ==> r.value != "" && r.value == u.text[|u.scheme| + 3..]
  {
    var prefixLen := |u.scheme| + 3;
    if prefixLen >= |u.text| then Err("error getting origin from URL") else Ok(u.text[prefixLen..])
  }

  predicate HasOrigin(s: Service) {
    s.url.Some? && GetOrigin(s.url.value).Ok?
  }

  function OriginOf(s: Service): string
    requires HasOrigin(s)
  {
    GetOrigin(s.url.value).value
  }

  // ----- the cache

  /** The cached shard of this origin exists and ends when the service does. */
  predicate UpToDate(current: map<string, int>, s: Service) {
    HasOrigin(s) && OriginOf(s) in current && current[OriginOf(s)] == s.end
  }

  /** Over the filtered services. The first service that is not up to date decides, and an origin that cannot
      be had is an error only if it comes first. */
  method ShardsNeedUpdating(current: map<string, int>, shards: seq<Service>) returns (r: Result<bool>)
    ensures shards == [] ==> r.Err?
    ensures shards != [] && |current| != |shards| ==> r == Ok(true)
    ensures r == Ok(false) <==>
              shards != [] && |current| == |shards| && forall k :: 0 <= k < |shards| ==> UpToDate(current, shards[k])
    ensures r.Err? && shards != [] ==>
              |current| == |shards|
              && exists k :: 0 <= k < |shards| && !HasOrigin(shards[k])
                             && forall j :: 0 <= j < k ==> UpToDate(current, shards[j])
  {
    if |shards| == 0 {
      return Err("no v2 shards found in SigningConfig");
    }
    if |current| != |shards| {
      return Ok(true);
    }
    for k := 0 to |shards|
      invariant forall j :: 0 <= j < k ==> UpToDate(current, shards[j])
    {
      var newShard := shards[k];
      if newShard.url.None? {
        assert !HasOrigin(shards[k]);
        return Err("error parsing rekor shard URL");
      }
      var origin := GetOrigin(newShard.url.value);
      if origin.Err? {
        assert !HasOrigin(shards[k]);
        return Err(origin.message);
      }
      if origin.value !in current {
        assert !UpToDate(current, shards[k]);
        return Ok(true);
      } else if current[origin.value] != newShard.end {
        assert !UpToDate(current, shards[k]);
        return Ok(true);
      }
    }
    return Ok(false);
  }

  predicate AllHaveOrigins(shards: seq<Service>) {
    forall k :: 0 <= k < |shards| ==> HasOrigin(shards[k])
  }

  predicate DistinctOrigins(shards: seq<Service>)
    requires AllHaveOrigins(shards)
  {
    forall i, j :: 0 <= i < j < |shards| ==> OriginOf(shards[i]) != OriginOf(shards[j])
  }

  /** The origins with their validity ends, later services overwriting earlier ones. */
  function Build(shards: seq<Service>): map<string, int>
    requires AllHaveOrigins(shards)
  {
    if shards == [] then map[]
    else
      var last := shards[|shards| - 1];
      Build(shards[..|shards| - 1])[OriginOf(last) := last.end]
  }

  lemma BuildStep(shards: seq<Service>, k: nat)
    requires k < |shards| && AllHaveOrigins(shards[..k]) && HasOrigin(shards[k])
    ensures AllHaveOrigins(shards[..k + 1])
    ensures Build(shards[..k + 1]) == Build(shards[..k])[OriginOf(shards[k]) := shards[k].end]
  {
    assert shards[..k + 1][..k] == shards[..k];
    assert forall j :: 0 <= j < k ==> HasOrigin(shards[..k][j]);
  }

  /** Rebuilding the cache. `reachable` is whether a shard's key and signed checkpoint can be had. */
  method GetRekorShards(shards: seq<Service>, reachable: string -> bool) returns (r: Result<(map<string, int>, string)>)
    ensures shards == [] ==> r.Err?
    ensures shards != [] ==>
              (r.Ok? <==> AllHaveOrigins(shards) && forall k :: 0 <= k < |shards| ==> reachable(OriginOf(shards[k])))
    ensures r.Ok? ==> r.value.0 == Build(shards) && r.value.1 == OriginOf(shards[0])
  {
    if |shards| == 0 {
      return Err("failed to find any Rekor v2 shards");
    }
    var rekorShards: map<string, int> := map[];
    var latestShardOrigin := "";
    for k := 0 to |shards|
      invariant AllHaveOrigins(shards[..k])
      invariant forall j :: 0 <= j < k ==> HasOrigin(shards[j]) && reachable(OriginOf(shards[j]))
      invariant rekorShards == Build(shards[..k])
      invariant latestShardOrigin == if k == 0 then "" else OriginOf(shards[0])
    {
      if shards[k].url.None? {
        assert !HasOrigin(shards[k]);
        return Err("error parsing Rekor url");
      }
      var origin := GetOrigin(shards[k].url.value);
      if origin.Err? {
        assert !HasOrigin(shards[k]);
        return Err(origin.message);
      }
      if latestShardOrigin == "" {
        latestShardOrigin := origin.value;
      }
      if !reachable(origin.value) {
        return Err("failed to get current checkpoint");
      }
      BuildStep(shards, k);
      rekorShards := rekorShards[origin.value := shards[k].end];
    }
    assert shards[..|shards|] == shards;
    return Ok((rekorShards, latestShardOrigin));
  }

  // ----- what the cache check amounts to

  predicate Names(shards: seq<Service>, origin: string)
    requires AllHaveOrigins(shards)
  {
    exists k :: 0 <= k < |shards| && OriginOf(shards[k]) == origin
  }

  lemma {:induction false} BuildOrigins(shards: seq<Service>, origin: string)
    requires AllHaveOrigins(shards)
    ensures origin in Build(shards) <==> Names(shards, origin)
    decreases |shards|
  {
    if shards != [] {
      var n := |shards| - 1;
      var front := shards[..n];
      BuildOrigins(front, origin);
      if Names(front, origin) {
        var k :| 0 <= k < n && OriginOf(front[k]) == origin;
        assert OriginOf(shards[k]) == origin;
      }
      if Names(shards, origin) {
        var k :| 0 <= k < |shards| && OriginOf(shards[k]) == origin;
        assert k < n ==> OriginOf(front[k]) == origin;
      }
    }
  }

  lemma {:induction false} BuildSize(shards: seq<Service>)
    requires AllHaveOrigins(shards)
    ensures |Build(shards)| <= |shards|
    ensures DistinctOrigins(shards) <==> |Build(shards)| == |shards|
    decreases |shards|
  {
    if shards != [] {
      var n := |shards| - 1;
      var front, origin := shards[..n], OriginOf(shards[n]);
      BuildSize(front);
      BuildOrigins(front, origin);
      assert |Build(shards).Keys| == |Build(shards)| && |Build(front).Keys| == |Build(front)|;
      assert Build(shards).Keys == Build(front).Keys + {origin};
      if Names(front, origin) {
        var k :| 0 <= k < n && OriginOf(front[k]) == origin;
        assert OriginOf(shards[k]) == OriginOf(shards[n]);
        assert Build(front).Keys + {origin} == Build(front).Keys;
      } else {
        assert forall k :: 0 <= k < n ==> OriginOf(shards[k]) == OriginOf(front[k]);
        NewOriginKeepsDistinct(shards);
      }
    }
  }

  lemma {:induction false} BuildEnds(shards: seq<Service>, k: nat)
    requires AllHaveOrigins(shards) && DistinctOrigins(shards) && k < |shards|
    ensures OriginOf(shards[k]) in Build(shards) && Build(shards)[OriginOf(shards[k])] == shards[k].end
    decreases |shards|
  {
    if k < |shards| - 1 {
      BuildEnds(shards[..|shards| - 1], k);
    }
  }

  lemma NewOriginKeepsDistinct(shards: seq<Service>)
    requires shards != [] && AllHaveOrigins(shards)
    requires forall k :: 0 <= k < |shards| - 1 ==> OriginOf(shards[k]) != OriginOf(shards[|shards| - 1])
    ensures DistinctOrigins(shards) <==> DistinctOrigins(shards[..|shards| - 1])
  {
    var front := shards[..|shards| - 1];
    if DistinctOrigins(front) {
      forall i, j | 0 <= i < j < |shards|
        ensures OriginOf(shards[i]) != OriginOf(shards[j])
      {
        if j < |front| {
          assert OriginOf(front[i]) != OriginOf(front[j]);
        }
      }
    }
  }

  lemma SubsetOfSameSize(a: set<string>, b: set<string>)
    requires a <= b && |a| == |b|
    ensures a == b
  {
    assert |b - a| == |b| - |a|;
  }

  /** With origins for all and no two alike, no update is asked for exactly when the cache equals, origin by
      origin and end by end, what a rebuild from the same config would make. */
  lemma CacheCheckIsExact(current: map<string, int>, shards: seq<Service>)
    requires shards != [] && AllHaveOrigins(shards) && DistinctOrigins(shards)
    ensures (|current| == |shards| && forall k :: 0 <= k < |shards| ==> UpToDate(current, shards[k]))
            <==> current == Build(shards)
  {
    BuildSize(shards);
    var built := Build(shards);
    forall k | 0 <= k < |shards|
      ensures OriginOf(shards[k]) in built && built[OriginOf(shards[k])] == shards[k].end
    {
      BuildEnds(shards, k);
    }
    if |current| == |shards| && forall k :: 0 <= k < |shards| ==> UpToDate(current, shards[k]) {
      forall o | o in built
        ensures o in current && current[o] == built[o]
      {
        BuildOrigins(shards, o);
        var k :| 0 <= k < |shards| && OriginOf(shards[k]) == o;
        assert UpToDate(current, shards[k]);
      }
      assert |built.Keys| == |built| && |current.Keys| == |current|;
      SubsetOfSameSize(built.Keys, current.Keys);
    }
  }

  /** With two equal origins the cache just rebuilt from a config always looks outdated under that config. */
  lemma DuplicateOriginsAlwaysUpdate(shards: seq<Service>)
    requires AllHaveOrigins(shards) && !DistinctOrigins(shards)
    ensures |Build(shards)| < |shards|
  {
    BuildSize(shards);
  }

  predicate CacheIsCurrent(current: map<string, int>, shards: seq<Service>) {
    |current| == |shards| && forall k :: 0 <= k < |shards| ==> UpToDate(current, shards[k])
  }

  predicate AllReachable(shards: seq<Service>, reachable: string -> bool)
    requires AllHaveOrigins(shards)
  {
    forall k :: 0 <= k < |shards| ==> reachable(OriginOf(shards[k]))
  }

  /** The shards and the latest origin one v2 check works with: the logic's own copy as long as it looks current,
      its latest origin included, or what a rebuild gives. */
  function Used(own: (map<string, int>, string), shards: seq<Service>): (map<string, int>, string)
    requires shards != [] && (CacheIsCurrent(own.0, shards) || AllHaveOrigins(shards))
  {
    if CacheIsCurrent(own.0, shards) then own else (Build(shards), OriginOf(shards[0]))
  }

  /** The refresh before each v2 check. A rebuild lives only for this call. */
  method ShardsForCheck(own: (map<string, int>, string), shards: seq<Service>, reachable: string -> bool)
    returns (r: Result<(map<string, int>, string)>)
    ensures r.Ok? <==>
              && shards != []
              && (CacheIsCurrent(own.0, shards) || (AllHaveOrigins(shards) && AllReachable(shards, reachable)))
    ensures r.Ok? ==> r.value == Used(own, shards)
    ensures r.Ok? && AllHaveOrigins(shards) && DistinctOrigins(shards) ==> r.value.0 == Build(shards)
  {
    var shouldUpdate := ShardsNeedUpdating(own.0, shards);
    if shouldUpdate.Err? {
      return Err(shouldUpdate.message);
    }
    if shards != [] && AllHaveOrigins(shards) && DistinctOrigins(shards) {
      CacheCheckIsExact(own.0, shards);
    }
    if shouldUpdate.value {
      r := GetRekorShards(shards, reachable);
    } else {
      r := Ok(own);
    }
  }

  /** Every service of `a` has one in `b` with its origin and end. */
  predicate EndsIn(a: seq<Service>, b: seq<Service>)
    requires AllHaveOrigins(a) && AllHaveOrigins(b)
  {
    forall i :: 0 <= i < |a| ==> ListedIn(a[i], b)
  }

  predicate ListedIn(s: Service, b: seq<Service>)
    requires HasOrigin(s) && AllHaveOrigins(b)
  {
    exists j :: 0 <= j < |b| && OriginOf(b[j]) == OriginOf(s) && b[j].end == s.end
  }

  /** Every origin of `a` is in the cache of `b`, with the same end. */
  ghost predicate BuiltIn(a: seq<Service>, b: seq<Service>)
    requires AllHaveOrigins(a) && AllHaveOrigins(b)
  {
    forall o :: o in Build(a) ==> o in Build(b) && Build(b)[o] == Build(a)[o]
  }

  lemma EndsInBuilds(a: seq<Service>, b: seq<Service>)
    requires AllHaveOrigins(a) && DistinctOrigins(a) && AllHaveOrigins(b) && DistinctOrigins(b)
    ensures EndsIn(a, b) ==> BuiltIn(a, b)
    ensures BuiltIn(a, b) ==> EndsIn(a, b)
  {
    forall i | 0 <= i < |a|
      ensures OriginOf(a[i]) in Build(a) && Build(a)[OriginOf(a[i])] == a[i].end
      ensures ListedIn(a[i], b) <==> OriginOf(a[i]) in Build(b) && Build(b)[OriginOf(a[i])] == a[i].end
    {
      BuildEnds(a, i);
      ListedBuilds(a[i], b);
    }
    forall o | o in Build(a)
      ensures exists i :: 0 <= i < |a| && OriginOf(a[i]) == o
    {
      BuildOrigins(a, o);
    }
  }

  lemma ListedBuilds(s: Service, b: seq<Service>)
    requires HasOrigin(s) && AllHaveOrigins(b) && DistinctOrigins(b)
    ensures ListedIn(s, b) <==> OriginOf(s) in Build(b) && Build(b)[OriginOf(s)] == s.end
  {
    BuildOrigins(b, OriginOf(s));
    forall j | 0 <= j < |b|
      ensures OriginOf(b[j]) in Build(b) && Build(b)[OriginOf(b[j])] == b[j].end
    {
      BuildEnds(b, j);
    }
  }

  /** Two configs give the same cache if and only if they list the same origins with the same ends. */
  lemma SameBuildExactly(a: seq<Service>, b: seq<Service>)
    requires AllHaveOrigins(a) && DistinctOrigins(a) && AllHaveOrigins(b) && DistinctOrigins(b)
    ensures Build(a) == Build(b) <==> EndsIn(a, b) && EndsIn(b, a)
  {
    EndsInBuilds(a, b);
    EndsInBuilds(b, a);
  }

  /** What the logic holds once it was set up with a config. */
  function BuiltFrom(shards: seq<Service>): (map<string, int>, string)
    requires shards != [] && AllHaveOrigins(shards)
  {
    (Build(shards), OriginOf(shards[0]))
  }

  /** The check works with the newest shard of the current config if and only if some origin or end has changed
      since the cache was built, or the newest shard has not. */
  lemma NewestShardExactly(before: seq<Service>, now: seq<Service>)
    requires before != [] && AllHaveOrigins(before) && DistinctOrigins(before)
    requires now != [] && AllHaveOrigins(now) && DistinctOrigins(now)
    ensures Used(BuiltFrom(before), now).1 == OriginOf(now[0]) <==>
            !(EndsIn(before, now) && EndsIn(now, before)) || OriginOf(before[0]) == OriginOf(now[0])
  {
    CacheCheckIsExact(Build(before), now);
    SameBuildExactly(before, now);
  }

  /** Two shards of different origins. */
  predicate TwoShards(s: Service, t: Service) {
    HasOrigin(s) && HasOrigin(t) && OriginOf(s) != OriginOf(t)
  }

  lemma TwoShardsAreDistinct(s: Service, t: Service)
    requires TwoShards(s, t)
    ensures AllHaveOrigins([s, t]) && DistinctOrigins([s, t])
  {
  }

  lemma TradedEnds(s: Service, t: Service, u: Service, v: Service)
    requires TwoShards(s, t) && TwoShards(u, v)
    requires OriginOf(s) == OriginOf(v) && s.end == v.end && OriginOf(t) == OriginOf(u) && t.end == u.end
    ensures AllHaveOrigins([s, t]) && AllHaveOrigins([u, v]) && EndsIn([s, t], [u, v])
  {
    var b := [u, v];
    assert OriginOf(b[1]) == OriginOf(s) && OriginOf(b[0]) == OriginOf(t);
    assert ListedIn(s, b) && ListedIn(t, b);
  }

  lemma UnnoticedTrade(s: Service, t: Service, u: Service, v: Service)
    requires TwoShards(s, t) && TwoShards(u, v)
    requires OriginOf(s) == OriginOf(v) && s.end == v.end && OriginOf(t) == OriginOf(u) && t.end == u.end
    ensures AllHaveOrigins([s, t]) && AllHaveOrigins([u, v])
    ensures Used(BuiltFrom([s, t]), [u, v]).1 == OriginOf(s) != OriginOf(u)
  {
    TwoShardsAreDistinct(s, t);
    TwoShardsAreDistinct(u, v);
    TradedEnds(s, t, u, v);
    TradedEnds(u, v, s, t);
    NewestShardExactly([s, t], [u, v]);
  }

  /** The cache check does not look at starts: when two shards trade starts, no update is asked for although
      the newest shard is another one, so the check goes on with the former latest origin. */
  lemma SwappedStartsGoUnnoticed(s: Service, t: Service)
    requires TwoShards(s, t) && s.start > t.start
    ensures var before, after := [s, t], [t.(start := s.start), s.(start := t.start)];
            && AllHaveOrigins(before) && NewestFirst(before) && AllHaveOrigins(after) && NewestFirst(after)
            && Used(BuiltFrom(before), after).1 == OriginOf(s) != OriginOf(after[0])
  {
    UnnoticedTrade(s, t, t.(start := s.start), s.(start := t.start));
  }
}
