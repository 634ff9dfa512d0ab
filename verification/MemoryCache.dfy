/** The flat TTL map that the memory cache stands for, and runs over it. */
module TtlMaps {
  import opened Wrappers
  import opened SkipListViews

  /** Times count from Go's zero time, so an expiration of 0 means none. */
  datatype Item<V> = Item(value: V, expiration: int)

  predicate Expired<V>(item: Item<V>, now: int)
  {
    item.expiration != 0 && now > item.expiration
  }

  type Items<V> = map<string, Item<V>>

  function Lookup<V>(m: Items<V>, key: string, now: int): (r: Option<V>)
  {
    if key in m && !Expired(m[key], now) then Some(m[key].value) else None
  }

  /** A lookup that meets an expired item removes it. */
  function AfterGet<V>(m: Items<V>, key: string, now: int): (r: Items<V>)
  {
    if key in m && Expired(m[key], now) then m - {key} else m
  }

  function Cleaned<V>(m: Items<V>, now: int): (r: Items<V>)
  {
    map k | k in m && !Expired(m[k], now) :: m[k]
  }

  /** The live entries of a key range. */
  function RangeOf<V>(m: Items<V>, startKey: string, endKey: string, now: int): (r: map<string, V>)
  {
    map k | k in m && InRange(k, startKey, endKey) && !Expired(m[k], now) :: m[k].value
  }

  /** The keys of a range, live or not, and those of them that are expired. */
  function KeysIn<V>(m: Items<V>, startKey: string, endKey: string): (keys: set<string>)
  {
    set k | k in m && InRange(k, startKey, endKey)
  }

  function ExpiredIn<V>(m: Items<V>, startKey: string, endKey: string, now: int): (keys: set<string>)
  {
    set k | k in m && InRange(k, startKey, endKey) && Expired(m[k], now)
  }

  function AtMost(n: int, limit: int): (least: int)
  {
    if n < limit then n else limit
  }

  datatype Op<V> =
    | Set(key: string, value: V, ttl: int)
    | Get(key: string)
    | Del(key: string)
    | GetRange(startKey: string, endKey: string)
    | CleanUp

  datatype Event<V> = Event(now: int, op: Op<V>)

  datatype Answer<V> = Done | Found(result: Option<V>) | Entries(entries: map<string, V>)

  function Next<V>(m: Items<V>, e: Event<V>): (r: Items<V>)
  {
    match e.op
    case Set(k, v, ttl) => m[k := Item(v, e.now + ttl)]
    case Get(k) => AfterGet(m, k, e.now)
    case Del(k) => m - {k}
    case GetRange(_, _) => m
    case CleanUp => Cleaned(m, e.now)
  }

  function Reply<V>(m: Items<V>, e: Event<V>): (r: Answer<V>)
  {
    match e.op
    case Get(k) => Found(Lookup(m, k, e.now))
    case GetRange(s, t) => Entries(RangeOf(m, s, t, e.now))
    case _ => Done
  }

  /** What the callers of a run see; cleaning has no caller. */
  function Run<V>(m: Items<V>, trace: seq<Event<V>>): (r: seq<Answer<V>>)
    decreases |trace|
  {
    if trace == [] then []
    else
      var rest := Run(Next(m, trace[0]), trace[1..]);
      if trace[0].op.CleanUp? then rest else [Reply(m, trace[0])] + rest
  }

  function WithoutCleaning<V>(trace: seq<Event<V>>): (r: seq<Event<V>>)
  {
    if trace == [] then []
    else if trace[0].op.CleanUp? then WithoutCleaning(trace[1..])
    else [trace[0]] + WithoutCleaning(trace[1..])
  }

  ghost predicate ClockRuns<V>(trace: seq<Event<V>>, now: int)
  {
    trace != [] ==> now <= trace[0].now && ClockRuns(trace[1..], trace[0].now)
  }

  /** The state after a run from the empty cache. */
  function StateAfter<V>(trace: seq<Event<V>>): (m: Items<V>)
  {
    if trace == [] then map[] else Next(StateAfter(trace[..|trace| - 1]), trace[|trace| - 1])
  }

  /** What the last Set or Del of a key leaves to be seen at a moment. */
  function LastValue<V>(trace: seq<Event<V>>, k: string, now: int): (r: Option<V>)
  {
    if trace == [] then None
    else
      var e := trace[|trace| - 1];
      if e.op.Set? && e.op.key == k then
        if e.now + e.op.ttl == 0 || now <= e.now + e.op.ttl then Some(e.op.value) else None
      else if e.op.Del? && e.op.key == k then None
      else LastValue(trace[..|trace| - 1], k, now)
  }

  /** In every run Get answers the value last Set, during its lifetime and not longer, whatever was looked up, ranged
      over or cleaned before. */
  lemma {:induction false} GetAnswersLastSet<V>(trace: seq<Event<V>>, k: string, now: int)
    requires forall i :: 0 <= i < |trace| ==> trace[i].now <= now
    ensures Lookup(StateAfter(trace), k, now) == LastValue(trace, k, now)
  {
    if trace != [] {
      GetAnswersLastSet(trace[..|trace| - 1], k, now);
    }
  }

  /** Same live entries from now on. */
  ghost predicate Agree<V>(m: Items<V>, n: Items<V>, now: int)
  {
    && (forall k :: k in m && !Expired(m[k], now) ==> k in n && n[k] == m[k])
    && (forall k :: k in n && !Expired(n[k], now) ==> k in m && n[k] == m[k])
  }

  lemma AgreeingStep<V>(m: Items<V>, n: Items<V>, now: int, e: Event<V>)
    requires Agree(m, n, now) && now <= e.now
    ensures Agree(Next(m, e), Next(n, e), e.now)
    ensures Reply(m, e) == Reply(n, e)
  {
    if e.op.GetRange? {
      assert RangeOf(m, e.op.startKey, e.op.endKey, e.now) == RangeOf(n, e.op.startKey, e.op.endKey, e.now);
    }
  }

  lemma CleaningAgrees<V>(m: Items<V>, n: Items<V>, now: int, e: Event<V>)
    requires Agree(m, n, now) && now <= e.now && e.op.CleanUp?
    ensures Agree(Next(m, e), n, e.now)
  {
  }

  /** Cleaning steps anywhere in a run change no answer. */
  lemma {:induction false} CleaningIsUnobservable<V>(m: Items<V>, n: Items<V>, now: int, trace: seq<Event<V>>)
    requires Agree(m, n, now) && ClockRuns(trace, now)
    ensures Run(m, trace) == Run(n, WithoutCleaning(trace))
    decreases |trace|
  {
    if trace != [] {
      var e := trace[0];
      if e.op.CleanUp? {
        CleaningAgrees(m, n, now, e);
        CleaningIsUnobservable(Next(m, e), n, e.now, trace[1..]);
      } else {
        AgreeingStep(m, n, now, e);
        CleaningIsUnobservable(Next(m, e), Next(n, e), e.now, trace[1..]);
        var rest := WithoutCleaning(trace[1..]);
        assert ([e] + rest)[1..] == rest;
      }
    }
  }
}

/** The memory cache of cache/memcache.go on the sharded map, with an explicit clock. */
module MemoryCaches {
  import opened Wrappers
  import opened Sets
  import opened KeyOrder
  import opened SkipListViews
  import opened SkipLists
  import opened ShardedMaps
  import opened RangeQueries
  import opened TtlMaps

  /** The map with the expired items of the first i shards gone. */
  ghost function CleanedBelow<V>(m: Items<V>, hash: string -> nat, mask: nat, i: nat, now: int): (r: Items<V>)
  {
    map k | k in m && !(ShardOf(hash, mask, k) < i && Expired(m[k], now)) :: m[k]
  }

  ghost function Gone<V>(m: Items<V>, n: Items<V>): (r: map<string, V>)
  {
    map k | k in m && k !in n :: m[k].value
  }

  lemma CleanedBounds<V>(m: Items<V>, hash: string -> nat, mask: nat, n: nat, now: int)
    requires forall k :: k in m ==> ShardOf(hash, mask, k) < n
    ensures CleanedBelow(m, hash, mask, 0, now) == m && Gone(m, m) == map[]
    ensures CleanedBelow(m, hash, mask, n, now) == Cleaned(m, now)
  {
  }

  /** The values a query collects are live entries of the range. */
  ghost predicate Collected<V>(m: Items<V>, startKey: string, endKey: string, now: int, results: map<string, V>)
  {
    forall k :: k in results ==>
      k in RangeOf(m, startKey, endKey, now) && results[k] == RangeOf(m, startKey, endKey, now)[k]
  }

  /** A query meets as many keys of the range as there are, or limit of them. */
  lemma KeysMet<V>(q: Query<Item<V>>, m: Items<V>, visited: seq<(string, Item<V>)>)
    requires Queried(q, m, visited) && Unrefused(q, visited)
    ensures |KeysOf(visited)| == |visited| && KeysOf(visited) <= KeysIn(m, q.startKey, q.endKey)
    ensures q.limit <= 0 || |visited| < q.limit ==> KeysOf(visited) == KeysIn(m, q.startKey, q.endKey)
  {
    hide InRange, ShardOf;
    EachOnce(q, m, visited);
    KeyCount(visited);
    assert forall k :: k in m && q.Selects(k) ==> Accounted(q, visited, k);
  }

  /** What was met is in the answer or expired. */
  lemma MetAnsweredOrExpired<V>(q: Query<Item<V>>, m: Items<V>, now: int,
                                visited: seq<(string, Item<V>)>, results: map<string, V>)
    requires Queried(q, m, visited)
    requires forall j :: 0 <= j < |visited| && !Expired(visited[j].1, now) ==> visited[j].0 in results
    ensures KeysOf(visited) <= results.Keys + ExpiredIn(m, q.startKey, q.endKey, now)
  {
    hide InRange, Expired, ShardOf;
  }

  /** With a limit, expired entries use up places: the answer falls short of the limit and of the live entries by
      at most their number. */
  lemma LimitedAnswer<V>(q: Query<Item<V>>, m: Items<V>, now: int,
                         visited: seq<(string, Item<V>)>, results: map<string, V>)
    requires Queried(q, m, visited) && Unrefused(q, visited)
    requires Collected(m, q.startKey, q.endKey, now, results)
    requires forall j :: 0 <= j < |visited| && !Expired(visited[j].1, now) ==> visited[j].0 in results
    ensures q.limit > 0 ==>
              |results| + |ExpiredIn(m, q.startKey, q.endKey, now)| >=
              AtMost(|KeysIn(m, q.startKey, q.endKey)|, q.limit)
    ensures q.limit <= 0 || |KeysIn(m, q.startKey, q.endKey)| <= q.limit ==>
              results == RangeOf(m, q.startKey, q.endKey, now)
  {
    hide InRange, Expired, Queried, Unrefused, KeysOf, KeysIn, ExpiredIn;
    var seen, all := KeysOf(visited), KeysIn(m, q.startKey, q.endKey);
    var dead := ExpiredIn(m, q.startKey, q.endKey, now);
    KeysMet(q, m, visited);
    MetAnsweredOrExpired(q, m, now, visited, results);
    SubsetSize(seen, results.Keys + dead);
    assert |results.Keys + dead| <= |results.Keys| + |dead|;
    SubsetSize(seen, all);
    if q.limit <= 0 || |all| <= q.limit {
      if seen != all {
        SameSize(seen, all);
      }
      AllAnswered(m, q.startKey, q.endKey, now, results);
    }
  }

  lemma AllAnswered<V>(m: Items<V>, startKey: string, endKey: string, now: int, results: map<string, V>)
    requires Collected(m, startKey, endKey, now, results)
    requires KeysIn(m, startKey, endKey) <= results.Keys + ExpiredIn(m, startKey, endKey, now)
    ensures results == RangeOf(m, startKey, endKey, now)
  {
    hide InRange, Expired;
    forall k | k in RangeOf(m, startKey, endKey, now)
      ensures k in results
    {
      assert k in KeysIn(m, startKey, endKey) && k !in ExpiredIn(m, startKey, endKey, now);
    }
  }

  /** The live entries of the range with fewer than limit keys, live or expired, before them. */
  function LimitedRange<V>(q: Query<Item<V>>, m: Items<V>, now: int): (r: map<string, V>)
  {
    map k | k in m && q.Selects(k) && !Expired(m[k], now) && (q.limit <= 0 || |Earlier(q, m, k)| < q.limit) ::
      m[k].value
  }

  /** Exactly these are answered. */
  lemma AnswerIsLimitedRange<V>(q: Query<Item<V>>, m: Items<V>, now: int,
                                visited: seq<(string, Item<V>)>, results: map<string, V>)
    requires Queried(q, m, visited) && Unrefused(q, visited)
    requires forall k :: k in results <==> Reported(visited, k) && !Expired(m[k], now)
    requires Collected(m, q.startKey, q.endKey, now, results)
    ensures results == LimitedRange(q, m, now)
  {
    hide InRange, Expired, ShardOf, Queried, Unrefused, Earlier, Reported;
    forall k
      ensures k in results <==> k in LimitedRange(q, m, now)
    {
      ReportedIff(q, m, visited, k);
    }
  }

  /** A cleaning pass at time t, before a limited query at time now, changes its answer exactly if some live key of
      the range has limit keys before it, but not if those expired at t are left out. */
  lemma CleaningIsObservedIff<V>(q: Query<Item<V>>, m: Items<V>, t: int, now: int)
    requires q.limit > 0 && t <= now
    ensures LimitedRange(q, Cleaned(m, t), now) != LimitedRange(q, m, now) <==>
              exists k :: && k in m && q.Selects(k) && !Expired(m[k], now)
                          && |EarlierKept(q, m, t, k)| < q.limit <= |Earlier(q, m, k)|
  {
    hide Earlier, EarlierKept, InRange, ShardOf;
    var m' := Cleaned(m, t);
    EarlierCleaned(q, m, t);
    if k :| && k in m && q.Selects(k) && !Expired(m[k], now)
            && |EarlierKept(q, m, t, k)| < q.limit <= |Earlier(q, m, k)| {
      assert k in LimitedRange(q, m', now) && k !in LimitedRange(q, m, now);
    } else {
      assert LimitedRange(q, m', now) == LimitedRange(q, m, now);
    }
  }

  lemma EarlierCleaned<V>(q: Query<Item<V>>, m: Items<V>, t: int)
    ensures forall k :: Earlier(q, Cleaned(m, t), k) == EarlierKept(q, m, t, k)
    ensures forall k :: |EarlierKept(q, m, t, k)| <= |Earlier(q, m, k)|
  {
    hide InRange, ShardOf;
    forall k
      ensures |EarlierKept(q, m, t, k)| <= |Earlier(q, m, k)|
    {
      SubsetSize(EarlierKept(q, m, t, k), Earlier(q, m, k));
    }
  }

  /** The keys before a key that a cleaning pass at time t leaves. */
  function EarlierKept<V>(q: Query<Item<V>>, m: Items<V>, t: int, k: string): (keys: set<string>)
  {
    set j | j in m && q.Selects(j) && q.Before(j, k) && !Expired(m[j], t)
  }

  /** One shard, one expired entry before a live one, limit 1: only cleaning brings the live entry out. */
  lemma CleaningObserved<V>(v: V, w: V)
    ensures var q := Query((k: string) => 0, 0, "", "", 1, Always<Item<V>>());
            var m := map["a" := Item(v, 1), "b" := Item(w, 0)];
            LimitedRange(q, m, 5) == map[] && LimitedRange(q, Cleaned(m, 5), 5) == map["b" := w]
  {
    var q := Query((k: string) => 0, 0, "", "", 1, Always<Item<V>>());
    var m := map["a" := Item(v, 1), "b" := Item(w, 0)];
    assert Less("a", "b") && !Less("b", "a");
    assert Earlier(q, m, "b") == {"a"} && Earlier(q, Cleaned(m, 5), "b") == {};
  }

  lemma SameSize<T>(a: set<T>, b: set<T>)
    requires a <= b && |a| >= |b|
    ensures a == b
  {
    SubsetSize(b - a, b);
    assert |b| == |a| + |b - a| by {
      assert b == a + (b - a);
    }
  }

  lemma Entries<V>(q: Query<Item<V>>, m: Items<V>, visited: seq<(string, Item<V>)>)
    requires Queried(q, m, visited)
    ensures forall j :: 0 <= j < |visited| ==>
              visited[j].0 in m && visited[j].1 == m[visited[j].0] && InRange(visited[j].0, q.startKey, q.endKey)
    ensures q.limit > 0 ==> |visited| <= q.limit
  {
  }

  /** The live ones of the first n visited entries were collected, and nothing else. */
  ghost predicate LivePart<V>(m: Items<V>, visited: seq<(string, Item<V>)>, n: nat, now: int, results: map<string, V>)
  {
    && |results| <= n <= |visited|
    && (forall j :: 0 <= j < n && !Expired(visited[j].1, now) ==> visited[j].0 in results)
    && (forall k :: k in results ==>
          Reported(visited, k) && k in m && !Expired(m[k], now) && results[k] == m[k].value)
  }

  /** The callback of GetRange: what is not expired is collected. */
  method CollectLive<V>(ghost q: Query<Item<V>>, ghost m: Items<V>, visited: seq<(string, Item<V>)>, now: int)
    returns (results: map<string, V>)
    requires Queried(q, m, visited)
    ensures LivePart(m, visited, |visited|, now, results)
  {
    hide InRange, Expired, Queried, LivePart;
    Entries(q, m, visited);
    results := map[];
    LiveNone(m, visited, now);
    for i := 0 to |visited|
      invariant LivePart(m, visited, i, now, results)
    {
      LiveOneMore(m, visited, i, now, results);
      if !Expired(visited[i].1, now) {
        results := results[visited[i].0 := visited[i].1.value];
      }
    }
  }

  lemma LiveNone<V>(m: Items<V>, visited: seq<(string, Item<V>)>, now: int)
    ensures LivePart(m, visited, 0, now, map[])
  {
  }

  lemma LiveOneMore<V>(m: Items<V>, visited: seq<(string, Item<V>)>, i: nat, now: int, results: map<string, V>)
    requires i < |visited| && visited[i].0 in m && visited[i].1 == m[visited[i].0]
    requires LivePart(m, visited, i, now, results)
    ensures var (k, item) := visited[i];
            LivePart(m, visited, i + 1, now, if Expired(item, now) then results else results[k := item.value])
  {
    hide Expired;
    var (k, item) := visited[i];
    assert Reported(visited, k);
    var after := if Expired(item, now) then results else results[k := item.value];
    assert |after| <= |results| + 1;
  }

  lemma CollectedLive<V>(q: Query<Item<V>>, m: Items<V>, now: int,
                         visited: seq<(string, Item<V>)>, results: map<string, V>)
    requires Queried(q, m, visited) && LivePart(m, visited, |visited|, now, results)
    ensures Collected(m, q.startKey, q.endKey, now, results)
    ensures forall k :: k in results <==> Reported(visited, k) && !Expired(m[k], now)
    ensures q.limit > 0 ==> |results| <= q.limit
  {
    hide InRange, Expired, Queried;
    Entries(q, m, visited);
  }

  class MemoryCache<V> {
    const data: SkipShardedMap<Item<V>>

    ghost predicate Valid()
      reads data, data.shards, data.owner.Keys
    {
      data.Valid()
    }

    constructor (hash: string -> nat, shardCount: int)
      ensures Valid() && data.model == map[]
    {
      data := new SkipShardedMap<Item<V>>(hash, shardCount);
    }

    method Set(key: string, value: V, ttl: int, now: int)
      requires Valid()
      modifies data, data.shards, data.owner.Keys
      ensures Valid() && data.model == Next(old(data.model), Event(now, Op.Set(key, value, ttl)))
      ensures data.model == old(data.model)[key := Item(value, now + ttl)]
      ensures fresh(data.owner.Keys - old(data.owner.Keys))
    {
      hide SkipShardedMap.Valid;
      data.Store(key, Item(value, now + ttl));
    }

    /** The second result is the value handed to the eviction callback, if any. */
    method Get(key: string, now: int) returns (r: Option<V>, evicted: Option<V>)
      requires Valid()
      modifies data, data.shards, data.owner.Keys
      ensures Valid() && data.model == Next(old(data.model), Event(now, Op.Get(key)))
      ensures r == Lookup(old(data.model), key, now)
      ensures key in data.model <==>
                && key in old(data.model)
                && (old(data.model)[key].expiration == 0 || now <= old(data.model)[key].expiration)
      ensures evicted == if key in old(data.model) && key !in data.model then Some(old(data.model)[key].value) else None
      ensures data.owner.Keys == old(data.owner.Keys)
    {
      hide SkipShardedMap.Valid;
      var found := data.Load(key);
      if found.None? {
        return None, None;
      }
      var item := found.value;
      if Expired(item, now) {
        data.Delete(key);
        return None, Some(item.value);
      }
      return Some(item.value), None;
    }

    method Del(key: string) returns (evicted: Option<V>)
      requires Valid()
      modifies data, data.shards, data.owner.Keys
      ensures Valid() && data.model == old(data.model) - {key}
      ensures evicted == if key in old(data.model) then Some(old(data.model)[key].value) else None
      ensures data.owner.Keys == old(data.owner.Keys)
    {
      hide SkipShardedMap.Valid;
      var item := data.LoadAndDelete(key);
      evicted := if item.Some? then Some(item.value.value) else None;
    }

    /** Without a limit exactly the live entries of the range. With one, at most that many of them, and all of them
        if the whole range, expired entries included, is within the limit. */
    method GetRange(startKey: string, endKey: string, limit: int, now: int) returns (results: map<string, V>)
      requires Valid()
      ensures results == LimitedRange(RangeQuery(startKey, endKey, limit), data.model, now)
      ensures Collected(data.model, startKey, endKey, now, results)
      ensures limit <= 0 || |KeysIn(data.model, startKey, endKey)| <= limit ==>
                results == RangeOf(data.model, startKey, endKey, now)
      ensures limit > 0 ==>
                && |results| <= limit
                && |results| + |ExpiredIn(data.model, startKey, endKey, now)| >=
                   AtMost(|KeysIn(data.model, startKey, endKey)|, limit)
    {
      hide SkipShardedMap.Valid, InRange, Expired, Queried, LimitedRange, Reported;
      ghost var q := RangeQuery(startKey, endKey, limit);
      var visited := data.RangeKeys(startKey, endKey, limit, Always<Item<V>>());
      results := CollectLive(q, data.model, visited, now);
      CollectedLive(q, data.model, now, visited, results);
      AnswerIsLimitedRange(q, data.model, now, visited, results);
      LimitedAnswer(q, data.model, now, visited, results);
    }

    /** The query behind a call of GetRange. */
    ghost function RangeQuery(startKey: string, endKey: string, limit: int): (q: Query<Item<V>>)
    {
      Query(data.hash, data.mask, startKey, endKey, limit, Always<Item<V>>())
    }

    /** One pass over all shards; the result holds what the eviction callback received. */
    method CleanUp(now: int) returns (evicted: map<string, V>)
      requires Valid()
      modifies data, data.shards, data.owner.Keys
      ensures Valid() && data.model == Next(old(data.model), Event(now, Op.CleanUp))
      ensures forall k :: k in data.model <==>
                k in old(data.model) && (old(data.model)[k].expiration == 0 || now <= old(data.model)[k].expiration)
      ensures evicted == Gone(old(data.model), data.model)
      ensures data.owner.Keys == old(data.owner.Keys)
    {
      hide SkipShardedMap.Valid, ShardOf, CleanedBelow, Gone;
      KeysIndexed();
      CleanedBounds(data.model, data.hash, data.mask, data.count, now);
      evicted := map[];
      var i := 0;
      while i < data.count
        invariant 0 <= i <= data.count && Valid() && data.owner.Keys == old(data.owner.Keys)
        invariant data.model == CleanedBelow(old(data.model), data.hash, data.mask, i, now)
        invariant evicted == Gone(old(data.model), data.model)
      {
        evicted := CleanShard(i, now, evicted, old(data.model));
        i := i + 1;
      }
    }

    lemma KeysIndexed()
      requires Valid()
      ensures forall k :: k in data.model ==> ShardOf(data.hash, data.mask, k) < data.count
    {
      hide ShardOf, SkipList.Valid;
    }

    /** The snapshot of one shard, walked entry by entry. */
    method CleanShard(i: nat, now: int, evicted: map<string, V>, ghost m0: Items<V>) returns (evicted': map<string, V>)
      requires Valid() && i < data.count
      requires data.model == CleanedBelow(m0, data.hash, data.mask, i, now) && evicted == Gone(m0, data.model)
      modifies data, data.shards, data.owner.Keys
      ensures Valid() && data.owner.Keys == old(data.owner.Keys)
      ensures data.model == CleanedBelow(m0, data.hash, data.mask, i + 1, now) && evicted' == Gone(m0, data.model)
    {
      hide SkipShardedMap.Valid, ShardOf;
      var entries := data.Snapshot(i);
      ghost var m1 := data.model;
      evicted' := evicted;
      for j := 0 to |entries|
        invariant Valid() && data.owner.Keys == old(data.owner.Keys)
        invariant forall k :: k in data.model ==> k in m1 && data.model[k] == m1[k]
        invariant forall k :: k in m1 && (data.Index(k) != i || !Expired(m1[k], now)) ==> k in data.model
        invariant forall l :: 0 <= l < j && Expired(entries[l].1, now) ==> entries[l].0 !in data.model
        invariant evicted' == Gone(m0, data.model)
      {
        if Expired(entries[j].1, now) {
          data.Delete(entries[j].0);
          evicted' := evicted'[entries[j].0 := entries[j].1.value];
        }
      }
      forall k | k in m1 && data.Index(k) == i && Expired(m1[k], now)
        ensures k !in data.model
      {
        assert Reported(entries, k);
      }
    }
  }
}
