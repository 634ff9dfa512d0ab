/** The shard index: bitwise and with a mask of ones is a remainder. */
module ShardIndex {

  /** Bitwise and of two unsigned numbers. */
  function BitAnd(a: nat, b: nat): (r: nat)
  {
    if a == 0 || b == 0 then 0 else 2 * BitAnd(a / 2, b / 2) + (a % 2) * (b % 2)
  }

  function Pow2(e: nat): (p: nat)
    ensures p >= 1
  {
    if e == 0 then 1 else 2 * Pow2(e - 1)
  }

  ghost predicate PowerOfTwo(n: nat)
  {
    exists e: nat :: n == Pow2(e)
  }

  lemma HalveRemainder(h: nat, m: nat)
    requires m >= 1
    ensures h % (2 * m) == 2 * ((h / 2) % m) + h % 2
  {
    var q, r := (h / 2) / m, (h / 2) % m;
    assert h == 2 * (q * m + r) + h % 2;
    assert 2 * (q * m) == q * (2 * m);
    var s := 2 * r + h % 2;
    assert h == q * (2 * m) + s && 0 <= s < 2 * m;
    RemainderIs(h, 2 * m, q, s);
  }

  lemma {:induction false} AtLeastOnce(d: nat, m: nat)
    requires d >= 1
    ensures d * m >= m
  {
    if d > 1 {
      AtLeastOnce(d - 1, m);
      assert d * m == (d - 1) * m + m;
    }
  }

  lemma SameRemainder(a: nat, q: nat, m: nat, r: nat, s: nat)
    requires a * m + r == q * m + s && r < m && s < m
    ensures r == s
  {
    if a > q {
      assert a * m == q * m + (a - q) * m;
      AtLeastOnce(a - q, m);
    } else if q > a {
      assert q * m == a * m + (q - a) * m;
      AtLeastOnce(q - a, m);
    }
  }

  lemma RemainderIs(h: nat, m: nat, q: nat, s: nat)
    requires m >= 1 && h == q * m + s && s < m
    ensures h % m == s
  {
    assert h == (h / m) * m + h % m;
    SameRemainder(h / m, q, m, h % m, s);
  }

  lemma BitAndOdd(h: nat, m: nat)
    requires m >= 1
    ensures BitAnd(h, 2 * m - 1) == 2 * BitAnd(h / 2, m - 1) + h % 2
  {
    assert (2 * m - 1) / 2 == m - 1 && (2 * m - 1) % 2 == 1;
  }

  /** hash & (2^e - 1) is hash mod 2^e. */
  lemma {:induction false} MaskIsRemainder(hash: nat, e: nat)
    ensures BitAnd(hash, Pow2(e) - 1) == hash % Pow2(e)
  {
    hide BitAnd;
    if e == 0 {
      NoBits(hash);
    } else {
      var m := Pow2(e - 1);
      HalveRemainder(hash, m);
      MaskIsRemainder(hash / 2, e - 1);
      BitAndOdd(hash, m);
    }
  }

  lemma NoBits(h: nat)
    ensures BitAnd(h, 0) == 0 == h % 1
  {
  }

  /** The shard count in use: the least power of two that is not below n, and 32 when none is asked for. */
  function RoundUp(n: int): (c: nat)
    ensures PowerOfTwo(c)
    ensures n > 0 ==> n <= c < 2 * n
    ensures n <= 0 ==> c == 32
  {
    if n <= 0 then
      assert 32 == Pow2(5);
      32
    else
      RoundFrom(n, 0)
  }

  function RoundFrom(n: nat, e: nat): (c: nat)
    requires n >= 1 && (e == 0 || Pow2(e - 1) < n)
    ensures PowerOfTwo(c) && n <= c < 2 * n
    decreases n - (if e == 0 then 0 else Pow2(e - 1))
  {
    if n <= Pow2(e) then Pow2(e) else RoundFrom(n, e + 1)
  }

  lemma {:induction false} RoundUpIsLeast(n: nat, p: nat)
    requires n >= 1 && PowerOfTwo(p) && n <= p
    ensures RoundUp(n) <= p
  {
    var a: nat :| RoundUp(n) == Pow2(a);
    var b: nat :| p == Pow2(b);
    if b < a {
      PowersGrow(b + 1, a);
      assert Pow2(b + 1) == 2 * p;
    } else {
      PowersGrow(a, b);
    }
  }

  lemma {:induction false} PowersGrow(a: nat, b: nat)
    requires a <= b
    ensures Pow2(a) <= Pow2(b)
    decreases b - a
  {
    if a < b {
      PowersGrow(a, b - 1);
    }
  }
}

/** The sharded map of cache/skipmap.go over skip lists. */
module ShardedMaps {
  import opened Wrappers
  import opened KeyOrder
  import opened SkipListViews
  import opened SkipLists
  import opened ShardIndex

  function ShardOf(hash: string -> nat, mask: nat, key: string): (i: nat)
  {
    BitAnd(hash(key), mask)
  }

  /** Each key lives in the shard its index selects, and the shards together are the model. */
  ghost predicate Split<V>(views: seq<View<V>>, hash: string -> nat, mask: nat, model: map<string, V>)
  {
    && (forall i, k :: 0 <= i < |views| && k in views[i].model ==>
          ShardOf(hash, mask, k) == i && k in model && model[k] == views[i].model[k])
    && (forall k :: k in model ==> ShardOf(hash, mask, k) < |views| && k in views[ShardOf(hash, mask, k)].model)
  }

  /** No two shards share a node. */
  ghost predicate Apart<V>(views: seq<View<V>>, owner: map<SkipNode<V>, nat>)
  {
    forall i, n :: 0 <= i < |views| && n in views[i].nodes ==> n in owner && owner[n] == i
  }

  lemma SplitStore<V>(views: seq<View<V>>, hash: string -> nat, mask: nat, model: map<string, V>, key: string, value: V,
                      view: View<V>)
    requires Split(views, hash, mask, model) && ShardOf(hash, mask, key) < |views|
    requires view.model == views[ShardOf(hash, mask, key)].model[key := value]
    ensures Split(views[ShardOf(hash, mask, key) := view], hash, mask, model[key := value])
    ensures key in model <==> key in views[ShardOf(hash, mask, key)].model
  {
  }

  lemma SplitDelete<V>(views: seq<View<V>>, hash: string -> nat, mask: nat, model: map<string, V>, key: string,
                       view: View<V>)
    requires Split(views, hash, mask, model) && ShardOf(hash, mask, key) < |views|
    requires view.model == views[ShardOf(hash, mask, key)].model - {key}
    ensures Split(views[ShardOf(hash, mask, key) := view], hash, mask, model - {key})
    ensures key in model <==> key in views[ShardOf(hash, mask, key)].model
    ensures |model - {key}| == if key in model then |model| - 1 else |model|
  {
    hide ShardOf;
    assert (model - {key}).Keys == model.Keys - {key};
  }

  ghost function SizeSum<V>(views: seq<View<V>>): (r: nat)
  {
    if views == [] then 0 else SizeSum(views[..|views| - 1]) + |views[|views| - 1].model|
  }

  ghost function KeysBelow<V>(hash: string -> nat, mask: nat, model: map<string, V>, n: nat): (r: set<string>)
  {
    set k | k in model && ShardOf(hash, mask, k) < n
  }

  lemma KeysBelowStep<V>(views: seq<View<V>>, n: nat, hash: string -> nat, mask: nat, model: map<string, V>)
    requires Split(views, hash, mask, model) && n < |views|
    ensures KeysBelow(hash, mask, model, n + 1) == KeysBelow(hash, mask, model, n) + views[n].model.Keys
    ensures KeysBelow(hash, mask, model, n) !! views[n].model.Keys
  {
    hide ShardOf;
  }

  /** The flat map is as large as the shards together. */
  lemma {:induction false} SplitCounts<V>(views: seq<View<V>>, n: nat, hash: string -> nat, mask: nat,
                                          model: map<string, V>)
    requires Split(views, hash, mask, model) && n <= |views|
    ensures SizeSum(views[..n]) == |KeysBelow(hash, mask, model, n)|
  {
    hide ShardOf, Split;
    if n == 0 {
      assert KeysBelow(hash, mask, model, 0) == {};
    } else {
      SplitCounts(views, n - 1, hash, mask, model);
      assert views[..n][..n - 1] == views[..n - 1];
      KeysBelowStep(views, n - 1, hash, mask, model);
    }
  }

  ghost function Owning<V>(owner: map<SkipNode<V>, nat>, view: View<V>, i: nat): (r: map<SkipNode<V>, nat>)
    ensures r.Keys == owner.Keys + set n | n in view.nodes
  {
    owner + map n | n in view.nodes :: i
  }

  lemma ApartEmpty<V>(owner: map<SkipNode<V>, nat>)
    ensures Apart<V>([], owner)
  {
  }

  lemma ApartAppend<V>(views: seq<View<V>>, owner: map<SkipNode<V>, nat>, view: View<V>)
    requires Apart(views, owner)
    requires forall n :: n in view.nodes ==> n !in owner
    ensures Apart(views + [view], Owning(owner, view, |views|))
  {
  }

  lemma SplitEmpty<V>(views: seq<View<V>>, hash: string -> nat, mask: nat)
    requires forall i :: 0 <= i < |views| ==> views[i].model == map[]
    ensures Split(views, hash, mask, map[])
  {
  }

  lemma ApartReplace<V>(views: seq<View<V>>, owner: map<SkipNode<V>, nat>, i: nat, view: View<V>)
    requires Apart(views, owner) && i < |views|
    requires forall n :: n in view.nodes && n in owner ==> owner[n] == i
    ensures Apart(views[i := view], Owning(owner, view, i))
  {
  }

  lemma EmptyRange(startKey: string, endKey: string)
    requires endKey != "" && Less(endKey, startKey)
    ensures forall k :: !InRange(k, startKey, endKey)
  {
    forall k | InRange(k, startKey, endKey)
      ensures false
    {
      LessIsTotal(k, startKey);
      if k != startKey {
        LessIsTransitive(endKey, startKey, k);
      }
    }
  }

  ghost predicate Reported<V>(visited: seq<(string, V)>, k: string)
  {
    exists j :: 0 <= j < |visited| && visited[j].0 == k
  }

  /** A range query: where keys live, the range, the limit and the visitor. */
  datatype Query<!V> = Query(hash: string -> nat, mask: nat, startKey: string, endKey: string, limit: int,
                             visit: (string, V) -> bool)
  {
    function Shard(k: string): (i: nat)
    {
      ShardOf(hash, mask, k)
    }

    predicate Selects(k: string)
    {
      InRange(k, startKey, endKey)
    }

    /** Shard by shard, and by key within a shard. */
    predicate Before(j: string, k: string)
    {
      Shard(j) < Shard(k) || (Shard(j) == Shard(k) && Less(j, k))
    }
  }

  /** The visitor refused an entry before the key in the key's own shard. */
  ghost predicate RefusedInShard<V>(q: Query<V>, visited: seq<(string, V)>, k: string)
  {
    exists j :: && 0 <= j < |visited| && !q.visit(visited[j].0, visited[j].1)
                && q.Shard(visited[j].0) == q.Shard(k) && Less(visited[j].0, k)
  }

  /** The limit was used up by entries before the key. */
  ghost predicate CrowdedOut<V>(q: Query<V>, visited: seq<(string, V)>, k: string)
  {
    0 < q.limit <= |visited| && forall j :: 0 <= j < |visited| ==> q.Before(visited[j].0, k)
  }

  ghost predicate Accounted<V>(q: Query<V>, visited: seq<(string, V)>, k: string)
  {
    Reported(visited, k) || RefusedInShard(q, visited, k) || CrowdedOut(q, visited, k)
  }

  /** Entries of the range, in order, none after a refusal in the same shard. */
  ghost predicate InOrder<V>(q: Query<V>, model: map<string, V>, visited: seq<(string, V)>)
  {
    && (forall j :: 0 <= j < |visited| ==>
          visited[j].0 in model && visited[j].1 == model[visited[j].0] && q.Selects(visited[j].0))
    && (forall a, b :: 0 <= a < b < |visited| ==> q.Before(visited[a].0, visited[b].0))
    && (forall a, b :: 0 <= a < b < |visited| && q.Shard(visited[a].0) == q.Shard(visited[b].0) ==>
          q.visit(visited[a].0, visited[a].1))
  }

  /** What a range query over all shards reports: entries of the range in order, at most limit of them when it is
      positive; an entry is missed only behind a refusal in its own shard or when the limit was used up before it. */
  ghost predicate Queried<V>(q: Query<V>, model: map<string, V>, visited: seq<(string, V)>)
  {
    && InOrder(q, model, visited)
    && (q.limit > 0 ==> |visited| <= q.limit)
    && (forall k :: k in model && q.Selects(k) ==> Accounted(q, visited, k))
  }

  /** The same with the first i shards visited. */
  ghost predicate Covered<V>(q: Query<V>, views: seq<View<V>>, model: map<string, V>, i: nat, visited: seq<(string, V)>)
  {
    && i <= |views| && InOrder(q, model, visited)
    && (forall j :: 0 <= j < |visited| ==> q.Shard(visited[j].0) < i)
    && (forall m, k :: 0 <= m < i && k in views[m].model && q.Selects(k) ==> Accounted(q, visited, k))
  }

  /** The entries of one more shard come next in order. */
  lemma CoverInOrder<V>(q: Query<V>, views: seq<View<V>>, model: map<string, V>, i: nat,
                        visited: seq<(string, V)>, more: seq<(string, V)>)
    requires Split(views, q.hash, q.mask, model) && i < |views| && InOrder(q, model, visited)
    requires forall j :: 0 <= j < |visited| ==> q.Shard(visited[j].0) < i
    requires Visited(views[i].model, q.startKey, q.endKey, q.limit - |visited|, q.visit, more)
    ensures InOrder(q, model, visited + more)
    ensures forall j :: 0 <= j < |more| ==> q.Shard(more[j].0) == i
  {
    hide Split, Visited, InOrder;
    ShardInOrder(q, views, model, i, q.limit - |visited|, more);
    JoinInOrder(q, model, i, visited, more);
  }

  lemma ShardInOrder<V>(q: Query<V>, views: seq<View<V>>, model: map<string, V>, i: nat, limit: int,
                        more: seq<(string, V)>)
    requires Split(views, q.hash, q.mask, model) && i < |views|
    requires Visited(views[i].model, q.startKey, q.endKey, limit, q.visit, more)
    ensures InOrder(q, model, more) && forall j :: 0 <= j < |more| ==> q.Shard(more[j].0) == i
  {
    hide ShardOf, InRange;
  }

  lemma JoinInOrder<V>(q: Query<V>, model: map<string, V>, i: nat, visited: seq<(string, V)>, more: seq<(string, V)>)
    requires InOrder(q, model, visited) && InOrder(q, model, more)
    requires forall j :: 0 <= j < |visited| ==> q.Shard(visited[j].0) < i
    requires forall j :: 0 <= j < |more| ==> q.Shard(more[j].0) == i
    ensures InOrder(q, model, visited + more)
  {
    hide ShardOf, InRange;
    var n, all := |visited|, visited + more;
    assert forall j :: 0 <= j < n ==> all[j] == visited[j];
    assert forall j :: n <= j < |all| ==> all[j] == more[j - n];
  }

  /** Within one shard an entry is missed only behind a refusal or when the limit was used up. */
  lemma MissedInShard<V>(q: Query<V>, model: map<string, V>, limit: int, more: seq<(string, V)>, k: string)
    requires Visited(model, q.startKey, q.endKey, limit, q.visit, more) && k in model && q.Selects(k)
    requires !Reported(more, k)
    ensures |more| > 0 && forall j :: 0 <= j < |more| ==> Less(more[j].0, k)
    ensures |more| == limit || !q.visit(more[|more| - 1].0, more[|more| - 1].1)
  {
    hide InRange;
  }

  lemma CoverShard<V>(q: Query<V>, views: seq<View<V>>, model: map<string, V>, i: nat,
                      visited: seq<(string, V)>, more: seq<(string, V)>)
    requires Split(views, q.hash, q.mask, model) && i < |views| && Covered(q, views, model, i, visited)
    requires q.limit <= 0 || |visited| < q.limit
    requires Visited(views[i].model, q.startKey, q.endKey, q.limit - |visited|, q.visit, more)
    ensures Covered(q, views, model, i + 1, visited + more)
    ensures q.limit > 0 ==> |visited + more| <= q.limit
  {
    hide ShardOf, InRange, Reported, RefusedInShard, CrowdedOut, InOrder;
    CoverInOrder(q, views, model, i, visited, more);
    var all := visited + more;
    forall j | 0 <= j < |all|
      ensures q.Shard(all[j].0) < i + 1
    {
      assert all[j] == if j < |visited| then visited[j] else more[j - |visited|];
    }
    forall m, k | 0 <= m < i + 1 && k in views[m].model && q.Selects(k)
      ensures Accounted(q, all, k)
    {
      if m < i {
        StillAccounted(q, visited, more, k);
      } else {
        NewlyAccounted(q, views[i].model, visited, more, k);
      }
    }
  }

  lemma StillAccounted<V>(q: Query<V>, visited: seq<(string, V)>, more: seq<(string, V)>, k: string)
    requires Accounted(q, visited, k) && (q.limit <= 0 || |visited| < q.limit)
    ensures Accounted(q, visited + more, k)
  {
    var all := visited + more;
    ReportedEither(visited, more, k);
    if RefusedInShard(q, visited, k) {
      var j :| && 0 <= j < |visited| && !q.visit(visited[j].0, visited[j].1)
               && q.Shard(visited[j].0) == q.Shard(k) && Less(visited[j].0, k);
      assert all[j] == visited[j];
    }
  }

  lemma NewlyAccounted<V>(q: Query<V>, model: map<string, V>, visited: seq<(string, V)>, more: seq<(string, V)>,
                          k: string)
    requires Visited(model, q.startKey, q.endKey, q.limit - |visited|, q.visit, more) && k in model && q.Selects(k)
    requires q.limit <= 0 || |visited| < q.limit
    requires forall j :: 0 <= j < |visited| ==> q.Shard(visited[j].0) < q.Shard(k)
    requires forall j :: 0 <= j < |more| ==> q.Shard(more[j].0) == q.Shard(k)
    ensures Accounted(q, visited + more, k)
  {
    hide ShardOf, InRange, Visited;
    var n, all := |visited|, visited + more;
    ReportedEither(visited, more, k);
    if !Reported(more, k) {
      MissedInShard(q, model, q.limit - n, more, k);
      var last := |all| - 1;
      assert all[last] == more[|more| - 1];
      forall j | 0 <= j < |all|
        ensures q.Before(all[j].0, k)
      {
        assert all[j] == if j < n then visited[j] else more[j - n];
      }
      if !q.visit(all[last].0, all[last].1) {
        assert RefusedInShard(q, all, k);
      } else {
        assert CrowdedOut(q, all, k);
      }
    }
  }

  lemma ReportedEither<V>(visited: seq<(string, V)>, more: seq<(string, V)>, k: string)
    ensures Reported(visited, k) || Reported(more, k) ==> Reported(visited + more, k)
  {
    var all := visited + more;
    if Reported(visited, k) {
      var j :| 0 <= j < |visited| && visited[j].0 == k;
      assert all[j].0 == k;
    } else if Reported(more, k) {
      var j :| 0 <= j < |more| && more[j].0 == k;
      assert all[|visited| + j].0 == k;
    }
  }

  /** The snapshot of shard i, seen as part of the flat map. */
  lemma SnapshotIsShard<V>(views: seq<View<V>>, hash: string -> nat, mask: nat, model: map<string, V>, i: nat,
                           entries: seq<(string, V)>)
    requires Split(views, hash, mask, model) && i < |views|
    requires Visited(views[i].model, "", "", 0, Always<V>(), entries)
    ensures forall j :: 0 <= j < |entries| ==>
              && entries[j].0 in model && entries[j].1 == model[entries[j].0]
              && ShardOf(hash, mask, entries[j].0) == i
    ensures forall k :: k in model && ShardOf(hash, mask, k) == i ==> Reported(entries, k)
    ensures forall a, b :: 0 <= a < b < |entries| ==> entries[a].0 != entries[b].0
  {
    hide ShardOf;
    forall k | k in model && ShardOf(hash, mask, k) == i
      ensures Reported(entries, k)
    {
      assert InRange(k, "", "");
    }
    forall a, b | 0 <= a < b < |entries|
      ensures entries[a].0 != entries[b].0
    {
      LessIsIrreflexive(entries[a].0);
    }
  }

  lemma CoveredNone<V>(q: Query<V>, views: seq<View<V>>, model: map<string, V>)
    ensures Covered(q, views, model, 0, [])
  {
  }

  lemma CoveredAll<V>(q: Query<V>, views: seq<View<V>>, model: map<string, V>, i: nat, visited: seq<(string, V)>)
    requires Split(views, q.hash, q.mask, model) && Covered(q, views, model, i, visited)
    requires i == |views| || 0 < q.limit <= |visited|
    requires q.limit > 0 ==> |visited| <= q.limit
    ensures Queried(q, model, visited)
  {
    hide ShardOf, InRange, Reported, RefusedInShard, InOrder;
    forall k | k in model && q.Selects(k)
      ensures Accounted(q, visited, k)
    {
      if q.Shard(k) >= i {
        assert CrowdedOut(q, visited, k);
      }
    }
  }

  lemma NothingSelected<V>(q: Query<V>, model: map<string, V>)
    requires q.endKey != "" && Less(q.endKey, q.startKey)
    ensures Queried(q, model, [])
  {
    EmptyRange(q.startKey, q.endKey);
  }

  /** n empty lists of their own. */
  method MakeShards<V>(n: nat)
    returns (ss: seq<SkipList<V>>, ghost own: map<SkipNode<V>, nat>, ghost vs: seq<View<V>>)
    ensures |ss| == |vs| == n && fresh(ss) && fresh(own.Keys) && Apart(vs, own)
    ensures forall i :: 0 <= i < n ==> ss[i].Valid() && ss[i].view == vs[i] && vs[i].model == map[]
    ensures forall i, m :: 0 <= i < n && m in ss[i].view.nodes ==> m in own
    ensures forall i, j :: 0 <= i < j < n ==> ss[i] != ss[j]
  {
    hide SkipList.Valid, Apart;
    ss, own, vs := [], map[], [];
    ApartEmpty(own);
    while |ss| < n
      invariant |ss| == |vs| <= n && fresh(ss) && fresh(own.Keys) && Apart(vs, own)
      invariant forall i :: 0 <= i < |ss| ==> ss[i].Valid() && ss[i].view == vs[i] && vs[i].model == map[]
      invariant forall i, m :: 0 <= i < |ss| && m in ss[i].view.nodes ==> m in own
      invariant forall i, j :: 0 <= i < j < |ss| ==> ss[i] != ss[j]
    {
      var s := new SkipList<V>();
      ApartAppend(vs, own, s.view);
      own := Owning(own, s.view, |ss|);
      ss, vs := ss + [s], vs + [s.view];
    }
  }

  class SkipShardedMap<V> {
    const hash: string -> nat
    const count: nat
    const mask: nat
    const shards: seq<SkipList<V>>
    var itemCount: int
    ghost var model: map<string, V>          // the flat map that the shards hold together
    ghost var views: seq<View<V>>            // the states of the shards
    ghost var owner: map<SkipNode<V>, nat>   // which shard a node belongs to

    function Index(key: string): (i: nat)
    {
      ShardOf(hash, mask, key)
    }

    ghost predicate Sized()
    {
      PowerOfTwo(count) && |shards| == count && mask == count - 1
    }

    lemma IndexInRange(key: string)
      requires Sized()
      ensures Index(key) == hash(key) % count < count == |shards|
    {
      var e: nat :| count == Pow2(e);
      MaskIsRemainder(hash(key), e);
    }

    /** The shards are valid lists with the recorded states, and none reaches into another. */
    ghost predicate Backed()
      reads this`views, this`owner, shards, owner.Keys
    {
      && |views| == |shards| && Apart(views, owner)
      && (forall i, j :: 0 <= i < j < |shards| ==> shards[i] != shards[j])
      && (forall i :: 0 <= i < |shards| ==> shards[i].view == views[i])
      && (forall i, n :: 0 <= i < |shards| && n in shards[i].view.nodes ==> n in owner)
      && (forall i :: 0 <= i < |shards| ==> shards[i].Valid())
    }

    ghost predicate Valid()
      reads this, shards, owner.Keys
    {
      && Sized() && Backed() && Split(views, hash, mask, model)
      && itemCount == |model|
    }

    /** An update of one shard leaves the others as they were. */
    twostate lemma OthersKept(i: nat)
      requires old(Backed()) && i < |shards| && unchanged(this)
      requires forall j :: 0 <= j < |shards| && j != i ==> unchanged(shards[j])
      requires forall n :: n in owner && owner[n] != i ==> unchanged(n)
      ensures forall j :: 0 <= j < |shards| && j != i ==> shards[j].view == views[j] && shards[j].Valid()
    {
      forall j | 0 <= j < |shards| && j != i
        ensures shards[j].view == views[j] && shards[j].Valid()
      {
        forall m | 0 <= m < |shards[j].view.nodes|
          ensures unchanged(shards[j].view.nodes[m])
        {
          var n := shards[j].view.nodes[m];
          assert n in views[j].nodes;
          assert owner[n] == j;
        }
        ViewKept(shards[j]);
      }
    }

    twostate lemma ViewKept(list: SkipList<V>)
      requires old(list.Valid()) && unchanged(list)
      requires forall m :: 0 <= m < |list.view.nodes| ==> unchanged(list.view.nodes[m])
      ensures list.Valid()
    {
      hide View.Wf;
    }

    constructor (hash: string -> nat, shardCount: int)
      ensures Valid() && model == map[] && this.hash == hash
      ensures fresh(shards) && fresh(owner.Keys) && count == RoundUp(shardCount)
    {
      hide SkipList.Valid, RoundUp, RoundFrom, PowerOfTwo, Apart, Split;
      var n := RoundUp(shardCount);
      var ss, own, vs := MakeShards<V>(n);
      SplitEmpty(vs, hash, n - 1);
      this.hash, count, mask, shards := hash, n, n - 1, ss;
      itemCount, model, owner, views := 0, map[], own, vs;
    }

    method Load(key: string) returns (r: Option<V>)
      requires Valid()
      ensures r == if key in model then Some(model[key]) else None
    {
      hide SkipList.Valid;
      IndexInRange(key);
      r := shards[Index(key)].Get(key);
    }

    /** Ghost bookkeeping after shard i has changed. */
    ghost method Refresh(i: nat)
      requires i < |shards| == |views| && Apart(views, owner)
      requires forall n :: n in shards[i].view.nodes && n in owner ==> owner[n] == i
      requires forall i, j :: 0 <= i < j < |shards| ==> shards[i] != shards[j]
      requires forall j :: 0 <= j < |shards| && j != i ==> shards[j].view == views[j] && shards[j].Valid()
      requires shards[i].Valid()
      modifies this`owner, this`views
      ensures Backed() && views == old(views)[i := shards[i].view]
      ensures owner.Keys == old(owner.Keys) + set n | n in shards[i].view.nodes
    {
      hide SkipList.Valid;
      ApartReplace(views, owner, i, shards[i].view);
      owner := Owning(owner, shards[i].view, i);
      views := views[i := shards[i].view];
    }

    method StoreAt(i: nat, key: string, value: V) returns (exists': bool)
      requires Backed() && i < |shards|
      modifies this`views, this`owner, shards, owner.Keys
      ensures Backed() && |views| == |old(views)| == |shards| && views == old(views)[i := views[i]]
      ensures views[i].model == old(views)[i].model[key := value]
      ensures exists' <==> key in old(views)[i].model
      ensures fresh(owner.Keys - old(owner.Keys))
    {
      hide SkipList.Valid;
      var shard := shards[i];
      var r := shard.Get(key);
      shard.Set(key, value);
      OthersKept(i);
      Refresh(i);
      exists' := r.Some?;
    }

    method DeleteAt(i: nat, key: string) returns (found: bool)
      requires Backed() && i < |shards|
      modifies this`views, this`owner, shards, owner.Keys
      ensures Backed() && |views| == |old(views)| == |shards| && views == old(views)[i := views[i]]
      ensures views[i].model == old(views)[i].model - {key}
      ensures found <==> key in old(views)[i].model
      ensures owner.Keys == old(owner.Keys)
    {
      hide SkipList.Valid;
      var shard := shards[i];
      found := shard.Delete(key);
      OthersKept(i);
      Refresh(i);
    }

    method Store(key: string, value: V)
      requires Valid()
      modifies this, shards, owner.Keys
      ensures Valid() && model == old(model)[key := value]
      ensures fresh(owner.Keys - old(owner.Keys))
    {
      hide Backed, Sized, ShardOf, Split;
      IndexInRange(key);
      var i := Index(key);
      var exists' := StoreAt(i, key, value);
      SplitStore(old(views), hash, mask, model, key, value, views[i]);
      if !exists' {
        itemCount := itemCount + 1;
      }
      model := model[key := value];
    }

    method Delete(key: string)
      requires Valid()
      modifies this, shards, owner.Keys
      ensures Valid() && model == old(model) - {key}
      ensures owner.Keys == old(owner.Keys)
    {
      hide Backed, Sized, ShardOf, Split;
      IndexInRange(key);
      var i := Index(key);
      var found := DeleteAt(i, key);
      SplitDelete(old(views), hash, mask, model, key, views[i]);
      if found {
        itemCount := itemCount - 1;
      }
      model := model - {key};
    }

    method LoadAndDelete(key: string) returns (r: Option<V>)
      requires Valid()
      modifies this, shards, owner.Keys
      ensures Valid() && model == old(model) - {key}
      ensures r == if key in old(model) then Some(old(model)[key]) else None
      ensures owner.Keys == old(owner.Keys)
    {
      hide Backed, Split, Sized;
      r := Load(key);
      if r.None? {
        assert model == model - {key};
        return;
      }
      Delete(key);
    }

    method Count() returns (n: int)
      requires Valid()
      ensures n == |model|
    {
      n := itemCount;
    }

    /** itemCount is the total number of entries over the shards. */
    lemma CountIsTotal()
      requires Valid()
      ensures itemCount == SizeSum(views)
    {
      hide Backed, Pow2, BitAnd;
      SplitCounts(views, |views|, hash, mask, model);
      assert views[..|views|] == views;
      assert KeysBelow(hash, mask, model, |views|) == model.Keys;
    }

    /** The entries of one shard in key order, as Range takes its snapshots. */
    method Snapshot(i: nat) returns (entries: seq<(string, V)>)
      requires Valid() && i < count
      ensures forall j :: 0 <= j < |entries| ==>
                entries[j].0 in model && entries[j].1 == model[entries[j].0] && Index(entries[j].0) == i
      ensures forall k :: k in model && Index(k) == i ==> Reported(entries, k)
      ensures forall a, b :: 0 <= a < b < |entries| ==> entries[a].0 != entries[b].0
    {
      hide SkipList.Valid, BitAnd, PowerOfTwo, Apart, Split, Visited;
      entries := shards[i].ForEach(Always<V>());
      SnapshotIsShard(views, hash, mask, model, i, entries);
    }

    /** Visits the shards one after another until the limit is used up; a refusal of the visitor ends only the
        shard it happens in. */
    method RangeKeys(startKey: string, endKey: string, limit: int, visit: (string, V) -> bool)
      returns (visited: seq<(string, V)>)
      requires Valid()
      ensures Queried(Query(hash, mask, startKey, endKey, limit, visit), model, visited)
    {
      hide SkipList.Valid, BitAnd, PowerOfTwo, Apart, Visited, Split, Covered, Queried;
      ghost var q := Query(hash, mask, startKey, endKey, limit, visit);
      CoveredNone(q, views, model);
      visited := [];
      if Less(endKey, startKey) && endKey != "" {
        NothingSelected(q, model);
        return;
      }
      var i := 0;
      while i < count && (limit <= 0 || |visited| < limit)
        invariant 0 <= i <= count
        invariant limit > 0 ==> |visited| <= limit
        invariant Covered(q, views, model, i, visited)
      {
        var more := shards[i].Range(startKey, endKey, limit - |visited|, visit);
        CoverShard(q, views, model, i, visited, more);
        visited := visited + more;
        i := i + 1;
      }
      CoveredAll(q, views, model, i, visited);
    }
  }
}

/** What range queries over the shards answer, and when they end. */
module RangeQueries {
  import opened Sets
  import opened KeyOrder
  import opened SkipListViews
  import opened ShardIndex
  import opened ShardedMaps

  lemma BeforeIsOrder<V>(q: Query<V>, j: string, k: string)
    ensures q.Before(j, k) ==> !q.Before(k, j) && j != k
    ensures j == k || q.Before(j, k) || q.Before(k, j)
  {
    hide ShardOf, Less;
    LessIsTotal(j, k);
    LessIsIrreflexive(j);
    if Less(j, k) {
      LessIsAsymmetric(j, k);
    }
  }

  /** The keys of the range, live or not, that a query meets before a key. */
  function Earlier<V>(q: Query<V>, model: map<string, V>, k: string): (keys: set<string>)
  {
    set j | j in model && q.Selects(j) && q.Before(j, k)
  }

  ghost function KeysOf<V>(visited: seq<(string, V)>): (keys: set<string>)
    ensures forall k :: k in keys <==> Reported(visited, k)
  {
    set j | 0 <= j < |visited| :: visited[j].0
  }

  lemma {:induction false} KeyCount<V>(visited: seq<(string, V)>)
    requires forall a, b :: 0 <= a < b < |visited| ==> visited[a].0 != visited[b].0
    ensures |KeysOf(visited)| == |visited|
  {
    if visited != [] {
      var n := |visited| - 1;
      var rest := visited[..n];
      KeyCount(rest);
      assert KeysOf(visited) == KeysOf(rest) + {visited[n].0} by {
        assert forall j :: 0 <= j < n ==> visited[j].0 == rest[j].0;
      }
      assert visited[n].0 !in KeysOf(rest);
    }
  }

  lemma EachOnce<V>(q: Query<V>, model: map<string, V>, visited: seq<(string, V)>)
    requires InOrder(q, model, visited)
    ensures forall a, b :: 0 <= a < b < |visited| ==> visited[a].0 != visited[b].0
  {
    hide ShardOf, InRange;
    forall a, b | 0 <= a < b < |visited|
      ensures visited[a].0 != visited[b].0
    {
      BeforeIsOrder(q, visited[a].0, visited[b].0);
    }
  }

  ghost predicate Unrefused<V>(q: Query<V>, visited: seq<(string, V)>)
  {
    forall j :: 0 <= j < |visited| ==> q.visit(visited[j].0, visited[j].1)
  }

  /** Without refusals an entry's position is the number of keys before it. */
  lemma PositionIsRank<V>(q: Query<V>, model: map<string, V>, visited: seq<(string, V)>, i: nat)
    requires Queried(q, model, visited) && Unrefused(q, visited) && i < |visited|
    ensures |Earlier(q, model, visited[i].0)| == i
  {
    hide ShardOf, InRange;
    var first, k := visited[..i], visited[i].0;
    EachOnce(q, model, visited);
    KeyCount(first);
    forall j | j in Earlier(q, model, k)
      ensures Reported(first, j)
    {
      BeforeIsOrder(q, j, k);
      assert Accounted(q, visited, j);
      var b :| 0 <= b < |visited| && visited[b].0 == j;
      assert b < i;
      assert first[b].0 == j;
    }
    assert KeysOf(first) == Earlier(q, model, k);
  }

  /** Without refusals a missed entry has at least limit keys before it. */
  lemma MissedIsCrowdedOut<V>(q: Query<V>, model: map<string, V>, visited: seq<(string, V)>, k: string)
    requires Queried(q, model, visited) && Unrefused(q, visited) && k in model && q.Selects(k) && !Reported(visited, k)
    ensures 0 < q.limit <= |Earlier(q, model, k)|
  {
    hide ShardOf, InRange;
    assert CrowdedOut(q, visited, k);
    EachOnce(q, model, visited);
    KeyCount(visited);
    SubsetSize(KeysOf(visited), Earlier(q, model, k));
  }

  /** A query whose visitor refuses nothing reports exactly the entries with fewer than limit keys before them. */
  lemma ReportedIff<V>(q: Query<V>, model: map<string, V>, visited: seq<(string, V)>, k: string)
    requires Queried(q, model, visited) && Unrefused(q, visited)
    ensures Reported(visited, k) <==>
              k in model && q.Selects(k) && (q.limit <= 0 || |Earlier(q, model, k)| < q.limit)
  {
    hide ShardOf, InRange, Earlier;
    if Reported(visited, k) {
      var i :| 0 <= i < |visited| && visited[i].0 == k;
      PositionIsRank(q, model, visited, i);
    } else if k in model && q.Selects(k) {
      MissedIsCrowdedOut(q, model, visited, k);
    }
  }

  /** Some later shard holds a key of the range. */
  ghost predicate MoreAfter<V>(q: Query<V>, model: map<string, V>, k: string)
  {
    exists j :: j in model && q.Selects(j) && q.Shard(j) > q.Shard(k)
  }

  /** The first refusal ends the query exactly if it used up the limit or no later shard holds a key of the range. */
  lemma RefusalEndsQueryIff<V>(q: Query<V>, model: map<string, V>, visited: seq<(string, V)>, f: nat)
    requires Queried(q, model, visited) && f < |visited| && !q.visit(visited[f].0, visited[f].1)
    requires Unrefused(q, visited[..f])
    ensures |visited| == f + 1 <==> q.limit == f + 1 || !MoreAfter(q, model, visited[f].0)
  {
    hide ShardOf, InRange;
    assert forall k :: k in model && q.Selects(k) ==> Accounted(q, visited, k);
    if |visited| > f + 1 {
      var next := visited[f + 1].0;
      assert q.Before(visited[f].0, next);
      assert q.Shard(next) > q.Shard(visited[f].0);
    }
  }

  function Never<V>(): (visit: (string, V) -> bool)
  {
    (k, v) => false
  }

  /** Two shards with one entry each: both are visited although the visitor refuses the first. */
  lemma RefusalDoesNotStop<V>(v: V, w: V)
    ensures var q := Query((k: string) => |k| as nat, 1, "", "", 0, Never<V>());
            && Queried(q, map["a" := v, "bb" := w], [("bb", w), ("a", v)])
            && !q.visit("bb", w)
  {
    assert BitAnd(1, 1) == 1 && BitAnd(2, 1) == 0;
    var q := Query((k: string) => |k| as nat, 1, "", "", 0, Never<V>());
    var visited := [("bb", w), ("a", v)];
    assert q.Shard("bb") == 0 && q.Shard("a") == 1;
    assert visited[0].0 == "bb" && visited[1].0 == "a";
    assert Reported(visited, "bb") && Reported(visited, "a");
  }
}
