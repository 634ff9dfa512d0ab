/** Which replicas of a key survive node removals, on ring values. */
module ReplicaSets {
  import opened Wrappers
  import opened Sequences
  import opened Filters
  import opened Rings

  /** The nodes a key is read from and written to. */
  function Targets(r: Ring, h: nat, factor: int): (r': seq<string>)
  {
    if factor > 1 then Replicas(r, h, factor) else [Primary(r, h)]
  }

  type Stores<V> = map<string, map<string, V>>

  /** The first reachable target that has the key answers. */
  function Lookup<V>(stores: Stores<V>, ids: seq<string>, key: string, failing: set<string>): (r: Option<V>)
  {
    if ids == [] then None
    else if ids[0] in stores && ids[0] !in failing && key in stores[ids[0]] then Some(stores[ids[0]][key])
    else Lookup(stores, ids[1..], key, failing)
  }

  function RemovedAll(r: Ring, nodes: seq<string>): (r': Ring)
  {
    if nodes == [] then r else Removed(RemovedAll(r, nodes[..|nodes| - 1]), nodes[|nodes| - 1])
  }

  function Names(s: seq<string>): (r: set<string>)
  {
    set x | x in s
  }

  /** Removing nodes keeps the remaining nodes' points and owners as they were. */
  ghost predicate KeptBy(r: Ring, r': Ring, gone: set<string>)
  {
    && Inv(r')
    && r'.points == r.points - gone
    && r'.weights == r.weights - gone
    && (forall x :: x in r.owner && r.owner[x] !in gone ==> x in r'.owner && r'.owner[x] == r.owner[x])
  }

  lemma RemovedKeeps(r: Ring, r': Ring, gone: set<string>, node: string)
    requires Inv(r) && KeptBy(r, r', gone)
    requires node in r.points ==> Unshared(r, node)
    ensures KeptBy(r, Removed(r', node), gone + {node})
    ensures node in r'.points ==> OwnsItsPoints(r', node)
  {
    hide Filter, Ordered;
    RemovedKeepsInv(r', node);
    if node in r'.points {
      assert r'.points[node] == r.points[node];
      var xs := Elements(r'.points[node]);
      forall x | x in r.owner && r.owner[x] !in gone + {node}
        ensures x !in xs
      {
        assert x in r.points[r.owner[x]];
      }
    }
    assert r'.points - {node} == r.points - (gone + {node});
    assert r'.weights - {node} == r.weights - (gone + {node});
  }

  lemma {:induction false} RemovalsDeleteFromPreference(r: Ring, nodes: seq<string>, h: nat)
    requires Inv(r)
    requires forall n :: n in nodes && n in r.points ==> Unshared(r, n)
    ensures KeptBy(r, RemovedAll(r, nodes), Names(nodes))
    ensures Preference(RemovedAll(r, nodes), h) == Filter(NotIn(Names(nodes)), Preference(r, h))
  {
    hide Inv, Unshared, OwnsItsPoints, Preference, Filter, Removed;
    if nodes == [] {
      NothingRemoved(r, h);
    } else {
      var before, last := nodes[..|nodes| - 1], nodes[|nodes| - 1];
      RemovalsDeleteFromPreference(r, before, h);
      var r' := RemovedAll(r, before);
      RemovedKeeps(r, r', Names(before), last);
      assert Names(nodes) == Names(before) + {last};
      OneMoreDeleted(r, r', Names(before), last, h);
    }
  }

  /** Nodes with unshared points that are all on the ring can be removed one after the other without a panic. */
  lemma RemovalsReturn(r: Ring, nodes: seq<string>, i: nat)
    requires Inv(r) && i < |nodes|
    requires forall n :: n in nodes && n in r.points ==> Unshared(r, n) && Whole(r, n)
    ensures Removing(RemovedAll(r, nodes[..i]), nodes[i]).Done?
  {
    var before := nodes[..i];
    assert forall n :: n in before ==> n in nodes;
    RemovalsDeleteFromPreference(r, before, 0);
    hide RemovedAll, Preference, Filter, Ordered;
    var r' := RemovedAll(r, before);
    StillWhole(r, r', Names(before), nodes[i]);
    WholeIsRemovable(r', nodes[i]);
  }

  lemma StillWhole(r: Ring, r': Ring, gone: set<string>, node: string)
    requires Inv(r) && KeptBy(r, r', gone) && (node in r.points ==> Unshared(r, node) && Whole(r, node))
    ensures Whole(r', node)
  {
    hide Ordered;
    if node in r'.points {
      forall x | x in r'.points[node]
        ensures x in r'.owner
      {
        assert r.owner[x] == node;
      }
    }
  }

  lemma NothingRemoved(r: Ring, h: nat)
    requires Inv(r)
    ensures KeptBy(r, r, Names([]))
    ensures Filter(NotIn(Names([])), Preference(r, h)) == Preference(r, h)
  {
    assert Names([]) == {};
    FilterAll(NotIn(Names([])), Preference(r, h));
  }

  lemma OneMoreDeleted(r: Ring, r': Ring, gone: set<string>, node: string, h: nat)
    requires Inv(r) && KeptBy(r, r', gone)
    requires node in r'.points ==> OwnsItsPoints(r', node)
    requires Preference(r', h) == Filter(NotIn(gone), Preference(r, h))
    ensures Preference(Removed(r', node), h) == Filter(NotIn(gone + {node}), Preference(r, h))
  {
    var p := Preference(r, h);
    FilterTwice(NotIn(gone), Other(node), NotIn(gone + {node}), p);
    if node in r'.points {
      RemovalDeletesFromPreference(r', node, h);
    } else {
      PreferenceIsOwners(r', h);
      hide Preference;
      assert node !in Preference(r', h);
      FilterAll(Other(node), Preference(r', h));
    }
  }

  /** The node is registered, reachable and has the key. */
  predicate Holds<V>(stores: Stores<V>, id: string, key: string, failing: set<string>)
  {
    id in stores && id !in failing && key in stores[id]
  }

  /** Position i is the first target that holds the key. */
  ghost predicate FirstHolder<V>(stores: Stores<V>, ids: seq<string>, key: string, failing: set<string>, i: nat)
  {
    i < |ids| && Holds(stores, ids[i], key, failing) && forall j :: 0 <= j < i ==> !Holds(stores, ids[j], key, failing)
  }

  /** The first holder has this value. */
  ghost predicate Answered<V>(stores: Stores<V>, ids: seq<string>, key: string, failing: set<string>, v: V)
  {
    exists i :: 0 <= i < |ids| && FirstHolder(stores, ids, key, failing, i) && stores[ids[i]][key] == v
  }

  /** A lookup finds exactly what the first holder has. */
  lemma {:induction false} LookupAsksFirstHolder<V>(stores: Stores<V>, ids: seq<string>, key: string,
                                                    failing: set<string>, v: V)
    ensures Lookup(stores, ids, key, failing) == Some(v) <==> Answered(stores, ids, key, failing, v)
    decreases |ids|
  {
    if ids != [] {
      if Holds(stores, ids[0], key, failing) {
        assert FirstHolder(stores, ids, key, failing, 0);
      } else {
        var rest := ids[1..];
        LookupAsksFirstHolder(stores, rest, key, failing, v);
        assert forall i :: 0 <= i < |rest| ==> rest[i] == ids[i + 1];
        if Answered(stores, rest, key, failing, v) {
          var i :| 0 <= i < |rest| && FirstHolder(stores, rest, key, failing, i) && stores[rest[i]][key] == v;
          assert FirstHolder(stores, ids, key, failing, i + 1);
        }
        if Answered(stores, ids, key, failing, v) {
          var i :| 0 <= i < |ids| && FirstHolder(stores, ids, key, failing, i) && stores[ids[i]][key] == v;
          assert FirstHolder(stores, rest, key, failing, i - 1);
        }
      }
    }
  }

  /** If the first nodes asked all have the value and one of them is reachable, that is the answer. */
  lemma {:induction false} SpareReplicaAnswers<V>(stores: Stores<V>, first: seq<string>, rest: seq<string>, key: string,
                                                  failing: set<string>, value: V, spare: string)
    requires forall id :: id in first ==> id in stores && key in stores[id] && stores[id][key] == value
    requires spare in first && spare !in failing
    ensures Lookup(stores, first + rest, key, failing) == Some(value)
    decreases |first|
  {
    assert (first + rest)[1..] == first[1..] + rest;
    if first[0] in failing {
      SpareReplicaAnswers(stores, first[1..], rest, key, failing, value, spare);
    }
  }

  /** The part of a prefix that survives a filter is a prefix of what survives. */
  lemma SurvivorsLead(gone: set<string>, p: seq<string>, s: seq<string>)
    requires p <= s
    ensures Filter(NotIn(gone), p) <= Filter(NotIn(gone), s) && |Filter(NotIn(gone), p)| <= |p|
  {
    hide Filter;
    assert s == p + s[|p|..];
    FilterConcat(NotIn(gone), p, s[|p|..]);
  }

  /** A ring on which every node owns a point keeps that property. */
  lemma RemovalsKeepAllOwn(r: Ring, nodes: seq<string>)
    requires Inv(r) && AllOwn(r)
    requires forall n :: n in nodes && n in r.points ==> Unshared(r, n)
    ensures Inv(RemovedAll(r, nodes)) && AllOwn(RemovedAll(r, nodes))
  {
    RemovalsDeleteFromPreference(r, nodes, 0);
    hide Inv, RemovedAll;
    var r' := RemovedAll(r, nodes);
    forall n | n in r'.weights
      ensures OwnsAPoint(r', n)
    {
      var x :| x in r.owner && r.owner[x] == n;
      assert r'.owner[x] == n;
    }
  }

  /** The targets: the first nodes of the preference list, as many as the factor asks for and there are. */
  lemma TargetsAreFirstOwners(r: Ring, h: nat, factor: int)
    requires Inv(r) && AllOwn(r) && |Preference(r, h)| > 0
    ensures Targets(r, h, factor) <= Preference(r, h) && Distinct(Targets(r, h, factor))
    ensures |Targets(r, h, factor)| == if factor > 1 then Min(factor, |r.weights|) else 1
    ensures forall id :: id in Targets(r, h, factor) ==> id in r.weights
  {
    hide Inv, AllOwn, Preference;
    PreferenceIsOwners(r, h);
    if r.sorted == [] {
      NothingToCollect(r, h);
    }
    var p, ts := Preference(r, h), Targets(r, h, factor);
    assert forall i :: 0 <= i < |ts| ==> ts[i] == p[i] && ts[i] in p;
  }

  /** After removals the surviving old targets are the first new ones. */
  lemma SurvivingTargetsLead(r: Ring, nodes: seq<string>, h: nat, factor: int, survivor: string)
    requires Inv(r) && AllOwn(r) && r.sorted != []
    requires forall n :: n in nodes && n in r.points ==> Unshared(r, n)
    requires survivor in Targets(r, h, factor) && survivor !in nodes
    ensures var r' := RemovedAll(r, nodes);
            && Inv(r') && AllOwn(r')
            && survivor in Filter(NotIn(Names(nodes)), Targets(r, h, factor))
            && Filter(NotIn(Names(nodes)), Targets(r, h, factor)) <= Targets(r', h, factor)
  {
    hide Preference, Inv, AllOwn, Unshared, RemovedAll, Removed, Targets, KeptBy, Distinct, Holders;
    var r' := RemovedAll(r, nodes);
    RemovalsDeleteFromPreference(r, nodes, h);
    RemovalsKeepAllOwn(r, nodes);
    PreferenceIsOwners(r, h);
    PreferenceIsOwners(r', h);
    TargetsAreFirstOwners(r, h, factor);
    SurvivorsLead(Names(nodes), Targets(r, h, factor), Preference(r, h));
    TargetsAreFirstOwners(r', h, factor);
  }

  /**
   A key written to all its targets is answered with the written value after any
   removals and failures that leave one of these targets, and the first target
   asked is one of them.
   */
  lemma SurvivingReplicaAnswers<V>(r: Ring, stores: Stores<V>, nodes: seq<string>, h: nat, factor: int,
                                   key: string, value: V, failing: set<string>, survivor: string)
    requires Inv(r) && AllOwn(r) && r.sorted != []
    requires forall n :: n in Targets(r, h, factor) ==> n in stores && key in stores[n] && stores[n][key] == value
    requires forall n :: n in nodes && n in r.points ==> Unshared(r, n)
    requires survivor in Targets(r, h, factor) && survivor !in nodes && survivor !in failing
    ensures var r' := RemovedAll(r, nodes);
            && AllOwn(r') && |Targets(r', h, factor)| > 0
            && Targets(r', h, factor)[0] in Targets(r, h, factor)
            && Targets(r', h, factor)[0] !in nodes
            && Lookup(stores - Names(nodes), Targets(r', h, factor), key, failing) == Some(value)
  {
    hide Inv, AllOwn, Unshared, RemovedAll, Targets, Lookup;
    SurvivingTargetsLead(r, nodes, h, factor, survivor);
    var ts, first := Targets(RemovedAll(r, nodes), h, factor), Filter(NotIn(Names(nodes)), Targets(r, h, factor));
    hide Filter;
    assert ts == first + ts[|first|..];
    assert first[0] in first;
    SpareReplicaAnswers(stores - Names(nodes), first, ts[|first|..], key, failing, value, survivor);
  }
}

/** The replicated cache of cache/nodesharding.go. */
module NodeShardedCaches {
  import opened Wrappers
  import opened Filters
  import opened Rings
  import opened ConsistentHashing
  import opened ReplicaSets

  /** A node's own cache, seen through its interface. */
  class Cache<V> {
    var data: map<string, V>

    constructor ()
      ensures data == map[]
    {
      data := map[];
    }
  }

  /** Panic stands for a call that does not return. */
  datatype Failure = NilCache | NodeExists | NoSuchNode | NoNodes | KeyNotFound | WriteFailed | DeleteFailed | Panic

  class NodeShardedCache<V> {
    const ring: ConsistentHash
    var nodes: map<string, Cache<V>>
    const replicaFactor: int

    /** The node map and the ring always name the same nodes. */
    ghost predicate Valid()
      reads this, ring
    {
      ring.Valid() && nodes.Keys == ring.weights.Keys
    }

    ghost function Contents(): (r: Stores<V>)
      reads this, nodes.Values
    {
      map id | id in nodes :: nodes[id].data
    }

    ghost function TargetsOf(key: string): (r: seq<string>)
      reads this, ring
    {
      Targets(ring.State(), ring.hashFunc(key), replicaFactor)
    }

    /** The ring walk for a key comes to an end. */
    ghost predicate Walkable()
      reads this, ring
    {
      replicaFactor > 1 && ring.sortedHashes != [] ==>
        Min(replicaFactor, |ring.weights|) <= |Holders(ring.State())|
    }

    constructor (replicas: int, fn: string -> nat, factor: int)
      ensures Valid() && nodes == map[] && ring.State() == EMPTY && fresh(ring)
      ensures replicaFactor == if factor > 0 then factor else 1
    {
      ring := new ConsistentHash(replicas, fn);
      nodes := map[];
      replicaFactor := if factor > 0 then factor else 1;
    }

    method AddNode(nodeID: string, cache: Cache?<V>, weight: int) returns (r: Result<(), Failure>)
      requires Valid()
      modifies this, ring
      ensures Valid()
      ensures r == if cache == null then Err(NilCache) else if nodeID in old(nodes) then Err(NodeExists) else Ok(())
      ensures r.Ok? ==>
                && nodes == old(nodes)[nodeID := cache]
                && ring.State() == Added(old(ring.State()), ring.hashFunc, ring.replicas, nodeID, weight)
      ensures r.Err? ==> nodes == old(nodes) && ring.State() == old(ring.State())
    {
      hide Inv, Filter, Sort, PointsOf;
      if cache == null {
        return Err(NilCache);
      }
      if nodeID in nodes {
        return Err(NodeExists);
      }
      var _ := ring.Add(nodeID, weight);
      nodes := nodes[nodeID := cache];
      return Ok(());
    }

    /** Map and ring lose the node together, unless the ring's removal panics: exactly if the ring has fewer points
        than the node has different ones. Then the node stays registered on a half-changed ring. */
    method RemoveNode(nodeID: string) returns (r: Result<(), Failure>)
      requires Valid()
      modifies this, ring
      ensures r == if nodeID !in old(nodes) then Err(NoSuchNode)
                   else if Removable(old(ring.State()), nodeID) then Ok(()) else Err(Panic)
      ensures ring.State() == Removing(old(ring.State()), nodeID).ring
      ensures r != Err(Panic) ==>
                Valid() && nodes == old(nodes) - {nodeID} && ring.State() == Removed(old(ring.State()), nodeID)
      ensures r == Err(Panic) ==> nodes == old(nodes)
    {
      if nodeID !in nodes {
        assert nodes == nodes - {nodeID};
        return Err(NoSuchNode);
      }
      assert nodeID in ring.nodeHashes;
      hide Inv, Filter;
      var removed := ring.Remove(nodeID);
      if !removed {
        return Err(Panic);
      }
      nodes := nodes - {nodeID};
      return Ok(());
    }

    /** The ring names exactly the nodes whose caches are held. */
    method GetNodeIDs() returns (ids: set<string>)
      requires Valid()
      ensures forall id :: id in ids <==> id in nodes
    {
      ids := ring.GetNodes();
    }

    method NodesFor(key: string) returns (ids: seq<string>)
      requires Valid() && Walkable()
      ensures ids == TargetsOf(key)
    {
      if replicaFactor > 1 {
        ids := ring.GetN(key, replicaFactor);
      } else {
        var id := ring.Get(key);
        ids := [id];
      }
    }

    /** The first target that is registered, reachable and has the key answers; failing caches do not. */
    method Get(key: string, failing: set<string>) returns (r: Result<V, Failure>)
      requires Valid() && Walkable()
      ensures nodes == map[] ==> r == Err(NoNodes)
      ensures nodes != map[] ==>
                match Lookup(Contents(), TargetsOf(key), key, failing)
                case Some(v) => r == Ok(v)
                case None => r == Err(KeyNotFound)
      ensures nodes != map[] ==>
                forall v :: r == Ok(v) <==> Answered(Contents(), TargetsOf(key), key, failing, v)
    {
      hide Inv, Primary, Replicas, Targets, Answered;
      if |nodes| == 0 {
        return Err(NoNodes);
      }
      var ids := NodesFor(key);
      forall v: V
        ensures Lookup(Contents(), ids, key, failing) == Some(v) <==> Answered(Contents(), ids, key, failing, v)
      {
        LookupAsksFirstHolder(Contents(), ids, key, failing, v);
      }
      for i := 0 to |ids|
        invariant Lookup(Contents(), ids[i..], key, failing) == Lookup(Contents(), ids, key, failing)
      {
        assert ids[i..][0] == ids[i] && ids[i..][1..] == ids[i + 1..];
        if ids[i] in nodes && ids[i] !in failing && key in nodes[ids[i]].data {
          return Ok(nodes[ids[i]].data[key]);
        }
      }
      return Err(KeyNotFound);
    }

    /** Some of the first n ids reaches this cache. */
    ghost predicate Reached(ids: seq<string>, n: nat, failing: set<string>, c: Cache<V>)
      reads this
      requires n <= |ids|
    {
      exists j :: 0 <= j < n && ids[j] in nodes && ids[j] !in failing && nodes[ids[j]] == c
    }

    method Set(key: string, value: V, failing: set<string>) returns (r: Result<(), Failure>)
      requires Valid() && Walkable()
      modifies nodes.Values
      ensures forall c :: c in nodes.Values ==>
                c.data == if Reached(TargetsOf(key), |TargetsOf(key)|, failing, c)
                          then old(c.data)[key := value] else old(c.data)
      ensures nodes == map[] ==> r == Err(NoNodes)
      ensures r.Ok? <==> exists id :: id in TargetsOf(key) && id in nodes && id !in failing
    {
      hide Inv, Primary, Replicas;
      if |nodes| == 0 {
        return Err(NoNodes);
      }
      var ids := NodesFor(key);
      var stored := false;
      for i := 0 to |ids|
        invariant forall c :: c in nodes.Values ==>
                    c.data == if Reached(ids, i, failing, c) then old(c.data)[key := value] else old(c.data)
        invariant stored <==> exists j :: 0 <= j < i && ids[j] in nodes && ids[j] !in failing
      {
        if ids[i] in nodes && ids[i] !in failing {
          var cache := nodes[ids[i]];
          cache.data := cache.data[key := value];
          stored := true;
        }
      }
      if stored {
        return Ok(());
      }
      return Err(WriteFailed);
    }

    method Del(key: string, failing: set<string>) returns (r: Result<(), Failure>)
      requires Valid() && Walkable()
      modifies nodes.Values
      ensures forall c :: c in nodes.Values ==>
                c.data == if Reached(TargetsOf(key), |TargetsOf(key)|, failing, c)
                          then old(c.data) - {key} else old(c.data)
      ensures r.Err? <==>
                && (exists id :: id in TargetsOf(key) && id in nodes)
                && (forall id :: id in TargetsOf(key) && id in nodes ==> id in failing)
    {
      hide Inv, Primary, Replicas;
      if |nodes| == 0 {
        return Ok(());
      }
      var ids := NodesFor(key);
      var tried, failed := 0, 0;
      for i := 0 to |ids|
        invariant forall c :: c in nodes.Values ==>
                    c.data == if Reached(ids, i, failing, c) then old(c.data) - {key} else old(c.data)
        invariant 0 <= failed <= tried
        invariant tried > 0 <==> exists j :: 0 <= j < i && ids[j] in nodes
        invariant failed == tried <==> forall j :: 0 <= j < i && ids[j] in nodes ==> ids[j] in failing
      {
        if ids[i] in nodes {
          tried := tried + 1;
          if ids[i] in failing {
            failed := failed + 1;
          } else {
            var cache := nodes[ids[i]];
            cache.data := cache.data - {key};
          }
        }
      }
      if failed == tried && tried > 0 {
        return Err(DeleteFailed);
      }
      return Ok(());
    }

    /** A write that reached every replica is read back after any removals and failures that spare one of them. */
    method WriteRemoveRead(key: string, value: V, removals: seq<string>, failing: set<string>, ghost survivor: string)
      returns (r: Result<V, Failure>)
      requires Valid() && AllOwn(ring.State()) && ring.sortedHashes != []
      requires forall n :: n in removals && n in ring.nodeHashes ==> Unshared(ring.State(), n) && Whole(ring.State(), n)
      requires survivor in TargetsOf(key) && survivor !in removals && survivor !in failing
      modifies this, ring, nodes.Values
      ensures r == Ok(value)
    {
      hide Inv, Unshared, Whole, AllOwn, Targets, RemovedAll, Removed, Lookup, Holders, Min;
      ghost var r0, h := ring.State(), ring.hashFunc(key);
      SetEverywhere(key, value);
      SurvivingReplicaAnswers(r0, Contents(), removals, h, replicaFactor, key, value, failing, survivor);
      RemoveNodes(removals);
      AllOwnWalkable(ring.State(), replicaFactor);
      assert survivor in nodes;
      r := GetAnswered(key, failing, value);
    }

    method GetAnswered(key: string, failing: set<string>, ghost value: V) returns (r: Result<V, Failure>)
      requires Valid() && Walkable() && nodes != map[]
      requires Lookup(Contents(), TargetsOf(key), key, failing) == Some(value)
      ensures r == Ok(value)
    {
      hide Inv, Targets, Lookup, Holders, Min, Answered;
      r := Get(key, failing);
    }

    method SetEverywhere(key: string, value: V)
      requires Valid() && AllOwn(ring.State()) && ring.sortedHashes != []
      modifies nodes.Values
      ensures forall id :: id in TargetsOf(key) ==>
                id in nodes && key in Contents()[id] && Contents()[id][key] == value
    {
      hide Inv, AllOwn, Targets;
      ghost var ids := TargetsOf(key);
      AllOwnWalkable(ring.State(), replicaFactor);
      TargetsRegistered(ring.State(), ring.hashFunc(key), replicaFactor);
      var _ := Set(key, value, {});
      forall id | id in ids
        ensures id in nodes && key in nodes[id].data && nodes[id].data[key] == value
      {
        var j :| 0 <= j < |ids| && ids[j] == id;
        assert nodes[id] in nodes.Values && Reached(ids, |ids|, {}, nodes[id]);
      }
    }

    method RemoveNodes(removals: seq<string>)
      requires Valid()
      requires forall n :: n in removals && n in ring.nodeHashes ==> Unshared(ring.State(), n) && Whole(ring.State(), n)
      modifies this, ring
      ensures Valid() && ring.State() == RemovedAll(old(ring.State()), removals)
      ensures nodes == old(nodes) - Names(removals)
      ensures Contents() == old(Contents()) - Names(removals)
    {
      hide Inv, Removed, Removable, HalfRemoved, Unshared, Whole, RemovedAll, Names;
      RemovedSoFar(ring.State(), removals, 0);
      for i := 0 to |removals|
        invariant Valid() && ring.State() == RemovedAll(old(ring.State()), removals[..i])
        invariant nodes == old(nodes) - Names(removals[..i])
      {
        RemovedSoFar(old(ring.State()), removals, i);
        RemovalsReturn(old(ring.State()), removals, i);
        var _ := RemoveNode(removals[i]);
      }
      assert removals[..|removals|] == removals;
    }
  }

  lemma RemovedSoFar(r: Ring, removals: seq<string>, i: nat)
    requires i <= |removals|
    ensures i == 0 ==> RemovedAll(r, removals[..i]) == r && Names(removals[..i]) == {}
    ensures i < |removals| ==>
              && RemovedAll(r, removals[..i + 1]) == Removed(RemovedAll(r, removals[..i]), removals[i])
              && Names(removals[..i + 1]) == Names(removals[..i]) + {removals[i]}
  {
    hide Removed;
    if i < |removals| {
      assert removals[..i + 1][..i] == removals[..i];
    }
  }

  lemma AllOwnWalkable(r: Ring, factor: int)
    requires Inv(r) && AllOwn(r)
    ensures factor > 1 ==> Min(factor, |r.weights|) <= |Holders(r)|
  {
    PreferenceIsOwners(r, 0);
  }

  lemma TargetsRegistered(r: Ring, h: nat, factor: int)
    requires Inv(r) && AllOwn(r) && r.sorted != []
    ensures forall id :: id in Targets(r, h, factor) ==> id in r.weights
  {
    hide Inv, AllOwn, Preference, Targets;
    PreferenceIsOwners(r, h);
    TargetsAreFirstOwners(r, h, factor);
  }
}
