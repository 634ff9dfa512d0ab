/** The access list of cache/cachememory.go: a doubly linked list with two sentinels and a key index. */
module AccessLists {
  import opened Sequences
  import opened Filters

  /** The keys without one key. */
  function Without(keys: seq<string>, key: string): (r: seq<string>)
  {
    Filter(Other(key), keys)
  }

  lemma {:induction false} DropIsWithout(keys: seq<string>, i: nat)
    requires i < |keys| && Distinct(keys)
    ensures Without(keys, keys[i]) == Drop(keys, i)
  {
    hide Filter, Drop;
    var low, high := keys[..i], keys[i + 1..];
    assert keys == low + ([keys[i]] + high);
    FilterConcat(Other(keys[i]), low, [keys[i]] + high);
    FilterHead(Other(keys[i]), keys[i], high);
    FilterAll(Other(keys[i]), low);
    FilterAll(Other(keys[i]), high);
    assert [] + high == high;
    DropIsConcat(keys, i);
  }

  lemma DropIsConcat<T>(s: seq<T>, i: nat)
    requires i < |s|
    ensures Drop(s, i) == s[..i] + s[i + 1..]
  {
  }

  class ListNode {
    const key: string
    var prev: ListNode?
    var next: ListNode?

    constructor (key: string)
      ensures this.key == key
    {
      this.key := key;
      prev, next := null, null;
    }
  }

  ghost predicate Chained(nodes: seq<ListNode>)
    reads nodes
  {
    && Distinct(nodes)
    && (forall i :: 0 <= i < |nodes| - 1 ==> nodes[i].next == nodes[i + 1])
    && (forall i :: 1 <= i < |nodes| ==> nodes[i].prev == nodes[i - 1])
  }

  /** Takes the node at an inner position out of the chain. */
  method Unlink(node: ListNode, ghost nodes: seq<ListNode>, ghost i: nat)
    requires Chained(nodes) && 1 <= i < |nodes| - 1 && node == nodes[i]
    modifies nodes
    ensures Chained(Drop(nodes, i))
  {
    assert node.prev == nodes[i - 1] && node.next == nodes[i + 1];
    node.prev.next := node.next;
    node.next.prev := node.prev;
  }

  /** Puts a node behind the head. */
  method LinkFirst(node: ListNode, head: ListNode, ghost nodes: seq<ListNode>)
    requires Chained(nodes) && |nodes| >= 2 && head == nodes[0] && node !in nodes
    modifies nodes, node
    ensures Chained(Insert(nodes, 1, node))
  {
    var first := head.next;
    assert first == nodes[1];
    node.next := first;
    node.prev := head;
    first.prev := node;
    head.next := node;
  }

  /** Between the sentinels the nodes carry the keys, and the index finds exactly them. */
  ghost predicate Indexed(nodes: seq<ListNode>, keys: seq<string>, index: map<string, ListNode>)
  {
    && |nodes| == |keys| + 2 && Distinct(keys)
    && (forall i :: 0 <= i < |keys| ==>
          nodes[i + 1].key == keys[i] && keys[i] in index && index[keys[i]] == nodes[i + 1])
    && (forall k :: k in index ==> k in keys)
  }

  /** The position of a key, and what dropping its node leaves. */
  lemma EntryOf(nodes: seq<ListNode>, keys: seq<string>, index: map<string, ListNode>, key: string) returns (i: nat)
    requires Indexed(nodes, keys, index) && Chained(nodes) && key in index
    ensures i < |keys| && keys[i] == key && |nodes| == |keys| + 2
    ensures index[key] == nodes[i + 1] && nodes[i + 1].key == key && index[key] !in Drop(nodes, i + 1)
  {
    i :| i < |keys| && keys[i] == key;
    NotLeft(nodes, i + 1);
  }

  lemma IndexDrop(nodes: seq<ListNode>, keys: seq<string>, index: map<string, ListNode>, i: nat)
    requires Indexed(nodes, keys, index) && i < |keys|
    ensures Indexed(Drop(nodes, i + 1), Without(keys, keys[i]), index - {keys[i]})
    ensures Drop(nodes, i + 1)[0] == nodes[0] && Drop(nodes, i + 1)[|nodes| - 2] == nodes[|nodes| - 1]
    ensures keys[i] !in Without(keys, keys[i])
    ensures forall n :: n in Drop(nodes, i + 1) ==> n in nodes
  {
    hide Without;
    DropIsWithout(keys, i);
    DropMembers(keys, i);
    var keys' := Drop(keys, i);
    forall k | k in index && k != keys[i]
      ensures k in keys'
    {
      var j :| 0 <= j < |keys| && keys[j] == k;
      assert keys'[if j < i then j else j - 1] == k;
    }
  }

  lemma IndexInsert(nodes: seq<ListNode>, keys: seq<string>, index: map<string, ListNode>, node: ListNode)
    requires Indexed(nodes, keys, index) && node.key !in keys
    ensures Indexed(Insert(nodes, 1, node), [node.key] + keys, index[node.key := node])
    ensures Insert(nodes, 1, node)[0] == nodes[0] && Insert(nodes, 1, node)[|nodes|] == nodes[|nodes| - 1]
    ensures forall n :: n in Insert(nodes, 1, node) ==> n in nodes || n == node
  {
    var keys' := [node.key] + keys;
    assert forall j :: 1 <= j < |keys'| ==> keys'[j] == keys[j - 1];
  }

  class DoubleLinkedList {
    const head: ListNode
    const tail: ListNode
    var nodeMap: map<string, ListNode>

    ghost var nodes: seq<ListNode>     // the sentinels and, between them, the entries
    ghost var keys: seq<string>        // the entries' keys, most recently used first

    ghost predicate Valid()
      reads this, nodes
    {
      && Indexed(nodes, keys, nodeMap) && Chained(nodes)
      && nodes[0] == head && nodes[|nodes| - 1] == tail
    }

    constructor ()
      ensures Valid() && keys == [] && fresh(nodes)
    {
      var h := new ListNode("");
      var t := new ListNode("");
      head, tail, nodeMap := h, t, map[];
      nodes, keys := [h, t], [];
      new;
      h.next := t;
      t.prev := h;
    }

    /** Unlinks the entry of a key and drops it from the index. */
    method Detach(key: string) returns (node: ListNode)
      requires Valid() && key in nodeMap
      modifies this`nodeMap, this`nodes, this`keys, nodes
      ensures Valid() && keys == Without(old(keys), key) && key !in keys
      ensures node == old(nodeMap)[key] && node.key == key && node !in nodes && node in old(nodes)
      ensures nodeMap == old(nodeMap) - {key}
      ensures forall i :: 0 <= i < |nodes| ==> nodes[i] in old(nodes)
    {
      hide Chained, Indexed, Without, Drop;
      node := nodeMap[key];
      ghost var i := EntryOf(nodes, keys, nodeMap, key);
      IndexDrop(nodes, keys, nodeMap, i);
      Unlink(node, nodes, i + 1);
      nodeMap := nodeMap - {key};
      nodes, keys := Drop(nodes, i + 1), Without(keys, key);
    }

    /** Links a node that is not in the list behind the head. */
    method Attach(node: ListNode)
      requires Valid() && node !in nodes && node.key !in keys
      modifies this`nodeMap, this`nodes, this`keys, nodes, node
      ensures Valid() && keys == [node.key] + old(keys)
      ensures forall i :: 0 <= i < |nodes| ==> nodes[i] in old(nodes) || nodes[i] == node
    {
      assert |nodes| >= 2;
      IndexInsert(nodes, keys, nodeMap, node);
      hide Chained, Indexed;
      LinkFirst(node, head, nodes);
      nodeMap := nodeMap[node.key := node];
      nodes, keys := Insert(nodes, 1, node), [node.key] + keys;
    }

    method Add(key: string)
      requires Valid()
      modifies this, nodes
      ensures Valid() && keys == [key] + Without(old(keys), key)
      ensures forall i :: 0 <= i < |nodes| ==> nodes[i] in old(nodes) || fresh(nodes[i])
    {
      IndexTells(nodes, keys, nodeMap, key);
      hide Chained, Indexed, Without;
      if key in nodeMap {
        var _ := Detach(key);
      }
      var node := new ListNode(key);
      Attach(node);
    }

    /** Moves the entry of a key to the front. */
    method Access(key: string)
      requires Valid()
      modifies this, nodes
      ensures Valid() && keys == if key in old(keys) then [key] + Without(old(keys), key) else old(keys)
      ensures forall i :: 0 <= i < |nodes| ==> nodes[i] in old(nodes)
    {
      IndexTells(nodes, keys, nodeMap, key);
      hide Chained, Indexed, Without;
      if key in nodeMap {
        var node := Detach(key);
        Attach(node);
      }
    }

    method Del(key: string)
      requires Valid()
      modifies this, nodes
      ensures Valid() && keys == Without(old(keys), key)
      ensures forall i :: 0 <= i < |nodes| ==> nodes[i] in old(nodes)
    {
      IndexTells(nodes, keys, nodeMap, key);
      hide Chained, Indexed, Without;
      if key in nodeMap {
        var _ := Detach(key);
      }
    }

    /** The least recently used key, or the empty string. */
    method Evict() returns (key: string)
      requires Valid()
      ensures key == if keys == [] then "" else keys[|keys| - 1]
    {
      assert tail.prev == nodes[|nodes| - 2];
      if tail.prev == head {
        return "";
      }
      return tail.prev.key;
    }
  }

  lemma NotLeft(nodes: seq<ListNode>, i: nat)
    requires Distinct(nodes) && i < |nodes|
    ensures nodes[i] !in Drop(nodes, i)
  {
  }

  lemma IndexTells(nodes: seq<ListNode>, keys: seq<string>, index: map<string, ListNode>, key: string)
    requires Indexed(nodes, keys, index)
    ensures key in index <==> key in keys
    ensures key !in index ==> Without(keys, key) == keys
  {
    if key !in index {
      FilterAll(Other(key), keys);
    }
  }
}

/** The memory-bounded cache as a value: items, recency order and byte counter, and runs over it. */
module LruSpecs {
  import opened Sequences
  import opened Filters
  import opened AccessLists
  import opened TtlMaps

  /** leaked counts the bytes of values overwritten in place, which the counter never gives back. */
  datatype Lru<V> = Lru(items: Items<V>, keys: seq<string>, used: int, leaked: int)

  function SizeAt<V>(items: Items<V>, key: string, size: V -> nat): (r: nat)
  {
    if key in items then size(items[key].value) else 0
  }

  function Total<V>(keys: seq<string>, items: Items<V>, size: V -> nat): (r: nat)
  {
    if keys == [] then 0 else SizeAt(items, keys[0], size) + Total(keys[1..], items, size)
  }

  /** The keys of the recency order are the stored keys, and the counter is the live bytes plus the leaked ones. */
  ghost predicate Inv<V>(s: Lru<V>, size: V -> nat)
  {
    && Distinct(s.keys) && (forall k :: k in s.items <==> k in s.keys)
    && s.used == Total(s.keys, s.items, size) + s.leaked && s.leaked >= 0
  }

  function Forgetting<V>(s: Lru<V>, key: string, size: V -> nat): (t: Lru<V>)
  {
    Lru(s.items - {key}, Without(s.keys, key), s.used - SizeAt(s.items, key, size), s.leaked)
  }

  /** Dropping least recently used keys until need bytes fit; the empty key reads as "nothing left". */
  function Shrink<V>(s: Lru<V>, need: nat, max: int, size: V -> nat): (t: Lru<V>)
    decreases |s.keys|
  {
    if s.used + need <= max || s.keys == [] || s.keys[|s.keys| - 1] == "" then s
    else
      var t := Forgetting(s, s.keys[|s.keys| - 1], size);
      if |t.keys| < |s.keys| then Shrink(t, need, max, size) else t
  }

  function Touch(keys: seq<string>, key: string): (r: seq<string>)
  {
    [key] + Without(keys, key)
  }

  predicate Live<V>(items: Items<V>, now: int, key: string)
  {
    key in items && !Expired(items[key], now)
  }

  function LiveKeys<V>(items: Items<V>, now: int): (p: string -> bool) { k => Live(items, now, k) }
  function DeadKeys<V>(items: Items<V>, now: int): (p: string -> bool) { k => !Live(items, now, k) }

  function Stored<V>(s: Lru<V>, key: string, item: Item<V>, size: V -> nat): (t: Lru<V>)
  {
    Lru(s.items[key := item], Touch(s.keys, key), s.used + size(item.value), s.leaked + SizeAt(s.items, key, size))
  }

  function Step<V>(s: Lru<V>, e: Event<V>, max: int, size: V -> nat): (t: Lru<V>)
  {
    match e.op
    case Set(k, v, ttl) => Stored(Shrink(s, size(v), max, size), k, Item(v, e.now + ttl), size)
    case Get(k) =>
      if k !in s.items then s
      else if Expired(s.items[k], e.now) then Forgetting(s, k, size)
      else s.(keys := Touch(s.keys, k))
    case Del(k) => Forgetting(s, k, size)
    case GetRange(_, _) => s
    case CleanUp =>
      Lru(Cleaned(s.items, e.now), Filter(LiveKeys(s.items, e.now), s.keys),
          s.used - Total(Filter(DeadKeys(s.items, e.now), s.keys), s.items, size), s.leaked)
  }

  // Totals

  lemma {:induction false} TotalConcat<V>(a: seq<string>, b: seq<string>, items: Items<V>, size: V -> nat)
    ensures Total(a + b, items, size) == Total(a, items, size) + Total(b, items, size)
  {
    if a == [] {
      assert a + b == b;
    } else {
      assert (a + b)[1..] == a[1..] + b;
      TotalConcat(a[1..], b, items, size);
    }
  }

  lemma {:induction false} TotalSame<V>(keys: seq<string>, items: Items<V>, items': Items<V>, size: V -> nat)
    requires forall k :: k in keys ==> SizeAt(items, k, size) == SizeAt(items', k, size)
    ensures Total(keys, items, size) == Total(keys, items', size)
  {
    if keys != [] {
      assert keys[0] in keys;
      TotalSame(keys[1..], items, items', size);
    }
  }

  lemma {:induction false} TotalSplit<V>(keys: seq<string>, items: Items<V>, size: V -> nat,
                                         p: string -> bool, q: string -> bool)
    requires forall k :: k in keys ==> p(k) == !q(k)
    ensures Total(Filter(p, keys), items, size) + Total(Filter(q, keys), items, size) == Total(keys, items, size)
  {
    if keys != [] {
      assert keys[0] in keys;
      TotalSplit(keys[1..], items, size, p, q);
      var f, g := Filter(p, keys[1..]), Filter(q, keys[1..]);
      assert ([keys[0]] + f)[1..] == f && ([keys[0]] + g)[1..] == g;
    }
  }

  /** Taking one key out of a recency order. */
  lemma {:induction false} TotalWithout<V>(keys: seq<string>, key: string, items: Items<V>, size: V -> nat)
    requires Distinct(keys)
    ensures Total(Without(keys, key), items, size) + (if key in keys then SizeAt(items, key, size) else 0)
         == Total(keys, items, size)
    ensures Distinct(Without(keys, key))
  {
    FilterDistinct(Other(key), keys);
    if key in keys {
      var i :| 0 <= i < |keys| && keys[i] == key;
      DropIsWithout(keys, i);
      DropIsConcat(keys, i);
      TotalAround(keys, i, items, size);
    } else {
      FilterAll(Other(key), keys);
    }
    hide Without, Drop, Total, Filter;
  }

  lemma TotalAround<V>(keys: seq<string>, i: nat, items: Items<V>, size: V -> nat)
    requires i < |keys|
    ensures Total(keys, items, size) ==
            Total(keys[..i] + keys[i + 1..], items, size) + SizeAt(items, keys[i], size)
  {
    var low, high := keys[..i], keys[i + 1..];
    assert keys == low + ([keys[i]] + high);
    assert ([keys[i]] + high)[1..] == high;
    TotalConcat(low, high, items, size);
    TotalConcat(low, [keys[i]] + high, items, size);
  }

  // Single steps keep the invariant

  lemma ForgettingKeepsInv<V>(s: Lru<V>, key: string, size: V -> nat)
    requires Inv(s, size)
    ensures Inv(Forgetting(s, key, size), size)
  {
    hide Without, Total;
    WithoutMembers(s.keys, key);
    TotalWithout(s.keys, key, s.items, size);
    TotalSame(Without(s.keys, key), s.items, s.items - {key}, size);
  }

  lemma WithoutMembers(keys: seq<string>, key: string)
    ensures forall k :: k in Without(keys, key) <==> k in keys && k != key
  {
  }

  lemma TouchTotals<V>(keys: seq<string>, key: string, items: Items<V>, size: V -> nat)
    requires Distinct(keys)
    ensures Distinct(Touch(keys, key))
    ensures forall k :: k in Touch(keys, key) <==> k == key || k in keys
    ensures Total(Touch(keys, key), items, size) == SizeAt(items, key, size) + Total(Without(keys, key), items, size)
  {
    FilterDistinct(Other(key), keys);
    var r, rest := Touch(keys, key), Without(keys, key);
    assert r[1..] == rest;
    assert forall j :: 1 <= j < |r| ==> r[j] == rest[j - 1] && r[j] in rest;
  }

  lemma WithoutTwice(keys: seq<string>, key: string)
    ensures Without(Without(keys, key), key) == Without(keys, key)
  {
    FilterAll(Other(key), Without(keys, key));
  }

  lemma StoredKeepsInv<V>(s: Lru<V>, key: string, item: Item<V>, size: V -> nat)
    requires Inv(s, size)
    ensures Inv(Stored(s, key, item, size), size)
  {
    hide Without, Total, Touch;
    var items' := s.items[key := item];
    WithoutMembers(s.keys, key);
    TotalWithout(s.keys, key, s.items, size);
    TotalSame(Without(s.keys, key), s.items, items', size);
    TouchTotals(s.keys, key, items', size);
  }

  lemma TouchKeepsInv<V>(s: Lru<V>, key: string, size: V -> nat)
    requires Inv(s, size) && key in s.items
    ensures Inv(s.(keys := Touch(s.keys, key)), size)
  {
    hide Without, Total, Touch;
    TotalWithout(s.keys, key, s.items, size);
    TouchTotals(s.keys, key, s.items, size);
  }

  lemma CleaningKeepsInv<V>(s: Lru<V>, now: int, max: int, size: V -> nat)
    requires Inv(s, size)
    ensures Inv(Step(s, Event(now, CleanUp), max, size), size)
  {
    var p, q := LiveKeys(s.items, now), DeadKeys(s.items, now);
    TotalSplit(s.keys, s.items, size, p, q);
    FilterDistinct(p, s.keys);
    TotalSame(Filter(p, s.keys), s.items, Cleaned(s.items, now), size);
  }

  // Eviction

  /** Would the first n keys leave room for need more bytes? */
  predicate Fits<V>(s: Lru<V>, n: nat, need: nat, max: int, size: V -> nat)
    requires n <= |s.keys|
  {
    Total(s.keys[..n], s.items, size) + s.leaked + need <= max
  }

  ghost predicate ShrunkTo<V>(s: Lru<V>, t: Lru<V>, need: nat, max: int, size: V -> nat)
  {
    var n := |t.keys|;
    && n <= |s.keys| && t.keys == s.keys[..n] && t.leaked == s.leaked
    && t.items == (map k | k in s.items && k in t.keys :: s.items[k])
    && Tight(s, n, need, max, size)
  }

  /** The first n keys fit, or start with nothing, or end in the empty key; no longer prefix qualifies. */
  ghost predicate Tight<V>(s: Lru<V>, n: nat, need: nat, max: int, size: V -> nat)
    requires n <= |s.keys|
  {
    && (n == 0 || Fits(s, n, need, max, size) || s.keys[n - 1] == "")
    && (forall m :: n < m <= |s.keys| ==> Evictable(s, m, need, max, size))
  }

  /** With m keys stored another one is evicted. */
  predicate Evictable<V>(s: Lru<V>, m: nat, need: nat, max: int, size: V -> nat)
    requires 1 <= m <= |s.keys|
  {
    !Fits(s, m, need, max, size) && s.keys[m - 1] != ""
  }

  /** Shrinking keeps the longest prefix of the recency order that fits, or stops at the empty key. */
  lemma {:induction false} ShrinkKeepsLongestFittingPrefix<V>(s: Lru<V>, need: nat, max: int, size: V -> nat)
    requires Inv(s, size)
    ensures Inv(Shrink(s, need, max, size), size)
    ensures ShrunkTo(s, Shrink(s, need, max, size), need, max, size)
    decreases |s.keys|
  {
    hide Inv, ShrunkTo, Forgetting;
    if s.used + need <= max || s.keys == [] || s.keys[|s.keys| - 1] == "" {
      ShrunkAlready(s, need, max, size);
    } else {
      ForgettingLast(s, size);
      var t := Forgetting(s, s.keys[|s.keys| - 1], size);
      ShrinkKeepsLongestFittingPrefix(t, need, max, size);
      ShrunkFurther(s, t, Shrink(t, need, max, size), need, max, size);
    }
  }

  lemma ShrunkAlready<V>(s: Lru<V>, need: nat, max: int, size: V -> nat)
    requires Inv(s, size) && (s.used + need <= max || s.keys == [] || s.keys[|s.keys| - 1] == "")
    ensures ShrunkTo(s, s, need, max, size)
  {
    hide Total;
    assert s.keys[..|s.keys|] == s.keys;
  }

  lemma ShrunkFurther<V>(s: Lru<V>, t: Lru<V>, u: Lru<V>, need: nat, max: int, size: V -> nat)
    requires Inv(s, size) && s.used + need > max && s.keys != [] && s.keys[|s.keys| - 1] != ""
    requires t.keys == s.keys[..|s.keys| - 1] && t.leaked == s.leaked && t.items == s.items - {s.keys[|s.keys| - 1]}
    requires Inv(t, size) && ShrunkTo(t, u, need, max, size)
    ensures ShrunkTo(s, u, need, max, size)
  {
    hide Fits, Inv, Tight;
    PrefixFits(s, t, need, max, size);
    TightFurther(s, t, |u.keys|, need, max, size);
    assert t.keys[..|u.keys|] == s.keys[..|u.keys|];
    assert forall k :: k in u.keys ==> k in t.keys;
    assert u.items == map k | k in s.items && k in u.keys :: s.items[k];
  }

  lemma TightFurther<V>(s: Lru<V>, t: Lru<V>, n: nat, need: nat, max: int, size: V -> nat)
    requires s.keys != [] && s.keys[|s.keys| - 1] != "" && t.keys == s.keys[..|s.keys| - 1]
    requires !Fits(s, |s.keys|, need, max, size)
    requires forall m: nat :: m <= |t.keys| ==> Fits(s, m, need, max, size) == Fits(t, m, need, max, size)
    requires n <= |t.keys| && Tight(t, n, need, max, size)
    ensures Tight(s, n, need, max, size)
  {
    hide Fits;
    assert Fits(s, n, need, max, size) == Fits(t, n, need, max, size);
    assert n > 0 ==> t.keys[n - 1] == s.keys[n - 1];
    forall m | n < m <= |s.keys|
      ensures Evictable(s, m, need, max, size)
    {
      if m < |s.keys| {
        assert Evictable(t, m, need, max, size);
        assert t.keys[m - 1] == s.keys[m - 1];
      }
    }
  }

  lemma PrefixFits<V>(s: Lru<V>, t: Lru<V>, need: nat, max: int, size: V -> nat)
    requires Inv(s, size) && s.used + need > max && s.keys != []
    requires t.keys == s.keys[..|s.keys| - 1] && t.leaked == s.leaked && t.items == s.items - {s.keys[|s.keys| - 1]}
    requires Inv(t, size)
    ensures !Fits(s, |s.keys|, need, max, size)
    ensures forall m: nat :: m <= |t.keys| ==> Fits(s, m, need, max, size) == Fits(t, m, need, max, size)
    ensures forall k :: k in t.keys ==> k in t.items
  {
    assert s.keys[..|s.keys|] == s.keys;
    FitsInPrefix(s, t, need, max, size);
  }

  lemma ForgettingLast<V>(s: Lru<V>, size: V -> nat)
    requires Inv(s, size) && s.keys != []
    ensures var t := Forgetting(s, s.keys[|s.keys| - 1], size);
            && Inv(t, size) && t.keys == s.keys[..|s.keys| - 1] && t.leaked == s.leaked
            && t.items == s.items - {s.keys[|s.keys| - 1]}
  {
    var n := |s.keys|;
    DropIsWithout(s.keys, n - 1);
    assert Drop(s.keys, n - 1) == s.keys[..n - 1];
    ForgettingKeepsInv(s, s.keys[n - 1], size);
  }

  lemma FitsInPrefix<V>(s: Lru<V>, t: Lru<V>, need: nat, max: int, size: V -> nat)
    requires |t.keys| <= |s.keys| && t.keys == s.keys[..|t.keys|] && t.leaked == s.leaked
    requires forall k :: k in t.keys ==> SizeAt(t.items, k, size) == SizeAt(s.items, k, size)
    ensures forall m: nat :: m <= |t.keys| ==> Fits(s, m, need, max, size) == Fits(t, m, need, max, size)
  {
    forall m: nat | m <= |t.keys|
      ensures Fits(s, m, need, max, size) == Fits(t, m, need, max, size)
    {
      assert s.keys[..m] == t.keys[..m];
      TotalSame(t.keys[..m], t.items, s.items, size);
    }
  }

  lemma ShrunkTotal<V>(s: Lru<V>, t: Lru<V>, need: nat, max: int, size: V -> nat)
    requires Inv(s, size) && Inv(t, size) && ShrunkTo(s, t, need, max, size)
    ensures t.used + need <= max <==> Fits(s, |t.keys|, need, max, size)
  {
    TotalSame(t.keys, s.items, t.items, size);
  }

  lemma LongerFitsLess<V>(s: Lru<V>, m: nat, n: nat, need: nat, max: int, size: V -> nat)
    requires m <= n <= |s.keys| && Fits(s, n, need, max, size)
    ensures Fits(s, m, need, max, size)
  {
    assert s.keys[..n] == s.keys[..m] + s.keys[m..n];
    TotalConcat(s.keys[..m], s.keys[m..n], s.items, size);
  }

  /** The empty key is stored and does not fit together with the keys used after it. */
  ghost predicate Blocked<V>(s: Lru<V>, need: nat, max: int, size: V -> nat)
  {
    exists p :: 0 <= p < |s.keys| && s.keys[p] == "" && !Fits(s, p + 1, need, max, size)
  }

  /** Eviction makes room or empties the cache, unless the empty key is in the way: exactly then it does not. */
  lemma EvictionFailsIffBlocked<V>(s: Lru<V>, need: nat, max: int, size: V -> nat)
    requires Inv(s, size)
    ensures var t := Shrink(s, need, max, size);
            (t.used + need > max && t.keys != []) <==> Blocked(s, need, max, size)
  {
    hide Inv, Shrink, Fits, Total;
    var t := Shrink(s, need, max, size);
    ShrinkKeepsLongestFittingPrefix(s, need, max, size);
    ShrunkTotal(s, t, need, max, size);
    if t.used + need > max && t.keys != [] {
      assert s.keys[|t.keys| - 1] == "";
    }
    if Blocked(s, need, max, size) {
      var p :| 0 <= p < |s.keys| && s.keys[p] == "" && !Fits(s, p + 1, need, max, size);
      assert !(p >= |t.keys| && Evictable(s, p + 1, need, max, size));
      assert p < |t.keys|;
      if Fits(s, |t.keys|, need, max, size) {
        LongerFitsLess(s, p + 1, |t.keys|, need, max, size);
      }
    }
  }

  // Runs

  lemma StepKeepsInv<V>(s: Lru<V>, e: Event<V>, max: int, size: V -> nat)
    requires Inv(s, size)
    ensures Inv(Step(s, e, max, size), size)
  {
    hide Inv, Shrink, Forgetting, Stored, Touch, Filter, Total;
    match e.op
    case Set(k, v, ttl) =>
      ShrinkKeepsLongestFittingPrefix(s, size(v), max, size);
      StoredKeepsInv(Shrink(s, size(v), max, size), k, Item(v, e.now + ttl), size);
    case Get(k) =>
      ForgettingKeepsInv(s, k, size);
      if k in s.items {
        TouchKeepsInv(s, k, size);
      }
    case Del(k) =>
      ForgettingKeepsInv(s, k, size);
    case GetRange(_, _) =>
    case CleanUp =>
      CleaningKeepsInv(s, e.now, max, size);
  }

  /** After a Set the live bytes are within the limit or the new key is alone, unless the empty key blocked. */
  lemma BudgetAfterSet<V>(s: Lru<V>, k: string, v: V, ttl: int, now: int, max: int, size: V -> nat)
    requires Inv(s, size) && !Blocked(s, size(v), max, size)
    ensures var s' := Step(s, Event(now, Op.Set(k, v, ttl)), max, size);
            Inv(s', size) && (Total(s'.keys, s'.items, size) <= max || s'.keys == [k])
  {
    StepKeepsInv(s, Event(now, Op.Set(k, v, ttl)), max, size);
    EvictionFailsIffBlocked(s, size(v), max, size);
    hide Blocked, Shrink, Total;
  }

  /** Blocked eviction stops right behind the empty key. */
  lemma BlockedStopsAtEmptyKey<V>(s: Lru<V>, need: nat, max: int, size: V -> nat, p: nat)
    requires Inv(s, size) && p < |s.keys| && s.keys[p] == "" && !Fits(s, p + 1, need, max, size)
    ensures var t := Shrink(s, need, max, size);
            && Inv(t, size) && t.keys == s.keys[..p + 1]
            && t.items == (map k | k in s.items && k in t.keys :: s.items[k])
  {
    hide Shrink, Fits, Total;
    ShrinkKeepsLongestFittingPrefix(s, need, max, size);
    var n := |Shrink(s, need, max, size).keys|;
    assert !(p >= n && Evictable(s, p + 1, need, max, size));
    if Fits(s, n, need, max, size) {
      LongerFitsLess(s, p + 1, n, need, max, size);
    }
    assert s.keys[n - 1] == s.keys[p];
  }

  /** The live bytes after a value is stored. */
  lemma StoredTotal<V>(s: Lru<V>, t: Lru<V>, key: string, item: Item<V>, size: V -> nat)
    requires Inv(t, size) && t.items == (map k | k in s.items && k in t.keys :: s.items[k])
    ensures var u := Stored(t, key, item, size);
            Total(u.keys, u.items, size) == Total(Without(t.keys, key), s.items, size) + size(item.value)
  {
    hide Without, Total, Touch;
    var items' := t.items[key := item];
    WithoutMembers(t.keys, key);
    TotalSame(Without(t.keys, key), s.items, items', size);
    TouchTotals(t.keys, key, items', size);
  }

  ghost predicate WithinBudget<V>(s: Lru<V>, key: string, max: int, size: V -> nat)
  {
    Total(s.keys, s.items, size) <= max || s.keys == [key]
  }

  /** The keys up to the empty one do not fit, and with the new value neither do their live bytes alone. */
  ghost predicate OverBudget<V>(s: Lru<V>, key: string, need: nat, max: int, size: V -> nat)
  {
    exists p ::
      && 0 <= p < |s.keys| && s.keys[p] == "" && !Fits(s, p + 1, need, max, size)
      && Touch(s.keys[..p + 1], key) != [key]
      && Total(Without(s.keys[..p + 1], key), s.items, size) + need > max
  }

  /** Exactly when a Set leaves more live bytes than the limit beside another key. */
  lemma BudgetFailsIff<V>(s: Lru<V>, k: string, v: V, ttl: int, now: int, max: int, size: V -> nat)
    requires Inv(s, size)
    ensures !WithinBudget(Step(s, Event(now, Op.Set(k, v, ttl)), max, size), k, max, size) <==>
            OverBudget(s, k, size(v), max, size)
  {
    hide Shrink, Fits, Total, Without, Touch, Inv;
    var e := Event(now, Op.Set(k, v, ttl));
    if Blocked(s, size(v), max, size) {
      var p :| 0 <= p < |s.keys| && s.keys[p] == "" && !Fits(s, p + 1, size(v), max, size);
      BlockedStopsAtEmptyKey(s, size(v), max, size, p);
      StoredTotal(s, Shrink(s, size(v), max, size), k, Item(v, now + ttl), size);
      EmptyKeyOnce(s, size, p);
    } else {
      BudgetAfterSet(s, k, v, ttl, now, max, size);
    }
  }

  lemma EmptyKeyOnce<V>(s: Lru<V>, size: V -> nat, p: nat)
    requires Inv(s, size) && p < |s.keys| && s.keys[p] == ""
    ensures forall i :: 0 <= i < |s.keys| && s.keys[i] == "" ==> i == p
  {
  }

  function RunTo<V>(s: Lru<V>, trace: seq<Event<V>>, max: int, size: V -> nat): (t: Lru<V>)
    decreases |trace|
  {
    if trace == [] then s else RunTo(Step(s, trace[0], max, size), trace[1..], max, size)
  }

  /** The bytes an event overwrites in place. */
  function Overwritten<V>(s: Lru<V>, e: Event<V>, max: int, size: V -> nat): (r: nat)
  {
    if e.op.Set? then SizeAt(Shrink(s, size(e.op.value), max, size).items, e.op.key, size) else 0
  }

  function AllOverwritten<V>(s: Lru<V>, trace: seq<Event<V>>, max: int, size: V -> nat): (r: nat)
    decreases |trace|
  {
    if trace == [] then 0
    else Overwritten(s, trace[0], max, size) + AllOverwritten(Step(s, trace[0], max, size), trace[1..], max, size)
  }

  /** In every run the counter is the live bytes plus the bytes overwritten in place. */
  lemma {:induction false} CounterIsLivePlusOverwritten<V>(s: Lru<V>, trace: seq<Event<V>>, max: int, size: V -> nat)
    requires Inv(s, size)
    ensures var t := RunTo(s, trace, max, size);
            Inv(t, size) &&
            t.used == Total(t.keys, t.items, size) + s.leaked + AllOverwritten(s, trace, max, size)
    decreases |trace|
  {
    if trace != [] {
      var e := trace[0];
      StepKeepsInv(s, e, max, size);
      LeakedIsOverwritten(s, e, max, size);
      hide Step, Overwritten, Total;
      CounterIsLivePlusOverwritten(Step(s, e, max, size), trace[1..], max, size);
    }
  }

  lemma LeakedIsOverwritten<V>(s: Lru<V>, e: Event<V>, max: int, size: V -> nat)
    requires Inv(s, size)
    ensures Step(s, e, max, size).leaked == s.leaked + Overwritten(s, e, max, size)
  {
    if e.op.Set? {
      ShrinkKeepsLongestFittingPrefix(s, size(e.op.value), max, size);
    }
    hide Inv, Shrink, Touch, Without;
  }

  /** Apart from eviction an operation does to the items what the unbounded cache does. */
  lemma StepOnItems<V>(s: Lru<V>, e: Event<V>, max: int, size: V -> nat)
    ensures Step(s, e, max, size).items ==
            Next(if e.op.Set? then Shrink(s, size(e.op.value), max, size).items else s.items, e)
  {
    hide Shrink, Touch, Without, Filter, Total;
  }

  // Recency: the order of the keys is the order of their last use in the run

  predicate Uses<V>(e: Event<V>, k: string)
  {
    (e.op.Set? || e.op.Get?) && e.op.key == k
  }

  /** The position in the run of the last Set or Get of a key, -1 without one. */
  function LastUse<V>(trace: seq<Event<V>>, k: string): (i: int)
    ensures -1 <= i < |trace|
  {
    if trace == [] then -1
    else if Uses(trace[|trace| - 1], k) then |trace| - 1
    else LastUse(trace[..|trace| - 1], k)
  }

  /** Later uses come first. */
  ghost predicate ByLastUse<V>(keys: seq<string>, trace: seq<Event<V>>)
  {
    && (forall i, j :: 0 <= i < j < |keys| ==> LastUse(trace, keys[i]) > LastUse(trace, keys[j]))
    && (forall i :: 0 <= i < |keys| ==> LastUse(trace, keys[i]) >= 0)
  }

  lemma UsedFirst<V>(k: string, rest: seq<string>, trace: seq<Event<V>>)
    requires ByLastUse(rest, trace) && LastUse(trace, k) >= 0
    requires forall x :: x in rest ==> LastUse(trace, k) > LastUse(trace, x)
    ensures ByLastUse([k] + rest, trace)
  {
    hide LastUse;
    var keys := [k] + rest;
    assert forall i :: 1 <= i < |keys| ==> keys[i] == rest[i - 1] && keys[i] in rest;
  }

  lemma {:induction false} FilterByLastUse<V>(p: string -> bool, keys: seq<string>, trace: seq<Event<V>>)
    requires ByLastUse(keys, trace)
    ensures ByLastUse(Filter(p, keys), trace)
  {
    hide LastUse;
    if keys != [] {
      var rest := keys[1..];
      assert forall i :: 0 <= i < |rest| ==> rest[i] == keys[i + 1];
      FilterByLastUse(p, rest, trace);
      if p(keys[0]) {
        UsedFirst(keys[0], Filter(p, rest), trace);
      }
    }
  }

  lemma UsedOneMore<V>(trace: seq<Event<V>>, e: Event<V>, k: string)
    ensures LastUse(trace + [e], k) == if Uses(e, k) then |trace| else LastUse(trace, k)
  {
    assert (trace + [e])[..|trace|] == trace;
  }

  /** An event that uses none of the listed keys. */
  lemma UnusedByLastUse<V>(keys: seq<string>, trace: seq<Event<V>>, e: Event<V>)
    requires ByLastUse(keys, trace) && forall k :: k in keys ==> !Uses(e, k)
    ensures ByLastUse(keys, trace + [e])
  {
    hide LastUse, Uses;
    forall i | 0 <= i < |keys|
      ensures LastUse(trace + [e], keys[i]) == LastUse(trace, keys[i])
    {
      assert keys[i] in keys;
      UsedOneMore(trace, e, keys[i]);
    }
  }

  /** The used key first, then the others as they were. */
  lemma TouchByLastUse<V>(keys: seq<string>, trace: seq<Event<V>>, e: Event<V>)
    requires ByLastUse(keys, trace) && (e.op.Set? || e.op.Get?)
    ensures ByLastUse(Touch(keys, e.op.key), trace + [e])
  {
    hide LastUse, ByLastUse, Filter;
    var rest := Without(keys, e.op.key);
    FilterByLastUse(Other(e.op.key), keys, trace);
    WithoutMembers(keys, e.op.key);
    UnusedByLastUse(rest, trace, e);
    UsedOneMore(trace, e, e.op.key);
    forall x | x in rest
      ensures LastUse(trace + [e], x) < |trace|
    {
      UsedOneMore(trace, e, x);
    }
    UsedFirst(e.op.key, rest, trace + [e]);
  }

  lemma StepByLastUse<V>(s: Lru<V>, trace: seq<Event<V>>, e: Event<V>, max: int, size: V -> nat)
    requires Inv(s, size) && ByLastUse(s.keys, trace)
    ensures ByLastUse(Step(s, e, max, size).keys, trace + [e])
  {
    hide ByLastUse, Touch, Filter, Shrink, Total;
    match e.op
    case Set(k, v, ttl) =>
      ShrunkByLastUse(s, trace, size(v), max, size);
      TouchByLastUse(Shrink(s, size(v), max, size).keys, trace, e);
    case Get(k) =>
      TouchByLastUse(s.keys, trace, e);
      FilterByLastUse(Other(k), s.keys, trace);
      UnusedByLastUse(Without(s.keys, k), trace, e);
      if k !in s.items {
        UnusedByLastUse(s.keys, trace, e);
      }
    case Del(k) =>
      FilterByLastUse(Other(k), s.keys, trace);
      UnusedByLastUse(Without(s.keys, k), trace, e);
    case GetRange(_, _) =>
      UnusedByLastUse(s.keys, trace, e);
    case CleanUp =>
      FilterByLastUse(LiveKeys(s.items, e.now), s.keys, trace);
      UnusedByLastUse(Filter(LiveKeys(s.items, e.now), s.keys), trace, e);
  }

  lemma ShrunkByLastUse<V>(s: Lru<V>, trace: seq<Event<V>>, need: nat, max: int, size: V -> nat)
    requires Inv(s, size) && ByLastUse(s.keys, trace)
    ensures ByLastUse(Shrink(s, need, max, size).keys, trace)
  {
    hide LastUse, Shrink, Inv;
    ShrinkKeepsLongestFittingPrefix(s, need, max, size);
  }

  lemma {:induction false} RunToSnoc<V>(s: Lru<V>, trace: seq<Event<V>>, e: Event<V>, max: int, size: V -> nat)
    ensures RunTo(s, trace + [e], max, size) == Step(RunTo(s, trace, max, size), e, max, size)
    decreases |trace|
  {
    hide Step;
    if trace == [] {
      assert trace + [e] == [e] && [e][1..] == [];
    } else {
      assert (trace + [e])[1..] == trace[1..] + [e];
      RunToSnoc(Step(s, trace[0], max, size), trace[1..], e, max, size);
    }
  }

  /** In every run from the empty cache the keys are listed by their last use, latest first. */
  lemma {:induction false} KeysByLastUse<V>(trace: seq<Event<V>>, max: int, size: V -> nat)
    ensures var s := RunTo(Lru(map[], [], 0, 0), trace, max, size); Inv(s, size) && ByLastUse(s.keys, trace)
    decreases |trace|
  {
    hide Step, ByLastUse, Inv;
    var none: Lru<V> := Lru(map[], [], 0, 0);
    if trace == [] {
      NothingUsed<V>(size);
    } else {
      var before, e := trace[..|trace| - 1], trace[|trace| - 1];
      assert trace == before + [e];
      KeysByLastUse(before, max, size);
      RunToSnoc(none, before, e, max, size);
      StepByLastUse(RunTo(none, before, max, size), before, e, max, size);
      StepKeepsInv(RunTo(none, before, max, size), e, max, size);
    }
  }

  lemma NothingUsed<V>(size: V -> nat)
    ensures Inv(Lru(map[], [], 0, 0), size) && ByLastUse<V>([], [])
  {
  }

  /** So a Set evicts only keys used before every key it keeps. */
  lemma EvictsLeastRecentlyUsed<V>(trace: seq<Event<V>>, need: nat, max: int, size: V -> nat,
                                   kept: string, gone: string)
    requires var s := RunTo(Lru(map[], [], 0, 0), trace, max, size);
             && gone in s.items && gone !in Shrink(s, need, max, size).items
             && kept in Shrink(s, need, max, size).items
    ensures LastUse(trace, gone) < LastUse(trace, kept)
  {
    hide Shrink, RunTo, Total, LastUse;
    var s := RunTo(Lru(map[], [], 0, 0), trace, max, size);
    KeysByLastUse(trace, max, size);
    ShrinkKeepsLongestFittingPrefix(s, need, max, size);
    var t := Shrink(s, need, max, size);
    var i :| 0 <= i < |t.keys| && t.keys[i] == kept;
    var j :| 0 <= j < |s.keys| && s.keys[j] == gone;
    assert forall k :: k in t.keys ==> k in t.items;
    assert s.keys[i] == kept;
  }

  ghost predicate Within<V>(m: Items<V>, n: Items<V>)
  {
    forall k :: k in m ==> k in n && m[k] == n[k]
  }

  lemma {:induction false} ShrinkingOnlyDrops<V>(s: Lru<V>, need: nat, max: int, size: V -> nat)
    ensures Within(Shrink(s, need, max, size).items, s.items)
    decreases |s.keys|
  {
    if !(s.used + need <= max || s.keys == [] || s.keys[|s.keys| - 1] == "") {
      var t := Forgetting(s, s.keys[|s.keys| - 1], size);
      if |t.keys| < |s.keys| {
        ShrinkingOnlyDrops(t, need, max, size);
      }
    }
  }

  lemma StepStaysWithin<V>(s: Lru<V>, m: Items<V>, e: Event<V>, max: int, size: V -> nat)
    requires Within(s.items, m)
    ensures Within(Step(s, e, max, size).items, Next(m, e))
  {
    if e.op.Set? {
      ShrinkingOnlyDrops(s, size(e.op.value), max, size);
    }
  }

  function FlatRun<V>(m: Items<V>, trace: seq<Event<V>>): (r: Items<V>)
    decreases |trace|
  {
    if trace == [] then m else FlatRun(Next(m, trace[0]), trace[1..])
  }

  /** Eviction only forgets: whatever the bounded cache holds, the unbounded cache holds with the same value and
      expiry. */
  lemma {:induction false} BoundedHoldsNothingElse<V>(s: Lru<V>, m: Items<V>, trace: seq<Event<V>>, max: int,
                                                      size: V -> nat)
    requires Within(s.items, m)
    ensures Within(RunTo(s, trace, max, size).items, FlatRun(m, trace))
    decreases |trace|
  {
    if trace != [] {
      StepStaysWithin(s, m, trace[0], max, size);
      BoundedHoldsNothingElse(Step(s, trace[0], max, size), Next(m, trace[0]), trace[1..], max, size);
    }
  }

  /** With only the empty key stored, any other value is stored beside it, however little room there is. */
  lemma EmptyKeyBreaksTheBudget<V>(s: Lru<V>, k: string, v: V, ttl: int, now: int, max: int, size: V -> nat)
    requires Inv(s, size) && s.keys == [""] && k != ""
    ensures var t := Step(s, Event(now, Op.Set(k, v, ttl)), max, size);
            t.keys == [k, ""] && Total(t.keys, t.items, size) == Total(s.keys, s.items, size) + size(v)
  {
    FilterAll(Other(k), [""]);
    assert Shrink(s, size(v), max, size) == s;
    StoredKeepsInv(s, k, Item(v, now + ttl), size);
    hide Shrink, Total, Filter;
  }
}

/** The memory-bounded cache of cache/cachememory.go around the memory cache and the access list. */
module MemoryBoundedCaches {
  import opened Wrappers
  import opened Sequences
  import opened Filters
  import opened ShardedMaps
  import opened TtlMaps
  import opened MemoryCaches
  import opened AccessLists
  import opened LruSpecs

  class MemCacheMemory<V> {
    const cache: MemoryCache<V>
    const accessList: DoubleLinkedList
    const maxMemory: int
    const sizeOf: V -> nat
    var usedMemory: int

    ghost var leaked: int    // bytes of values overwritten in place

    ghost predicate Valid()
      reads this, accessList, accessList.nodes, cache.data, cache.data.shards, cache.data.owner.Keys
    {
      cache.Valid() && accessList.Valid() && Inv(State(), sizeOf)
    }

    ghost function State(): (s: Lru<V>)
      reads this, accessList, cache.data
    {
      Lru(cache.data.model, accessList.keys, usedMemory, leaked)
    }

    constructor (hash: string -> nat, shardCount: int, maxMemory: int, sizeOf: V -> nat)
      ensures Valid() && State() == Lru(map[], [], 0, 0)
      ensures this.maxMemory == maxMemory && this.sizeOf == sizeOf
    {
      cache := new MemoryCache<V>(hash, shardCount);
      accessList := new DoubleLinkedList();
      this.maxMemory, this.sizeOf, usedMemory, leaked := maxMemory, sizeOf, 0, 0;
    }

    /** The eviction callback. */
    method OnEvict(key: string, value: V)
      requires accessList.Valid()
      modifies this`usedMemory, accessList, accessList.nodes
      ensures accessList.Valid() && accessList.keys == Without(old(accessList.keys), key)
      ensures usedMemory == old(usedMemory) - sizeOf(value)
      ensures forall i :: 0 <= i < |accessList.nodes| ==> accessList.nodes[i] in old(accessList.nodes)
    {
      usedMemory := usedMemory - sizeOf(value);
      accessList.Del(key);
    }

    method Del(key: string)
      requires Valid()
      modifies this, accessList, accessList.nodes, cache.data, cache.data.shards, cache.data.owner.Keys
      ensures Valid() && State() == Step(old(State()), Event(0, Op.Del(key)), maxMemory, sizeOf)
      ensures cache.data.owner.Keys == old(cache.data.owner.Keys)
      ensures forall i :: 0 <= i < |accessList.nodes| ==> accessList.nodes[i] in old(accessList.nodes)
    {
      hide SkipShardedMap.Valid, DoubleLinkedList.Valid, Inv, Without;
      ForgettingKeepsInv(State(), key, sizeOf);
      WithoutTwice(accessList.keys, key);
      var evicted := cache.Del(key);
      if evicted.Some? {
        OnEvict(key, evicted.value);
      }
      accessList.Del(key);
    }

    /** The eviction loop. */
    method MakeRoom(size: nat)
      requires Valid()
      modifies this, accessList, accessList.nodes, cache.data, cache.data.shards, cache.data.owner.Keys
      ensures Valid() && State() == Shrink(old(State()), size, maxMemory, sizeOf)
      ensures cache.data.owner.Keys == old(cache.data.owner.Keys)
      ensures forall i :: 0 <= i < |accessList.nodes| ==> accessList.nodes[i] in old(accessList.nodes)
    {
      hide SkipShardedMap.Valid, DoubleLinkedList.Valid, Inv, Shrink, Forgetting;
      ShrinkUnfolds(State(), size, maxMemory, sizeOf);
      while usedMemory + size > maxMemory
        invariant Valid() && cache.data.owner.Keys == old(cache.data.owner.Keys)
        invariant Shrink(State(), size, maxMemory, sizeOf) == Shrink(old(State()), size, maxMemory, sizeOf)
        invariant Unfolded(State(), size, maxMemory, sizeOf)
        invariant forall i :: 0 <= i < |accessList.nodes| ==> accessList.nodes[i] in old(accessList.nodes)
        decreases |accessList.keys|
      {
        var evictKey := accessList.Evict();
        if evictKey == "" {
          break;
        }
        Del(evictKey);
        ShrinkUnfolds(State(), size, maxMemory, sizeOf);
      }
    }

    /** What follows the eviction: count, move to front, store. */
    method Remember(key: string, value: V, ttl: int, now: int)
      requires Valid()
      modifies this, accessList, accessList.nodes, cache.data, cache.data.shards, cache.data.owner.Keys
      ensures Valid() && State() == Stored(old(State()), key, Item(value, now + ttl), sizeOf)
      ensures fresh(cache.data.owner.Keys - old(cache.data.owner.Keys))
      ensures forall i :: 0 <= i < |accessList.nodes| ==>
                accessList.nodes[i] in old(accessList.nodes) || fresh(accessList.nodes[i])
    {
      hide SkipShardedMap.Valid, DoubleLinkedList.Valid, Inv, Without;
      StoredKeepsInv(State(), key, Item(value, now + ttl), sizeOf);
      leaked := leaked + SizeAt(cache.data.model, key, sizeOf);
      usedMemory := usedMemory + sizeOf(value);
      accessList.Add(key);
      cache.Set(key, value, ttl, now);
    }

    method Set(key: string, value: V, ttl: int, now: int)
      requires Valid()
      modifies this, accessList, accessList.nodes, cache.data, cache.data.shards, cache.data.owner.Keys
      ensures Valid() && State() == Step(old(State()), Event(now, Op.Set(key, value, ttl)), maxMemory, sizeOf)
      ensures fresh(cache.data.owner.Keys - old(cache.data.owner.Keys))
      ensures forall i :: 0 <= i < |accessList.nodes| ==>
                accessList.nodes[i] in old(accessList.nodes) || fresh(accessList.nodes[i])
    {
      hide Valid, Shrink, Stored;
      MakeRoom(sizeOf(value));
      Remember(key, value, ttl, now);
    }

    method Get(key: string, now: int) returns (r: Option<V>)
      requires Valid()
      modifies this, accessList, accessList.nodes, cache.data, cache.data.shards, cache.data.owner.Keys
      ensures Valid() && State() == Step(old(State()), Event(now, Op.Get(key)), maxMemory, sizeOf)
      ensures r == Lookup(old(State()).items, key, now)
      ensures r.Some? ==>
                && accessList.keys != [] && accessList.keys[0] == key
                && Without(accessList.keys, key) == Without(old(accessList.keys), key)
      ensures r.None? ==> accessList.keys == Without(old(accessList.keys), key)
      ensures cache.data.owner.Keys == old(cache.data.owner.Keys)
      ensures forall i :: 0 <= i < |accessList.nodes| ==> accessList.nodes[i] in old(accessList.nodes)
    {
      hide SkipShardedMap.Valid, DoubleLinkedList.Valid, Inv, Without;
      StepKeepsInv(State(), Event(now, Op.Get(key)), maxMemory, sizeOf);
      KeysListed(State(), key, sizeOf);
      TouchedOnly(accessList.keys, key);
      var evicted;
      r, evicted := cache.Get(key, now);
      if evicted.Some? {
        OnEvict(key, evicted.value);
      }
      if r.Some? {
        accessList.Access(key);
      }
    }

    /** One cleaning pass, with the callback for every expired entry. */
    method CleanUp(now: int)
      requires Valid()
      modifies this, accessList, accessList.nodes, cache.data, cache.data.shards, cache.data.owner.Keys
      ensures Valid() && State() == Step(old(State()), Event(now, Op.CleanUp), maxMemory, sizeOf)
      ensures cache.data.owner.Keys == old(cache.data.owner.Keys)
      ensures forall i :: 0 <= i < |accessList.nodes| ==> accessList.nodes[i] in old(accessList.nodes)
    {
      hide SkipShardedMap.Valid, DoubleLinkedList.Valid, Inv, Gone, Step, Between, Cleaned;
      ghost var s := State();
      var evicted := cache.CleanUp(now);
      CallbacksStart(s, evicted, now, sizeOf);
      CallBack(evicted, s, now);
      StepKeepsInv(s, Event(now, Op.CleanUp), maxMemory, sizeOf);
      CallbacksEnd(s, now, maxMemory, sizeOf, accessList.keys, usedMemory);
    }

    /** The callbacks of a cleaning pass. */
    method CallBack(evicted: map<string, V>, ghost s: Lru<V>, now: int)
      requires accessList.Valid() && Inv(s, sizeOf)
      requires Between(s, evicted, now, sizeOf, accessList.keys, usedMemory)
      modifies this`usedMemory, accessList, accessList.nodes
      ensures accessList.Valid() && Between(s, map[], now, sizeOf, accessList.keys, usedMemory)
      ensures forall i :: 0 <= i < |accessList.nodes| ==> accessList.nodes[i] in old(accessList.nodes)
    {
      hide DoubleLinkedList.Valid, Inv, Without, Between;
      var pending := evicted;
      while pending != map[]
        invariant accessList.Valid() && Between(s, pending, now, sizeOf, accessList.keys, usedMemory)
        invariant forall i :: 0 <= i < |accessList.nodes| ==> accessList.nodes[i] in old(accessList.nodes)
        decreases |pending|
      {
        var key :| key in pending;
        CallbackStep(s, pending, key, now, sizeOf, accessList.keys, usedMemory);
        OnEvict(key, pending[key]);
        pending := pending - {key};
      }
    }
  }

  function Unreported<V>(items: Items<V>, now: int, pending: map<string, V>): (p: string -> bool)
  {
    k => Live(items, now, k) || k in pending
  }

  /** Recency order and counter while callbacks for the pending entries are still due. */
  ghost predicate Between<V>(s: Lru<V>, pending: map<string, V>, now: int, size: V -> nat, keys: seq<string>, used: int)
  {
    && (forall k :: k in pending ==> k in s.items && Expired(s.items[k], now) && pending[k] == s.items[k].value)
    && Distinct(keys) && keys == Filter(Unreported(s.items, now, pending), s.keys)
    && used == Total(keys, s.items, size) + s.leaked
  }

  lemma CallbacksStart<V>(s: Lru<V>, evicted: map<string, V>, now: int, size: V -> nat)
    requires Inv(s, size) && evicted == Gone(s.items, Cleaned(s.items, now))
    ensures Between(s, evicted, now, size, s.keys, s.used)
  {
    FilterAll(Unreported(s.items, now, evicted), s.keys);
  }

  lemma CallbackStep<V>(s: Lru<V>, pending: map<string, V>, key: string, now: int, size: V -> nat, keys: seq<string>,
                        used: int)
    requires Between(s, pending, now, size, keys, used) && key in pending && Inv(s, size)
    ensures Between(s, pending - {key}, now, size, Without(keys, key), used - size(pending[key]))
  {
    var p, q := Unreported(s.items, now, pending), Unreported(s.items, now, pending - {key});
    FilterTwice(p, Other(key), q, s.keys);
    TotalWithout(keys, key, s.items, size);
  }

  lemma NonePending<V>(items: Items<V>, now: int, keys: seq<string>)
    ensures Filter(Unreported(items, now, map[]), keys) == Filter(LiveKeys(items, now), keys)
  {
    FilterAgree(Unreported(items, now, map[]), LiveKeys(items, now), keys);
  }

  lemma CallbacksEnd<V>(s: Lru<V>, now: int, max: int, size: V -> nat, keys: seq<string>, used: int)
    requires Between(s, map[], now, size, keys, used) && Inv(s, size)
    ensures Lru(Cleaned(s.items, now), keys, used, s.leaked) == Step(s, Event(now, Op.CleanUp), max, size)
  {
    hide Filter, Total, Cleaned;
    NonePending(s.items, now, s.keys);
    TotalSplit(s.keys, s.items, size, LiveKeys(s.items, now), DeadKeys(s.items, now));
  }

  /** One turn of the eviction loop. */
  ghost predicate Unfolded<V>(s: Lru<V>, need: nat, max: int, size: V -> nat)
  {
    if s.used + need <= max || s.keys == [] || s.keys[|s.keys| - 1] == "" then
      Shrink(s, need, max, size) == s
    else
      var t := Forgetting(s, s.keys[|s.keys| - 1], size);
      |t.keys| < |s.keys| && Shrink(t, need, max, size) == Shrink(s, need, max, size)
  }

  lemma ShrinkUnfolds<V>(s: Lru<V>, need: nat, max: int, size: V -> nat)
    requires Inv(s, size)
    ensures Unfolded(s, need, max, size)
  {
    if s.keys != [] {
      ForgettingLast(s, size);
    }
    hide Inv, Forgetting;
  }

  lemma TouchedOnly(keys: seq<string>, key: string)
    ensures Without([key] + Without(keys, key), key) == Without(keys, key)
    ensures key !in keys ==> Without(keys, key) == keys
  {
    var rest := Without(keys, key);
    FilterHead(Other(key), key, rest);
    FilterAll(Other(key), rest);
    assert [] + rest == rest;
    if key !in keys {
      FilterAll(Other(key), keys);
    }
  }

  lemma KeysListed<V>(s: Lru<V>, key: string, size: V -> nat)
    requires Inv(s, size)
    ensures key in s.items <==> key in s.keys
  {
  }
}
