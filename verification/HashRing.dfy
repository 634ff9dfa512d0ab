/** Filtering, sorting and first occurrences of sequences. */
module Filters {
  import opened Sequences

  function Filter<T(!new)>(p: T -> bool, s: seq<T>): (r: seq<T>)
    ensures forall x :: x in r <==> x in s && p(x)
    ensures |r| <= |s|
  {
    if s == [] then []
    else if p(s[0]) then [s[0]] + Filter(p, s[1..])
    else Filter(p, s[1..])
  }

  function NotIn<T(==)>(xs: set<T>): (p: T -> bool) { x => x !in xs }
  function Other<T(==)>(y: T): (p: T -> bool) { x => x != y }
  function AtLeast(h: nat): (p: nat -> bool) { x => x >= h }
  function Below(h: nat): (p: nat -> bool) { x => x < h }

  lemma FilterHead<T(!new)>(p: T -> bool, x: T, s: seq<T>)
    ensures Filter(p, []) == []
    ensures Filter(p, [x] + s) == (if p(x) then [x] else []) + Filter(p, s)
  {
    assert ([x] + s)[1..] == s;
  }

  lemma {:induction false} FilterConcat<T(!new)>(p: T -> bool, s: seq<T>, t: seq<T>)
    ensures Filter(p, s + t) == Filter(p, s) + Filter(p, t)
  {
    hide Filter;
    if s == [] {
      FilterNone(p, s);
      assert s + t == t;
    } else {
      var rest := s[1..];
      FilterConcat(p, rest, t);
      FilterHead(p, s[0], rest);
      FilterHead(p, s[0], rest + t);
      assert [s[0]] + rest == s && [s[0]] + (rest + t) == s + t;
    }
  }

  lemma {:induction false} FiltersCommute<T(!new)>(p: T -> bool, q: T -> bool, s: seq<T>)
    ensures Filter(p, Filter(q, s)) == Filter(q, Filter(p, s))
  {
    if s != [] {
      FiltersCommute(p, q, s[1..]);
      var a, b := Filter(p, s[1..]), Filter(q, s[1..]);
      assert ([s[0]] + a)[1..] == a && ([s[0]] + b)[1..] == b;
    }
  }

  lemma {:induction false} FilterAll<T(!new)>(p: T -> bool, s: seq<T>)
    requires forall x :: x in s ==> p(x)
    ensures Filter(p, s) == s
  {
    if s != [] {
      FilterAll(p, s[1..]);
    }
  }

  lemma {:induction false} FilterNone<T(!new)>(p: T -> bool, s: seq<T>)
    requires forall x :: x in s ==> !p(x)
    ensures Filter(p, s) == []
  {
    if s != [] {
      FilterNone(p, s[1..]);
    }
  }

  lemma {:induction false} FilterAgree<T(!new)>(p: T -> bool, q: T -> bool, s: seq<T>)
    requires forall x :: x in s ==> p(x) == q(x)
    ensures Filter(p, s) == Filter(q, s)
  {
    if s != [] {
      assert s[0] in s;
      FilterAgree(p, q, s[1..]);
    }
  }

  lemma {:induction false} FilterTwice<T(!new)>(p: T -> bool, q: T -> bool, both: T -> bool, s: seq<T>)
    requires forall x :: both(x) <==> p(x) && q(x)
    ensures Filter(q, Filter(p, s)) == Filter(both, s)
  {
    if s != [] {
      FilterTwice(p, q, both, s[1..]);
      var f := Filter(p, s[1..]);
      assert ([s[0]] + f)[1..] == f;
    }
  }

  ghost predicate Ordered(s: seq<nat>)
  {
    forall i, j :: 0 <= i < j < |s| ==> s[i] <= s[j]
  }

  function Put(x: nat, s: seq<nat>): (r: seq<nat>)
    ensures forall y :: y in r <==> y == x || y in s
  {
    if s == [] || x <= s[0] then [x] + s else [s[0]] + Put(x, s[1..])
  }

  lemma {:induction false} PutOrdered(x: nat, s: seq<nat>)
    requires Ordered(s)
    ensures Ordered(Put(x, s))
  {
    if s != [] && s[0] < x {
      PutOrdered(x, s[1..]);
      var rest := Put(x, s[1..]);
      forall i | 0 <= i < |rest|
        ensures s[0] <= rest[i]
      {
        assert rest[i] in rest;
      }
    }
  }

  lemma {:induction false} PutAdds(x: nat, s: seq<nat>)
    ensures multiset(Put(x, s)) == multiset(s) + multiset{x}
  {
    if s != [] && s[0] < x {
      PutAdds(x, s[1..]);
      assert s == [s[0]] + s[1..];
    }
  }

  /** The sorted rearrangement of a sequence of hashes. */
  function Sort(s: seq<nat>): (r: seq<nat>)
    ensures forall x :: x in r <==> x in s
  {
    if s == [] then [] else Put(s[0], Sort(s[1..]))
  }

  lemma {:induction false} SortIsOrderedPermutation(s: seq<nat>)
    ensures Ordered(Sort(s)) && multiset(Sort(s)) == multiset(s)
  {
    if s != [] {
      SortIsOrderedPermutation(s[1..]);
      PutOrdered(s[0], Sort(s[1..]));
      PutAdds(s[0], Sort(s[1..]));
      assert s == [s[0]] + s[1..];
    }
  }

  lemma {:induction false} SortOrdered(s: seq<nat>)
    requires Ordered(s)
    ensures Sort(s) == s
  {
    if s != [] {
      SortOrdered(s[1..]);
      if |s| > 1 {
        assert s[1..][0] == s[1];
      }
    }
  }

  lemma {:induction false} FilterPut(p: nat -> bool, x: nat, s: seq<nat>)
    requires Ordered(s)
    ensures Filter(p, Put(x, s)) == if p(x) then Put(x, Filter(p, s)) else Filter(p, s)
  {
    if s == [] || x <= s[0] {
      var f := Filter(p, s);
      assert ([x] + s)[1..] == s;
      assert f != [] ==> f[0] in s;
    } else {
      FilterPut(p, x, s[1..]);
      var rest := Put(x, s[1..]);
      assert ([s[0]] + rest)[1..] == rest;
      var f := Filter(p, s[1..]);
      assert ([s[0]] + f)[1..] == f;
    }
  }

  lemma {:induction false} FilterSort(p: nat -> bool, s: seq<nat>)
    ensures Filter(p, Sort(s)) == Sort(Filter(p, s))
  {
    if s != [] {
      FilterSort(p, s[1..]);
      SortIsOrderedPermutation(s[1..]);
      FilterPut(p, s[0], Sort(s[1..]));
      var f := Filter(p, s[1..]);
      assert ([s[0]] + f)[1..] == f;
    }
  }

  lemma {:induction false} FilterDistinct<T(!new)>(p: T -> bool, s: seq<T>)
    requires Distinct(s)
    ensures Distinct(Filter(p, s))
  {
    if s != [] {
      FilterDistinct(p, s[1..]);
      assert forall x :: x in Filter(p, s[1..]) ==> x in s[1..];
    }
  }

  /** The distinct elements in order of first occurrence. */
  function Dedup<T(==, !new)>(s: seq<T>): (r: seq<T>)
    ensures forall x :: x in r <==> x in s
    ensures |r| <= |s|
  {
    if s == [] then []
    else
      var rest := Dedup(s[1..]);
      [s[0]] + Filter(Other(s[0]), rest)
  }

  lemma {:induction false} DedupDistinct<T(!new)>(s: seq<T>)
    ensures Distinct(Dedup(s))
  {
    if s != [] {
      DedupDistinct(s[1..]);
      FilterDistinct(Other(s[0]), Dedup(s[1..]));
      assert s[0] !in Filter(Other(s[0]), Dedup(s[1..]));
    }
  }

  lemma {:induction false} DedupFilter<T(!new)>(y: T, s: seq<T>)
    ensures Dedup(Filter(Other(y), s)) == Filter(Other(y), Dedup(s))
  {
    if s != [] {
      var x, t := s[0], s[1..];
      DedupFilter(y, t);
      var rest := Filter(Other(x), Dedup(t));
      assert ([x] + rest)[1..] == rest;
      if x == y {
        FilterAll(Other(y), rest);
      } else {
        var f := Filter(Other(y), t);
        assert ([x] + f)[1..] == f;
        FiltersCommute(Other(x), Other(y), Dedup(t));
      }
    }
  }

  lemma FilterSnoc<T(!new)>(p: T -> bool, s: seq<T>, x: T)
    ensures Filter(p, s + [x]) == if p(x) then Filter(p, s) + [x] else Filter(p, s)
  {
    FilterConcat(p, s, [x]);
    assert [x][1..] == [];
  }

  lemma DedupCons<T(!new)>(x: T, t: seq<T>)
    ensures Dedup([x] + t) == [x] + Filter(Other(x), Dedup(t))
    ensures Dedup<T>([]) == [] && Filter(Other(x), []) == []
  {
    assert ([x] + t)[1..] == t;
  }

  /** One more element at the end is new or changes nothing. */
  lemma {:induction false} DedupSnoc<T(!new)>(s: seq<T>, x: T)
    ensures Dedup(s + [x]) == if x in s then Dedup(s) else Dedup(s) + [x]
  {
    hide Dedup, Filter;
    if s == [] {
      DedupCons(x, []);
      assert s + [x] == [x] + [] == [x];
    } else {
      var y, t := s[0], s[1..];
      DedupSnoc(t, x);
      DedupCons(y, t);
      DedupCons(y, t + [x]);
      assert s == [y] + t && s + [x] == [y] + (t + [x]);
      if x !in t {
        FilterSnoc(Other(y), Dedup(t), x);
        assert [y] + (Filter(Other(y), Dedup(t)) + [x]) == ([y] + Filter(Other(y), Dedup(t))) + [x];
      }
    }
  }

  /** The j-th distinct element is the first one that differs from the j before it. */
  lemma {:induction false} DedupByFirst<T(!new)>(s: seq<T>, j: nat) returns (p: nat)
    requires j < |Dedup(s)|
    ensures p < |s| && s[p] == Dedup(s)[j] && forall q :: 0 <= q < p ==> s[q] in Dedup(s)[..j]
    decreases |s|
  {
    hide Dedup;
    DedupNothing(s);
    var t, x := s[..|s| - 1], s[|s| - 1];
    assert s == t + [x];
    DedupSnoc(t, x);
    if j < |Dedup(t)| {
      p := DedupByFirst(t, j);
      assert Dedup(s)[..j] == Dedup(t)[..j];
    } else {
      p := |t|;
      assert Dedup(s)[..j] == Dedup(t);
    }
  }

  lemma DedupNothing<T(!new)>(s: seq<T>)
    ensures Dedup(s[..0]) == []
  {
    assert s[..0] == [];
  }

  /** A repetition-free sequence is as long as its set of elements. */
  lemma {:induction false} DistinctSize<T>(s: seq<T>)
    requires Distinct(s)
    ensures |set x | x in s| == |s|
  {
    if s != [] {
      DistinctSize(s[1..]);
      assert (set x | x in s) == {s[0]} + set x | x in s[1..];
    }
  }
}

/** The consistent-hash ring of cache/consthash.go as a value, and what it promises. */
module Rings {
  import opened Sequences
  import opened Sets
  import opened Filters

  /** The sorted points with repetitions, the owner of each point, the weights and the points of each node. */
  datatype Ring = Ring(sorted: seq<nat>, owner: map<nat, string>, weights: map<string, int>,
                       points: map<string, seq<nat>>)

  const EMPTY: Ring := Ring([], map[], map[], map[])

  function Itoa(n: nat): (r: string)
  {
    var digits := "0123456789";
    if n < 10 then [digits[n]] else Itoa(n / 10) + [digits[n % 10]]
  }

  function VirtualNode(node: string, i: nat): (r: string)
  {
    node + ":" + Itoa(i)
  }

  /** The first n points of a node. */
  function PointsOf(hash: string -> nat, node: string, n: nat): (r: seq<nat>)
    ensures |r| == n
  {
    if n == 0 then [] else PointsOf(hash, node, n - 1) + [hash(VirtualNode(node, n - 1))]
  }

  function Elements(s: seq<nat>): (r: set<nat>)
  {
    set x | x in s
  }

  function Weight(weight: int): (w: int)
    ensures w >= 1
  {
    if weight <= 0 then 1 else weight
  }

  function Removed(r: Ring, node: string): (r': Ring)
  {
    if node !in r.points then r
    else
      var xs := Elements(r.points[node]);
      Ring(Filter(NotIn(xs), r.sorted), r.owner - xs, r.weights - {node}, r.points - {node})
  }

  function Owning(owner: map<nat, string>, pts: seq<nat>, node: string): (r: map<nat, string>)
  {
    owner + map x | x in pts :: node
  }

  function Joined(r: Ring, hash: string -> nat, replicas: nat, node: string, weight: int): (r': Ring)
  {
    var pts := PointsOf(hash, node, replicas * Weight(weight));
    Ring(Sort(r.sorted + pts), Owning(r.owner, pts, node), r.weights[node := Weight(weight)], r.points[node := pts])
  }

  /** A node that is already there is removed first. */
  function Added(r: Ring, hash: string -> nat, replicas: nat, node: string, weight: int): (r': Ring)
  {
    Joined(if node in r.weights then Removed(r, node) else r, hash, replicas, node, weight)
  }

  // ---------- the names of the virtual nodes ----------

  function DigitValue(c: char): (d: int)
  {
    c as int - '0' as int
  }

  predicate IsDigit(c: char)
  {
    '0' <= c <= '9'
  }

  /** The number a decimal numeral stands for. */
  function Numeral(s: string): (n: int)
  {
    if s == "" then 0 else 10 * Numeral(s[..|s| - 1]) + DigitValue(s[|s| - 1])
  }

  /** The digits of n, without leading zeros. */
  lemma {:induction false} ItoaIsDecimal(n: nat)
    ensures Numeral(Itoa(n)) == n && |Itoa(n)| > 0
    ensures forall i :: 0 <= i < |Itoa(n)| ==> IsDigit(Itoa(n)[i])
    ensures n > 0 ==> Itoa(n)[0] != '0'
  {
    var digits := "0123456789";
    var last := digits[n % 10];
    assert IsDigit(last) && DigitValue(last) == n % 10;
    if n < 10 {
      assert Itoa(n) == [last] && [last][..0] == "";
      assert Numeral([last]) == DigitValue(last);
    } else {
      ItoaIsDecimal(n / 10);
      var front := Itoa(n / 10);
      assert Itoa(n) == front + [last] && (front + [last])[..|front|] == front;
    }
  }

  /** Different nodes or different indexes have different names. */
  lemma VirtualNodesDiffer(m: string, i: nat, n: string, j: nat)
    requires VirtualNode(m, i) == VirtualNode(n, j)
    ensures m == n && i == j
  {
    hide Itoa, Numeral;
    ItoaIsDecimal(i);
    ItoaIsDecimal(j);
    var s, a, b := VirtualNode(m, i), Itoa(i), Itoa(j);
    assert s == m + ":" + a == n + ":" + b;
    assert s[|m|] == ':' && s[|n|] == ':';
    assert forall k :: |m| < k < |s| ==> s[k] == a[k - |m| - 1];
    assert forall k :: |n| < k < |s| ==> s[k] == b[k - |n| - 1];
    assert |m| == |n|;
    assert m == s[..|m|] && n == s[..|n|];
    assert a == s[|m| + 1..] && b == s[|n| + 1..];
  }

  lemma {:induction false} PointAt(hash: string -> nat, node: string, n: nat, i: nat)
    requires i < n
    ensures PointsOf(hash, node, n)[i] == hash(node + ":" + Itoa(i))
  {
    hide Itoa;
    if i < n - 1 {
      PointAt(hash, node, n - 1, i);
    }
  }

  /** The hash function gives different names of a node different points. */
  ghost predicate Separates(hash: string -> nat, node: string)
  {
    forall s, t :: s != t && s in NamesOf(node) && t in NamesOf(node) ==> hash(s) != hash(t)
  }

  ghost function NamesOf(node: string): (names: iset<string>)
  {
    iset i: nat | true :: node + ":" + Itoa(i)
  }

  /** A node gets replicas times its weight points, a weight that is not positive counting as 1; point i is the hash
      of the node's name with index i; all are owned by the node, and different if the hash function separates them. */
  lemma AddedPlacesItsPoints(r: Ring, hash: string -> nat, replicas: nat, node: string, weight: int)
    ensures var r' := Added(r, hash, replicas, node, weight);
            var n := replicas * (if weight > 0 then weight else 1);
            && node in r'.points && |r'.points[node]| == n
            && (forall i :: 0 <= i < n ==> r'.points[node][i] == hash(node + ":" + Itoa(i)))
            && (forall x :: x in r'.points[node] ==> x in r'.owner && r'.owner[x] == node && x in r'.sorted)
            && (Separates(hash, node) ==> Distinct(r'.points[node]) && |Elements(r'.points[node])| == n)
  {
    hide Itoa, Sort, Removed, Numeral, PointsOf, Separates, Elements, Distinct;
    var n := replicas * (if weight > 0 then weight else 1);
    forall i | 0 <= i < n
      ensures PointsOf(hash, node, n)[i] == hash(node + ":" + Itoa(i))
    {
      PointAt(hash, node, n, i);
    }
    if Separates(hash, node) {
      PointsDiffer(hash, node, n);
    }
  }

  lemma PointsDiffer(hash: string -> nat, node: string, n: nat)
    requires Separates(hash, node)
    ensures Distinct(PointsOf(hash, node, n)) && |Elements(PointsOf(hash, node, n))| == n
  {
    hide Itoa, PointsOf, Numeral;
    var pts := PointsOf(hash, node, n);
    forall i, j | 0 <= i < j < n
      ensures pts[i] != pts[j]
    {
      PointAt(hash, node, n, i);
      PointAt(hash, node, n, j);
      assert VirtualNode(node, i) in NamesOf(node) && VirtualNode(node, j) in NamesOf(node);
      if VirtualNode(node, i) == VirtualNode(node, j) {
        VirtualNodesDiffer(node, i, node, j);
      }
    }
    DistinctSize(pts);
  }

  // ---------- the invariant, for every hash function ----------

  ghost predicate Inv(r: Ring)
  {
    && Ordered(r.sorted)
    && (forall x :: x in r.sorted <==> x in r.owner)
    && (forall x :: x in r.owner ==> r.owner[x] in r.points && x in r.points[r.owner[x]])
    && r.weights.Keys == r.points.Keys
  }

  lemma {:induction false} FilterOrdered(p: nat -> bool, s: seq<nat>)
    requires Ordered(s)
    ensures Ordered(Filter(p, s))
  {
    SortOrdered(s);
    FilterSort(p, s);
    SortIsOrderedPermutation(Filter(p, s));
  }

  lemma RemovedKeepsInv(r: Ring, node: string)
    requires Inv(r)
    ensures Inv(Removed(r, node)) && node !in Removed(r, node).weights
  {
    if node in r.points {
      FilterOrdered(NotIn(Elements(r.points[node])), r.sorted);
    }
  }

  lemma JoinedKeepsInv(r: Ring, hash: string -> nat, replicas: nat, node: string, weight: int)
    requires Inv(r) && node !in r.weights
    ensures Inv(Joined(r, hash, replicas, node, weight))
  {
    var pts := PointsOf(hash, node, replicas * Weight(weight));
    SortIsOrderedPermutation(r.sorted + pts);
  }

  lemma AddedKeepsInv(r: Ring, hash: string -> nat, replicas: nat, node: string, weight: int)
    requires Inv(r)
    ensures Inv(Added(r, hash, replicas, node, weight))
  {
    RemovedKeepsInv(r, node);
    JoinedKeepsInv(if node in r.weights then Removed(r, node) else r, hash, replicas, node, weight);
  }

  // ---------- what the calls do: a removal can panic ----------

  /** The ring a call leaves behind, by returning or by panicking. */
  datatype Outcome = Done(ring: Ring) | Panicked(ring: Ring)

  /** The capacity reserved for the remaining points is not negative. */
  predicate Removable(r: Ring, node: string)
  {
    node in r.points ==> |Elements(r.points[node])| <= |r.sorted|
  }

  /** A removal that panics has deleted the owners of the node's points and nothing else. */
  function HalfRemoved(r: Ring, node: string): (r': Ring)
    requires node in r.points
  {
    r.(owner := r.owner - Elements(r.points[node]))
  }

  function Removing(r: Ring, node: string): (o: Outcome)
  {
    if Removable(r, node) then Done(Removed(r, node)) else Panicked(HalfRemoved(r, node))
  }

  /** Only the removal of an earlier registration can panic. */
  function Adding(r: Ring, hash: string -> nat, replicas: nat, node: string, weight: int): (o: Outcome)
  {
    if node in r.weights && !Removable(r, node) then Panicked(HalfRemoved(r, node))
    else Done(Added(r, hash, replicas, node, weight))
  }

  /** All points of the node are still on the ring, whoever owns them. */
  ghost predicate Whole(r: Ring, node: string)
  {
    node in r.points ==> forall x :: x in r.points[node] ==> x in r.owner
  }

  lemma {:induction false} ElementsSize(s: seq<nat>)
    ensures |Elements(s)| <= |s|
  {
    if s != [] {
      ElementsSize(s[1..]);
      assert Elements(s) == {s[0]} + Elements(s[1..]);
    }
  }

  lemma WholeIsRemovable(r: Ring, node: string)
    requires Inv(r) && Whole(r, node)
    ensures Removable(r, node)
  {
    if node in r.points {
      SubsetSize(Elements(r.points[node]), Elements(r.sorted));
      ElementsSize(r.sorted);
    }
  }

  /** After a panic the ring is still well formed exactly if none of the node's points was on it. */
  lemma HalfRemovedKeepsInvIff(r: Ring, node: string)
    requires Inv(r) && node in r.points
    ensures Inv(HalfRemoved(r, node)) <==> forall x :: x in r.points[node] ==> x !in r.owner
  {
    var r' := HalfRemoved(r, node);
    if x :| x in r.points[node] && x in r.owner {
      assert x in r'.sorted && x !in r'.owner;
    } else {
      assert r'.owner == r.owner;
    }
  }

  datatype Change = Add(node: string, weight: int) | Remove(node: string)

  function Changing(r: Ring, hash: string -> nat, replicas: nat, c: Change): (o: Outcome)
  {
    match c
    case Add(n, w) => Adding(r, hash, replicas, n, w)
    case Remove(n) => Removing(r, n)
  }

  /** A run of calls, which ends with the first panic. */
  function Play(hash: string -> nat, replicas: nat, changes: seq<Change>): (o: Outcome)
  {
    if changes == [] then Done(EMPTY)
    else
      var before := Play(hash, replicas, changes[..|changes| - 1]);
      if before.Panicked? then before else Changing(before.ring, hash, replicas, changes[|changes| - 1])
  }

  lemma ChangeKeepsInv(r: Ring, hash: string -> nat, replicas: nat, c: Change)
    requires Inv(r) && Changing(r, hash, replicas, c).Done?
    ensures Inv(Changing(r, hash, replicas, c).ring)
  {
    match c
    case Add(n, w) => AddedKeepsInv(r, hash, replicas, n, w);
    case Remove(n) => RemovedKeepsInv(r, n);
  }

  /** Every run of Add and Remove keeps the invariant up to the first panic, collisions or not. */
  lemma {:induction false} RunsKeepInv(hash: string -> nat, replicas: nat, changes: seq<Change>)
    ensures Play(hash, replicas, changes).Done? ==> Inv(Play(hash, replicas, changes).ring)
  {
    hide Inv;
    if changes == [] {
      EmptyInv();
    } else {
      var before := Play(hash, replicas, changes[..|changes| - 1]);
      RunsKeepInv(hash, replicas, changes[..|changes| - 1]);
      if Play(hash, replicas, changes).Done? {
        ChangeKeepsInv(before.ring, hash, replicas, changes[|changes| - 1]);
      }
    }
  }

  lemma EmptyInv()
    ensures Inv(EMPTY)
  {
  }

  /** Whenever a call has a registration to remove, that node's points are all still on the ring. */
  ghost predicate WholeRemovals(hash: string -> nat, replicas: nat, changes: seq<Change>)
  {
    changes != [] ==>
      && WholeRemovals(hash, replicas, changes[..|changes| - 1])
      && Whole(Play(hash, replicas, changes[..|changes| - 1]).ring, changes[|changes| - 1].node)
  }

  /** Such runs never panic, so they keep the invariant to the end. */
  lemma {:induction false} WholeRemovalsNeverPanic(hash: string -> nat, replicas: nat, changes: seq<Change>)
    requires WholeRemovals(hash, replicas, changes)
    ensures Play(hash, replicas, changes).Done? && Inv(Play(hash, replicas, changes).ring)
  {
    hide Inv;
    RunsKeepInv(hash, replicas, changes);
    if changes != [] {
      var before := changes[..|changes| - 1];
      WholeRemovalsNeverPanic(hash, replicas, before);
      WholeIsRemovable(Play(hash, replicas, before).ring, changes[|changes| - 1].node);
    }
  }

  // A hash function that never gives two nodes of the run the same point makes every removal whole

  ghost predicate Apart(hash: string -> nat, nodes: set<string>)
  {
    forall m, n, i: nat, j: nat :: m in nodes && n in nodes && m != n ==>
      hash(VirtualNode(m, i)) != hash(VirtualNode(n, j))
  }

  function Named(changes: seq<Change>): (nodes: set<string>)
  {
    set i | 0 <= i < |changes| :: changes[i].node
  }

  ghost predicate IsPointOf(hash: string -> nat, n: string, x: nat)
  {
    exists i: nat :: x == hash(VirtualNode(n, i))
  }

  /** Every registered node's points come from the hash function and are on the ring. */
  ghost predicate AllWhole(r: Ring, hash: string -> nat, nodes: set<string>)
  {
    forall n :: n in r.points ==>
      n in nodes && Whole(r, n) && forall x :: x in r.points[n] ==> IsPointOf(hash, n, x)
  }

  lemma {:induction false} PointsComeFromHash(hash: string -> nat, node: string, n: nat)
    ensures forall x :: x in PointsOf(hash, node, n) ==> IsPointOf(hash, node, x)
  {
    if n > 0 {
      PointsComeFromHash(hash, node, n - 1);
    }
  }

  lemma RemovedStaysWhole(r: Ring, hash: string -> nat, nodes: set<string>, node: string)
    requires Inv(r) && AllWhole(r, hash, nodes) && Apart(hash, nodes)
    ensures AllWhole(Removed(r, node), hash, nodes)
  {
    hide VirtualNode, Inv;
    var r' := Removed(r, node);
    forall n, x | n in r'.points && node in r.points && x in r'.points[n]
      ensures x !in r.points[node]
    {
      assert IsPointOf(hash, n, x);
    }
  }

  lemma JoinedStaysWhole(r: Ring, hash: string -> nat, replicas: nat, nodes: set<string>, node: string, weight: int)
    requires AllWhole(r, hash, nodes) && node in nodes
    ensures AllWhole(Joined(r, hash, replicas, node, weight), hash, nodes)
  {
    hide Sort, PointsOf, IsPointOf;
    PointsComeFromHash(hash, node, replicas * Weight(weight));
  }

  lemma ChangeStaysWhole(r: Ring, hash: string -> nat, replicas: nat, nodes: set<string>, c: Change)
    requires Inv(r) && AllWhole(r, hash, nodes) && Apart(hash, nodes) && c.node in nodes
    ensures var o := Changing(r, hash, replicas, c); o.Done? && Inv(o.ring) && AllWhole(o.ring, hash, nodes)
  {
    hide Inv, Apart, Joined, Removed;
    assert Whole(r, c.node);
    WholeIsRemovable(r, c.node);
    ChangeKeepsInv(r, hash, replicas, c);
    RemovedStaysWhole(r, hash, nodes, c.node);
    if c.Add? {
      var r' := if c.node in r.weights then Removed(r, c.node) else r;
      JoinedStaysWhole(r', hash, replicas, nodes, c.node, c.weight);
    }
  }

  /** Without collisions between nodes no run panics. */
  lemma {:induction false} ApartNeverPanics(hash: string -> nat, replicas: nat, nodes: set<string>,
                                            changes: seq<Change>)
    requires Apart(hash, nodes) && Named(changes) <= nodes
    ensures var o := Play(hash, replicas, changes); o.Done? && Inv(o.ring) && AllWhole(o.ring, hash, nodes)
  {
    hide Inv, Apart, AllWhole, Changing;
    if changes == [] {
      EmptyInv();
      EmptyWhole(hash, nodes);
    } else {
      var before, last := changes[..|changes| - 1], changes[|changes| - 1];
      assert Named(before) <= Named(changes) && last.node in Named(changes);
      ApartNeverPanics(hash, replicas, nodes, before);
      ChangeStaysWhole(Play(hash, replicas, before).ring, hash, replicas, nodes, last);
    }
  }

  lemma EmptyWhole(hash: string -> nat, nodes: set<string>)
    ensures AllWhole(EMPTY, hash, nodes)
  {
  }

  // ---------- the clockwise walk ----------

  /** The points in clockwise order from position h. */
  function Clockwise(sorted: seq<nat>, h: nat): (r: seq<nat>)
    ensures forall x :: x in r <==> x in sorted
  {
    Filter(AtLeast(h), sorted) + Filter(Below(h), sorted)
  }

  /** Looking up a missing point gives the empty string. */
  function OwnerOf(owner: map<nat, string>, x: nat): (r: string)
  {
    if x in owner then owner[x] else ""
  }

  function Owners(owner: map<nat, string>, s: seq<nat>): (r: seq<string>)
    ensures |r| == |s| && forall i :: 0 <= i < |s| ==> r[i] == OwnerOf(owner, s[i])
  {
    if s == [] then [] else [OwnerOf(owner, s[0])] + Owners(owner, s[1..])
  }

  /** All owners in clockwise order of their first point from position h. */
  function Preference(r: Ring, h: nat): (nodes: seq<string>)
  {
    Dedup(Owners(r.owner, Clockwise(r.sorted, h)))
  }

  lemma NothingToCollect(r: Ring, h: nat)
    requires r.sorted == []
    ensures Preference(r, h) == []
  {
  }

  /** What Get answers. */
  function Primary(r: Ring, h: nat): (node: string)
  {
    if r.sorted == [] then "" else Preference(r, h)[0]
  }

  function Min(a: nat, b: nat): (r: nat)
  {
    if a < b then a else b
  }

  /** What GetN answers when it answers. */
  function Replicas(r: Ring, h: nat, count: nat): (nodes: seq<string>)
  {
    var all := Preference(r, h);
    all[..Min(|all|, Min(count, |r.weights|))]
  }

  /** Point x is the first one clockwise from h. */
  ghost predicate IsSuccessor(points: set<nat>, h: nat, x: nat)
  {
    && x in points
    && (forall t :: t in points && h <= t ==> h <= x <= t)
    && (forall t :: t in points && t < h && x < h ==> x <= t)
  }

  lemma {:induction false} OrderedFilterHead(p: nat -> bool, s: seq<nat>, x: nat)
    requires Ordered(s) && x in s && p(x)
    ensures |Filter(p, s)| > 0 && Filter(p, s)[0] <= x
  {
    FilterOrdered(p, s);
    var f := Filter(p, s);
    assert x in f;
    var i :| 0 <= i < |f| && f[i] == x;
  }

  lemma ClockwiseStartsAtSuccessor(sorted: seq<nat>, h: nat)
    requires Ordered(sorted) && sorted != []
    ensures |Clockwise(sorted, h)| > 0
    ensures IsSuccessor(Elements(sorted), h, Clockwise(sorted, h)[0])
  {
    var up, down := Filter(AtLeast(h), sorted), Filter(Below(h), sorted);
    assert sorted[0] in sorted;
    forall t | t in sorted
      ensures if h <= t then |up| > 0 && up[0] <= t else |down| > 0 && down[0] <= t
    {
      if h <= t {
        OrderedFilterHead(AtLeast(h), sorted, t);
      } else {
        OrderedFilterHead(Below(h), sorted, t);
      }
    }
    assert up != [] ==> up[0] in up;
    assert down != [] ==> down[0] in down;
  }

  /** Get answers the owner of the cyclic successor. */
  lemma PrimaryOwnsSuccessor(r: Ring, h: nat, x: nat)
    requires Inv(r) && IsSuccessor(r.owner.Keys, h, x)
    ensures Primary(r, h) == r.owner[x]
  {
    assert x in r.sorted;
    ClockwiseStartsAtSuccessor(r.sorted, h);
    assert Elements(r.sorted) == r.owner.Keys;
    var c := Clockwise(r.sorted, h);
    assert c[0] == x;
  }

  /** Joining moves a key nowhere but to the new node, whatever the hash function does. */
  lemma JoiningMovesOnlyToNewNode(r: Ring, hash: string -> nat, replicas: nat, node: string, weight: int, h: nat)
    requires Inv(r) && node !in r.weights && r.sorted != []
    ensures var r' := Added(r, hash, replicas, node, weight);
            Primary(r', h) == Primary(r, h) || Primary(r', h) == node
  {
    hide Filter, Sort, PointsOf, Ordered, Weight, Clockwise, Preference;
    var r' := Added(r, hash, replicas, node, weight);
    AddedKeepsInv(r, hash, replicas, node, weight);
    var pts := PointsOf(hash, node, replicas * Weight(weight));
    assert r.sorted[0] in r.sorted + pts;
    ClockwiseStartsAtSuccessor(r'.sorted, h);
    var x := Clockwise(r'.sorted, h)[0];
    assert Elements(r'.sorted) == r'.owner.Keys == r.owner.Keys + Elements(pts);
    PrimaryOwnsSuccessor(r', h, x);
    if x !in pts {
      assert IsSuccessor(r.owner.Keys, h, x);
      PrimaryOwnsSuccessor(r, h, x);
    }
  }

  // ---------- removal ----------

  /** No point of the node that is still on the ring belongs to another node. */
  ghost predicate OwnsItsPoints(r: Ring, node: string)
  {
    node in r.points && forall x :: x in r.points[node] && x in r.owner ==> r.owner[x] == node
  }

  /** No other node has a point of this node. */
  ghost predicate Unshared(r: Ring, node: string)
  {
    && node in r.points
    && (forall m, x :: m in r.points && m != node && x in r.points[m] ==> x !in r.points[node])
  }

  lemma {:induction false} OwnersWithout(owner: map<nat, string>, xs: set<nat>, node: string, s: seq<nat>)
    requires forall x :: x in s ==> x in owner && (x in xs <==> owner[x] == node)
    ensures Owners(owner - xs, Filter(NotIn(xs), s)) == Filter(Other(node), Owners(owner, s))
  {
    if s != [] {
      OwnersWithout(owner, xs, node, s[1..]);
      var f, g := Filter(NotIn(xs), s[1..]), Owners(owner, s[1..]);
      assert ([s[0]] + f)[1..] == f && ([owner[s[0]]] + g)[1..] == g;
    }
  }

  lemma ClockwiseWithout(sorted: seq<nat>, xs: set<nat>, h: nat)
    ensures Clockwise(Filter(NotIn(xs), sorted), h) == Filter(NotIn(xs), Clockwise(sorted, h))
  {
    FiltersCommute(AtLeast(h), NotIn(xs), sorted);
    FiltersCommute(Below(h), NotIn(xs), sorted);
    FilterConcat(NotIn(xs), Filter(AtLeast(h), sorted), Filter(Below(h), sorted));
  }

  /** Removal deletes the node from every preference list and moves nothing else. */
  lemma RemovalDeletesFromPreference(r: Ring, node: string, h: nat)
    requires Inv(r) && OwnsItsPoints(r, node)
    ensures Preference(Removed(r, node), h) == Filter(Other(node), Preference(r, h))
  {
    hide Filter, Dedup, Owners;
    var xs := Elements(r.points[node]);
    var c := Clockwise(r.sorted, h);
    ClockwiseWithout(r.sorted, xs, h);
    assert forall x :: x in c ==> x in r.owner && (x in xs <==> r.owner[x] == node);
    hide Clockwise;
    OwnersWithout(r.owner, xs, node, c);
    DedupFilter(node, Owners(r.owner, c));
  }

  /** A key whose node stays is not moved by a removal. */
  lemma RemovalLeavesOthersAlone(r: Ring, node: string, h: nat)
    requires Inv(r) && OwnsItsPoints(r, node) && Primary(r, h) != node
    ensures Primary(Removed(r, node), h) == Primary(r, h)
  {
    RemovalDeletesFromPreference(r, node, h);
    if r.sorted != [] {
      ClockwiseStartsAtSuccessor(r.sorted, h);
      var p := Preference(r, h);
      assert p == [p[0]] + p[1..];
      var x := Clockwise(r.sorted, h)[0];
      assert x in Filter(NotIn(Elements(r.points[node])), r.sorted) by {
        assert r.owner[x] == p[0];
      }
    }
  }

  lemma AddedIsWhole(r: Ring, hash: string -> nat, replicas: nat, node: string, weight: int)
    requires Inv(r)
    ensures Removable(Added(r, hash, replicas, node, weight), node)
  {
    hide Inv, Sort, PointsOf;
    AddedKeepsInv(r, hash, replicas, node, weight);
    WholeIsRemovable(Added(r, hash, replicas, node, weight), node);
  }

  lemma AddedRemoved(r: Ring, hash: string -> nat, replicas: nat, node: string, weight: int)
    requires Inv(r) && node !in r.weights
    requires forall x :: x in PointsOf(hash, node, replicas * Weight(weight)) ==> x !in r.owner
    ensures Removed(Added(r, hash, replicas, node, weight), node) == r
  {
    hide Filter, Sort, PointsOf, Ordered, Weight;
    var pts := PointsOf(hash, node, replicas * Weight(weight));
    var q := NotIn(Elements(pts));
    FilterSort(q, r.sorted + pts);
    FilterConcat(q, r.sorted, pts);
    FilterAll(q, r.sorted);
    FilterNone(q, pts);
    assert r.sorted + [] == r.sorted;
    SortOrdered(r.sorted);
    assert Owning(r.owner, pts, node) - Elements(pts) == r.owner;
    assert node !in r.points;
    assert r.weights[node := Weight(weight)] - {node} == r.weights;
    assert r.points[node := pts] - {node} == r.points;
  }

  /** Adding a fresh node with fresh points and removing it again returns normally and restores the ring exactly. */
  lemma AddThenRemove(r: Ring, hash: string -> nat, replicas: nat, node: string, weight: int)
    requires Inv(r) && node !in r.weights
    requires forall x :: x in PointsOf(hash, node, replicas * Weight(weight)) ==> x !in r.owner
    ensures Removing(Added(r, hash, replicas, node, weight), node) == Done(r)
  {
    hide Inv, PointsOf, Added, Removed, Removable;
    AddedRemoved(r, hash, replicas, node, weight);
    AddedIsWhole(r, hash, replicas, node, weight);
  }

  /** So a joining node with fresh points only inserts itself into every preference list. */
  lemma JoiningInsertsIntoPreference(r: Ring, hash: string -> nat, replicas: nat, node: string, weight: int, h: nat)
    requires Inv(r) && node !in r.weights
    requires forall x :: x in PointsOf(hash, node, replicas * Weight(weight)) ==> x !in r.owner
    ensures Filter(Other(node), Preference(Added(r, hash, replicas, node, weight), h)) == Preference(r, h)
  {
    hide Inv, Added, Removed, Filter, Preference, PointsOf, Weight, OwnsItsPoints;
    AddedKeepsInv(r, hash, replicas, node, weight);
    AddedRemoved(r, hash, replicas, node, weight);
    AddedOwnsItsPoints(r, hash, replicas, node, weight);
    RemovalDeletesFromPreference(Added(r, hash, replicas, node, weight), node, h);
  }

  lemma AddedOwnsItsPoints(r: Ring, hash: string -> nat, replicas: nat, node: string, weight: int)
    ensures OwnsItsPoints(Added(r, hash, replicas, node, weight), node)
  {
    hide Removed, Sort, PointsOf;
  }

  lemma PointsHaveOwners(r: Ring)
    requires Inv(r)
    ensures forall x :: x in r.sorted ==> x in r.owner
  {
  }

  lemma OnePoint(hash: string -> nat, node: string, x: nat)
    requires hash(VirtualNode(node, 0)) == x
    ensures PointsOf(hash, node, 1) == [x]
  {
    assert PointsOf(hash, node, 0) == [];
  }

  // ---------- the walk of GetN ----------

  ghost predicate OwnsAPoint(r: Ring, n: string)
  {
    exists x :: x in r.owner && r.owner[x] == n
  }

  /** The registered nodes that own a point. */
  ghost function Holders(r: Ring): (nodes: set<string>)
  {
    set n | n in r.weights && OwnsAPoint(r, n)
  }

  /** Every registered node owns a point. */
  ghost predicate AllOwn(r: Ring)
  {
    forall n :: n in r.weights ==> OwnsAPoint(r, n)
  }

  lemma WalkMeetsOwners(r: Ring, h: nat, n: string)
    requires Inv(r)
    ensures n in Owners(r.owner, Clockwise(r.sorted, h)) <==> n in Holders(r)
  {
    hide Clockwise, Owners;
    var c := Clockwise(r.sorted, h);
    var os := Owners(r.owner, c);
    if n in Holders(r) {
      var x :| x in r.owner && r.owner[x] == n;
      assert x in c;
      var i :| 0 <= i < |c| && c[i] == x;
      assert os[i] == n;
    }
    if n in os {
      var i :| 0 <= i < |os| && os[i] == n;
      assert c[i] in c;
      assert r.owner[c[i]] == n;
    }
  }

  lemma PreferenceIsOwners(r: Ring, h: nat)
    requires Inv(r)
    ensures Distinct(Preference(r, h))
    ensures forall n :: n in Preference(r, h) <==> n in Holders(r)
    ensures |Preference(r, h)| == |Holders(r)| <= |r.weights|
    ensures AllOwn(r) ==> |Preference(r, h)| == |r.weights|
    ensures r.sorted != [] ==> |Preference(r, h)| > 0
  {
    hide Clockwise, Owners, Dedup, Distinct, OwnsAPoint;
    forall n
      ensures n in Preference(r, h) <==> n in Holders(r)
    {
      WalkMeetsOwners(r, h, n);
    }
    DedupDistinct(Owners(r.owner, Clockwise(r.sorted, h)));
    DistinctSize(Preference(r, h));
    assert (set n | n in Preference(r, h)) == Holders(r);
    SubsetSize(Holders(r), r.weights.Keys);
    if AllOwn(r) {
      assert Holders(r) == r.weights.Keys;
    }
    if r.sorted != [] {
      SomeHolder(r);
    }
  }

  /** The j-th node of the list owns the first point clockwise that belongs to none of the j nodes before it. */
  lemma PreferenceByFirstPoint(r: Ring, h: nat, j: nat) returns (p: nat)
    requires Inv(r) && j < |Preference(r, h)|
    ensures var c, nodes := Clockwise(r.sorted, h), Preference(r, h);
            && p < |c| && c[p] in r.owner && r.owner[c[p]] == nodes[j]
            && forall q :: 0 <= q < p ==> c[q] in r.owner && r.owner[c[q]] in nodes[..j]
  {
    hide Clockwise, Dedup, Ordered;
    var c := Clockwise(r.sorted, h);
    p := DedupByFirst(Owners(r.owner, c), j);
    assert forall q :: 0 <= q < |c| ==> c[q] in c;
  }

  lemma SomeHolder(r: Ring)
    requires Inv(r) && r.sorted != []
    ensures r.owner[r.sorted[0]] in Holders(r)
  {
    assert r.sorted[0] in r.owner;
  }

  /** GetN: distinct registered nodes, as many as asked for and there are, led by Get, longer counts extending
      shorter ones. */
  lemma ReplicasAreDistinctOwners(r: Ring, h: nat, count: nat, more: nat)
    requires Inv(r) && AllOwn(r) && count <= more
    ensures |Replicas(r, h, count)| == Min(count, |r.weights|)
    ensures Distinct(Replicas(r, h, count))
    ensures forall n :: n in Replicas(r, h, count) ==> n in r.weights
    ensures count > 0 && r.sorted != [] ==> |Replicas(r, h, count)| > 0 && Replicas(r, h, count)[0] == Primary(r, h)
    ensures Replicas(r, h, count) <= Replicas(r, h, more)
  {
    hide Preference, Inv, AllOwn;
    PreferenceIsOwners(r, h);
    forall n | n in Replicas(r, h, count)
      ensures n in r.weights
    {
      assert n in Preference(r, h);
    }
  }

  /** The i-th point met on the way round and round. */
  ghost function Lap(c: seq<nat>, i: nat): (x: nat)
    requires |c| > 0
    ensures x in c
    ensures i < |c| ==> x == c[i]
  {
    c[i % |c|]
  }

  /** The nodes collected after k steps of the walk, which goes round and round. */
  ghost function Seen(r: Ring, h: nat, k: nat): (nodes: set<string>)
    requires r.sorted != [] && Inv(r)
  {
    ClockwiseStartsAtSuccessor(r.sorted, h);
    var c := Clockwise(r.sorted, h);
    set i: nat | i < k :: OwnerOf(r.owner, Lap(c, i))
  }

  lemma SeenOnTheRing(r: Ring, h: nat, k: nat)
    requires Inv(r) && r.sorted != []
    ensures Seen(r, h, k) <= Holders(r)
    ensures k >= |Clockwise(r.sorted, h)| ==> Seen(r, h, k) == Holders(r)
  {
    hide Clockwise, Lap, IsSuccessor;
    ClockwiseStartsAtSuccessor(r.sorted, h);
    var c := Clockwise(r.sorted, h);
    forall n | n in Seen(r, h, k)
      ensures n in Holders(r)
    {
      var i: nat :| i < k && n == OwnerOf(r.owner, Lap(c, i));
      var x := Lap(c, i);
      assert r.owner[x] == n;
    }
    if k >= |c| {
      forall n | n in Holders(r)
        ensures n in Seen(r, h, k)
      {
        var x :| x in r.owner && r.owner[x] == n;
        assert x in c;
        var i: nat :| i < |c| && c[i] == x;
        assert n == OwnerOf(r.owner, Lap(c, i));
      }
    }
  }

  /** The loop of GetN comes to an end exactly when enough different nodes own points. */
  lemma GetNEndsIff(r: Ring, h: nat, count: nat)
    requires Inv(r) && r.sorted != []
    ensures (exists k: nat :: !(|Seen(r, h, k)| < count && |Seen(r, h, k)| < |r.weights|))
       <==> Min(count, |r.weights|) <= |Holders(r)|
  {
    forall k: nat
      ensures |Seen(r, h, k)| <= |Holders(r)|
    {
      SeenOnTheRing(r, h, k);
      SubsetSize(Seen(r, h, k), Holders(r));
    }
    var n := |Clockwise(r.sorted, h)|;
    SeenOnTheRing(r, h, n);
    assert |Seen(r, h, n)| == |Holders(r)|;
  }

  // ---------- removal with shared points: exactly when it does no harm ----------

  /** The points that survive the removal of a node. */
  function Surviving(r: Ring, node: string): (xs: set<nat>)
    requires node in r.points
  {
    r.owner.Keys - Elements(r.points[node])
  }

  /** The first surviving point clockwise from x belongs to the owner of x. */
  ghost predicate Replaced(r: Ring, node: string, x: nat)
    requires node in r.points && x in r.owner
  {
    exists y :: IsSuccessor(Surviving(r, node), x, y) && r.owner[y] == r.owner[x]
  }

  /** Every point the removal takes away from another node is followed by a surviving point of that node. */
  ghost predicate LossesReplaced(r: Ring, node: string)
    requires node in r.points
  {
    forall x :: x in r.points[node] && x in r.owner && r.owner[x] != node ==> Replaced(r, node, x)
  }

  lemma SuccessorIsUnique(points: set<nat>, h: nat, x: nat, y: nat)
    requires IsSuccessor(points, h, x) && IsSuccessor(points, h, y)
    ensures x == y
  {
  }

  /** p comes no later than q on the way clockwise from h. */
  predicate NoLater(h: nat, p: nat, q: nat)
  {
    if h <= p then q < h || p <= q else q < h && p <= q
  }

  lemma ClockwiseInOrder(sorted: seq<nat>, h: nat, i: nat, j: nat)
    requires Ordered(sorted) && i <= j < |Clockwise(sorted, h)|
    ensures NoLater(h, Clockwise(sorted, h)[i], Clockwise(sorted, h)[j])
  {
    var up: seq<nat>, down: seq<nat> := Filter(AtLeast(h), sorted), Filter(Below(h), sorted);
    FilterOrdered(AtLeast(h), sorted);
    FilterOrdered(Below(h), sorted);
    hide Filter;
    var c := Clockwise(sorted, h);
    assert c == up + down;
    assert i < |up| ==> c[i] == up[i] && c[i] in up;
    assert j < |up| ==> c[j] == up[j] && c[j] in up;
    assert i >= |up| ==> c[i] == down[i - |up|] && c[i] in down;
    assert j >= |up| ==> c[j] == down[j - |up|] && c[j] in down;
  }

  /** Where a filtered sequence starts. */
  lemma {:induction false} FirstKept<T(!new)>(p: T -> bool, s: seq<T>) returns (j: nat)
    requires Filter(p, s) != []
    ensures j < |s| && s[j] == Filter(p, s)[0] && p(s[j])
    ensures forall k :: 0 <= k < j ==> !p(s[k])
  {
    if p(s[0]) {
      j := 0;
    } else {
      var i := FirstKept(p, s[1..]);
      j := i + 1;
      assert forall k :: 1 <= k < j ==> s[k] == s[1..][k - 1];
    }
  }

  /** The first point outside xs met after position i of the walk, or else the first one of all. */
  ghost predicate MeetsNext(c: seq<nat>, xs: set<nat>, i: nat, j: nat)
  {
    && i < |c| && j < |c| && c[j] !in xs
    && if i < j then forall k :: i < k < j ==> c[k] in xs
       else forall k :: 0 <= k < |c| && (k < j || i < k) ==> c[k] in xs
  }

  lemma NextMetIsSuccessor(sorted: seq<nat>, xs: set<nat>, h: nat, i: nat, j: nat)
    requires Ordered(sorted) && MeetsNext(Clockwise(sorted, h), xs, i, j) && Clockwise(sorted, h)[i] in xs
    ensures IsSuccessor(Elements(sorted) - xs, Clockwise(sorted, h)[i], Clockwise(sorted, h)[j])
  {
    var c := Clockwise(sorted, h);
    var x, y := c[i], c[j];
    hide Clockwise, Ordered;
    forall t | t in Elements(sorted) - xs
      ensures x <= t ==> x <= y <= t
      ensures t < x && y < x ==> y <= t
    {
      assert t in c;
      var k :| 0 <= k < |c| && c[k] == t;
      ClockwiseInOrder(sorted, h, if i < j then i else j, if i < j then j else i);
      ClockwiseInOrder(sorted, h, if i < k then i else k, if i < k then k else i);
      ClockwiseInOrder(sorted, h, if j < k then j else k, if j < k then k else j);
    }
  }

  /** The owners met at surviving points, and all owners met but the node. */
  ghost function Survivors(owner: map<nat, string>, xs: set<nat>, s: seq<nat>): (os: seq<string>)
  {
    Owners(owner, Filter(NotIn(xs), s))
  }

  ghost function OtherOwners(owner: map<nat, string>, node: string, s: seq<nat>): (os: seq<string>)
  {
    Filter(Other(node), Owners(owner, s))
  }

  lemma MeetOne(owner: map<nat, string>, xs: set<nat>, node: string, s: seq<nat>)
    requires s != []
    ensures var o := OwnerOf(owner, s[0]);
            && Survivors(owner, xs, s) == (if s[0] in xs then [] else [o]) + Survivors(owner, xs, s[1..])
            && OtherOwners(owner, node, s) == (if o == node then [] else [o]) + OtherOwners(owner, node, s[1..])
  {
    FilterHead(NotIn(xs), s[0], s[1..]);
    FilterHead(Other(node), OwnerOf(owner, s[0]), Owners(owner, s[1..]));
    assert [s[0]] + s[1..] == s;
    var f := Filter(NotIn(xs), s[1..]);
    assert ([s[0]] + f)[1..] == f && [] + f == f;
  }

  /** The owner of the first surviving point of s, or else w. */
  ghost function NextOwner(owner: map<nat, string>, xs: set<nat>, s: seq<nat>, w: string): (o: string)
  {
    var os := Survivors(owner, xs, s);
    if os == [] then w else os[0]
  }

  /** Each lost point of another node is followed by a surviving point of its owner. */
  ghost predicate Followed(owner: map<nat, string>, xs: set<nat>, node: string, s: seq<nat>, w: string)
  {
    s != [] ==>
      && (s[0] in xs && OwnerOf(owner, s[0]) != node ==> OwnerOf(owner, s[0]) == NextOwner(owner, xs, s[1..], w))
      && Followed(owner, xs, node, s[1..], w)
  }

  /** One owner more in front changes two lists alike. */
  lemma AlikeWithOneMore(o: string, w: string, s: seq<string>, t: seq<string>)
    requires Filter(Other(w), Dedup(s)) == Filter(Other(w), Dedup(t))
    ensures Filter(Other(w), Dedup([o] + s)) == Filter(Other(w), Dedup([o] + t))
  {
    hide Filter, Dedup;
    DedupCons(o, s);
    DedupCons(o, t);
    FilterHead(Other(w), o, Filter(Other(o), Dedup(s)));
    FilterHead(Other(w), o, Filter(Other(o), Dedup(t)));
    FiltersCommute(Other(w), Other(o), Dedup(s));
    FiltersCommute(Other(w), Other(o), Dedup(t));
  }

  /** Naming the first owner once more changes nothing. */
  lemma HeadTwice(o: string, s: seq<string>)
    requires s != [] && s[0] == o
    ensures Dedup([o] + s) == Dedup(s)
  {
    hide Filter, Dedup;
    var rest := Dedup(s[1..]);
    assert [o] + s[1..] == s;
    DedupCons(o, s[1..]);
    DedupCons(o, s);
    FilterHead(Other(o), o, Filter(Other(o), rest));
    FilterAll(Other(o), Filter(Other(o), rest)) by {
      assert forall x :: x in Filter(Other(o), rest) ==> x != o;
    }
    assert [] + Filter(Other(o), rest) == Filter(Other(o), rest);
  }

  /** The element left aside may be added at will. */
  lemma AsideAdded(w: string, s: seq<string>)
    ensures Filter(Other(w), Dedup([w] + s)) == Filter(Other(w), Dedup(s))
  {
    hide Filter, Dedup;
    DedupCons(w, s);
    var f := Filter(Other(w), Dedup(s));
    FilterHead(Other(w), w, f);
    FilterAll(Other(w), f) by {
      assert forall x :: x in f ==> x != w;
    }
    assert [] + f == f;
  }

  /** Apart from w, the owners first met are the same with and without the lost points. */
  lemma {:induction false} LossesUnseen(owner: map<nat, string>, xs: set<nat>, node: string, s: seq<nat>, w: string)
    requires Followed(owner, xs, node, s, w)
    requires forall x :: x in s && x !in xs ==> OwnerOf(owner, x) != node
    ensures Filter(Other(w), Dedup(Survivors(owner, xs, s))) == Filter(Other(w), Dedup(OtherOwners(owner, node, s)))
    decreases |s|
  {
    hide Filter, Dedup, Survivors, OtherOwners, OwnerOf;
    if s == [] {
      NobodyMet(owner, xs, node);
    } else {
      var o, s', t' := OwnerOf(owner, s[0]), Survivors(owner, xs, s[1..]), OtherOwners(owner, node, s[1..]);
      LossesUnseen(owner, xs, node, s[1..], w);
      MeetOne(owner, xs, node, s);
      AlikeWithOneMore(o, w, s', t');
      assert [] + s' == s' && [] + t' == t';
      if s[0] in xs && o != node {
        if s' == [] {
          AsideAdded(w, t');
        } else {
          HeadTwice(o, s');
        }
      }
    }
  }

  lemma NobodyMet(owner: map<nat, string>, xs: set<nat>, node: string)
    ensures Survivors(owner, xs, []) == [] == OtherOwners(owner, node, [])
  {
  }

  lemma {:induction false} FollowedFrom(owner: map<nat, string>, xs: set<nat>, node: string, c: seq<nat>, w: string,
                                        k: nat)
    requires k <= |c|
    requires forall i :: 0 <= i < |c| && c[i] in xs && OwnerOf(owner, c[i]) != node ==>
               OwnerOf(owner, c[i]) == NextOwner(owner, xs, c[i + 1..], w)
    ensures Followed(owner, xs, node, c[k..], w)
    decreases |c| - k
  {
    hide NextOwner, OwnerOf;
    if k < |c| {
      FollowedFrom(owner, xs, node, c, w, k + 1);
      assert c[k..][1..] == c[k + 1..] && c[k..][0] == c[k];
    }
  }

  /** With all losses replaced, the walk from any position meets the replacement next. */
  lemma LossesFollowed(r: Ring, node: string, h: nat)
    requires Inv(r) && node in r.points && LossesReplaced(r, node)
    ensures var c, xs := Clockwise(r.sorted, h), Elements(r.points[node]);
            Followed(r.owner, xs, node, c, NextOwner(r.owner, xs, c, ""))
  {
    hide Clockwise, Inv, LossesReplaced, OwnerOf, NextOwner, Followed;
    var c, xs := Clockwise(r.sorted, h), Elements(r.points[node]);
    var w := NextOwner(r.owner, xs, c, "");
    forall i | 0 <= i < |c| && c[i] in xs && OwnerOf(r.owner, c[i]) != node
      ensures OwnerOf(r.owner, c[i]) == NextOwner(r.owner, xs, c[i + 1..], w)
    {
      LossFollowed(r, node, h, i);
    }
    FollowedFrom(r.owner, xs, node, c, w, 0);
    assert c[0..] == c;
  }

  lemma LossFollowed(r: Ring, node: string, h: nat, k: nat)
    requires Inv(r) && node in r.points && LossesReplaced(r, node) && k < |Clockwise(r.sorted, h)|
    requires Clockwise(r.sorted, h)[k] in r.points[node] && OwnerOf(r.owner, Clockwise(r.sorted, h)[k]) != node
    ensures var c, xs := Clockwise(r.sorted, h), Elements(r.points[node]);
            OwnerOf(r.owner, c[k]) == NextOwner(r.owner, xs, c[k + 1..], NextOwner(r.owner, xs, c, ""))
  {
    hide Clockwise, Filter, Ordered;
    var c, xs := Clockwise(r.sorted, h), Elements(r.points[node]);
    var x, rest := c[k], c[k + 1..];
    assert x in c;
    var y :| IsSuccessor(Surviving(r, node), x, y) && r.owner[y] == r.owner[x];
    assert Elements(r.sorted) - xs == Surviving(r, node);
    var j: nat;
    if Filter(NotIn(xs), rest) != [] {
      var i := FirstKept(NotIn(xs), rest);
      j := k + 1 + i;
      assert forall m :: k < m < j ==> c[m] == rest[m - k - 1];
    } else {
      assert y in Filter(NotIn(xs), c);
      j := FirstKept(NotIn(xs), c);
      forall m | k < m < |c|
        ensures c[m] in xs
      {
        assert c[m] == rest[m - k - 1] && c[m] in rest;
        assert c[m] !in Filter(NotIn(xs), rest);
      }
    }
    assert MeetsNext(c, xs, k, j);
    NextMetIsSuccessor(r.sorted, xs, h, k, j);
    SuccessorIsUnique(Surviving(r, node), x, y, c[j]);
    assert Filter(NotIn(xs), rest) == [] ==> Survivors(r.owner, xs, rest) == [];
  }

  lemma {:induction false} FirstOther(owner: map<nat, string>, xs: set<nat>, node: string, s: seq<nat>, w: string)
    requires Followed(owner, xs, node, s, w) && Survivors(owner, xs, s) != []
    requires forall x :: x in s && x !in xs ==> OwnerOf(owner, x) != node
    ensures OtherOwners(owner, node, s) != [] && OtherOwners(owner, node, s)[0] == Survivors(owner, xs, s)[0]
    decreases |s|
  {
    hide Survivors, OtherOwners, OwnerOf;
    if s == [] {
      NobodyMet(owner, xs, node);
    } else {
      MeetOne(owner, xs, node, s);
      if s[0] in xs {
        assert [] + Survivors(owner, xs, s[1..]) == Survivors(owner, xs, s[1..]);
        FirstOther(owner, xs, node, s[1..], w);
      }
    }
  }

  lemma DedupFromHead(w: string, s: seq<string>)
    requires s != [] && s[0] == w
    ensures Dedup(s) == [w] + Filter(Other(w), Dedup(s))
  {
    hide Filter, Dedup;
    HeadTwice(w, s);
    DedupCons(w, s);
  }

  lemma {:induction false} SurvivorsKeepOwners(owner: map<nat, string>, xs: set<nat>, s: seq<nat>)
    ensures Owners(owner - xs, Filter(NotIn(xs), s)) == Survivors(owner, xs, s)
  {
    var f := Filter(NotIn(xs), s);
    assert forall i :: 0 <= i < |f| ==> f[i] in f;
  }

  /** Replaced losses change no owner list. */
  lemma ReplacedLossesDoNoHarm(r: Ring, node: string, h: nat)
    requires Inv(r) && node in r.points && LossesReplaced(r, node)
    ensures Preference(Removed(r, node), h) == Filter(Other(node), Preference(r, h))
  {
    var c, xs := Clockwise(r.sorted, h), Elements(r.points[node]);
    ClockwiseWithout(r.sorted, xs, h);
    SurvivorsKeepOwners(r.owner, xs, c);
    DedupFilter(node, Owners(r.owner, c));
    LossesFollowed(r, node, h);
    forall x | x in c && x !in xs
      ensures OwnerOf(r.owner, x) != node
    {
      assert x in r.owner;
    }
    hide Clockwise, Filter, Dedup, Owners, Inv, Survivors, OtherOwners, Followed;
    SameOwnersMet(r, node, c);
    assert Preference(Removed(r, node), h) == Dedup(Survivors(r.owner, xs, c));
  }

  lemma SameOwnersMet(r: Ring, node: string, c: seq<nat>)
    requires node in r.points && LossesReplaced(r, node)
    requires var xs := Elements(r.points[node]);
             && Followed(r.owner, xs, node, c, NextOwner(r.owner, xs, c, ""))
             && (forall x :: x in c && x !in xs ==> OwnerOf(r.owner, x) != node)
    requires forall x :: x in c <==> x in r.owner
    ensures Dedup(Survivors(r.owner, Elements(r.points[node]), c)) == Dedup(OtherOwners(r.owner, node, c))
  {
    var xs := Elements(r.points[node]);
    var s, t := Survivors(r.owner, xs, c), OtherOwners(r.owner, node, c);
    if s != [] {
      hide Filter, Dedup, Survivors, OtherOwners, Followed, LossesReplaced;
      var w := s[0];
      LossesUnseen(r.owner, xs, node, c, w);
      FirstOther(r.owner, xs, node, c, w);
      DedupFromHead(w, s);
      DedupFromHead(w, t);
    } else {
      NoSurvivors(r, node, c);
    }
  }

  lemma NoSurvivors(r: Ring, node: string, c: seq<nat>)
    requires node in r.points && LossesReplaced(r, node) && (forall x :: x in c <==> x in r.owner)
    requires Survivors(r.owner, Elements(r.points[node]), c) == []
    ensures OtherOwners(r.owner, node, c) == []
  {
    var xs := Elements(r.points[node]);
    assert Filter(NotIn(xs), c) == [];
    forall o | o in Owners(r.owner, c)
      ensures o == node
    {
      var os := Owners(r.owner, c);
      var i :| 0 <= i < |os| && os[i] == o;
      assert c[i] in c && c[i] !in Filter(NotIn(xs), c);
      assert forall y :: y in Surviving(r, node) ==> y in Filter(NotIn(xs), c);
    }
    FilterNone(Other(node), Owners(r.owner, c));
  }

  /** The owner list of a position is led by the owner of the first point clockwise. */
  lemma LedBySuccessor(r: Ring, h: nat) returns (y: nat)
    requires Inv(r) && Preference(r, h) != []
    ensures IsSuccessor(r.owner.Keys, h, y) && r.owner[y] == Preference(r, h)[0]
  {
    if r.sorted == [] {
      NothingToCollect(r, h);
    }
    ClockwiseStartsAtSuccessor(r.sorted, h);
    y := Clockwise(r.sorted, h)[0];
    assert Elements(r.sorted) == r.owner.Keys;
    hide Clockwise, Preference;
    PrimaryOwnsSuccessor(r, h, y);
  }

  lemma LedByOwnPoint(r: Ring, node: string, x: nat)
    requires Inv(r) && x in r.owner && r.owner[x] != node
    ensures var p := Filter(Other(node), Preference(r, x)); p != [] && p[0] == r.owner[x]
  {
    hide Preference, Filter;
    assert x in r.sorted;
    PreferenceIsOwners(r, x);
    PrimaryOwnsSuccessor(r, x, x);
    var p := Preference(r, x);
    FilterHead(Other(node), p[0], p[1..]);
    assert [p[0]] + p[1..] == p;
  }

  /** A loss that is not replaced shows in the owner list of its own position. */
  lemma HarmlessLossIsReplaced(r: Ring, node: string, x: nat)
    requires Inv(r) && node in r.points && x in r.points[node] && x in r.owner && r.owner[x] != node
    requires Preference(Removed(r, node), x) == Filter(Other(node), Preference(r, x))
    ensures Replaced(r, node, x)
  {
    hide Filter, Preference, Inv;
    RemovedKeepsInv(r, node);
    LedByOwnPoint(r, node, x);
    var y := LedBySuccessor(Removed(r, node), x);
  }

  /** Removal deletes the node from every owner list and changes nothing else exactly if every point it takes
      away from another node is followed clockwise by a surviving point of that node. */
  lemma RemovalIsCleanIff(r: Ring, node: string)
    requires Inv(r) && node in r.points
    ensures (forall h: nat :: Preference(Removed(r, node), h) == Filter(Other(node), Preference(r, h)))
       <==> LossesReplaced(r, node)
  {
    hide Inv, Preference, Removed, Filter, Replaced;
    if LossesReplaced(r, node) {
      forall h: nat
        ensures Preference(Removed(r, node), h) == Filter(Other(node), Preference(r, h))
      {
        ReplacedLossesDoNoHarm(r, node, h);
      }
    }
    if forall h: nat :: Preference(Removed(r, node), h) == Filter(Other(node), Preference(r, h)) {
      forall x | x in r.points[node] && x in r.owner && r.owner[x] != node
        ensures Replaced(r, node, x)
      {
        HarmlessLossIsReplaced(r, node, x);
      }
    }
  }

  /** What joining adds, for a node with known points. */
  lemma FreshJoin(r: Ring, hash: string -> nat, node: string, weight: nat, pts: seq<nat>)
    requires Inv(r) && node !in r.weights && weight > 0 && PointsOf(hash, node, weight) == pts
    ensures Added(r, hash, 1, node, weight) ==
            Ring(Sort(r.sorted + pts), Owning(r.owner, pts, node), r.weights[node := weight], r.points[node := pts])
    ensures Inv(Added(r, hash, 1, node, weight))
  {
    AddedKeepsInv(r, hash, 1, node, weight);
  }

  /** The smallest ring with a shared point: two nodes with the same only point, which the second one owns. */
  lemma CollidingRing(hash: string -> nat)
    requires hash(VirtualNode("a", 0)) == 0 == hash(VirtualNode("b", 0))
    ensures var r := Added(Added(EMPTY, hash, 1, "a", 1), hash, 1, "b", 1);
            && Inv(r) && r.owner == map[0 := "b"] && r.sorted != []
            && r.weights.Keys == {"a", "b"} && "a" in r.points && r.points["a"] == [0]
            && "b" in r.points && r.points["b"] == [0]
  {
    hide VirtualNode, Sort, PointsOf, Itoa, Inv, Added;
    EmptyInv();
    OnePoint(hash, "a", 0);
    OnePoint(hash, "b", 0);
    FreshJoin(EMPTY, hash, "a", 1, [0]);
    var r1 := Added(EMPTY, hash, 1, "a", 1);
    FreshJoin(r1, hash, "b", 1, [0]);
    assert 0 in [0] && 0 in r1.sorted + [0];
  }

  /** Removing the first node of that ring leaves the second registered and off the ring. */
  lemma SharedPointRemovalLosesANode(hash: string -> nat)
    requires hash(VirtualNode("a", 0)) == 0 == hash(VirtualNode("b", 0))
    ensures var r := Added(Added(EMPTY, hash, 1, "a", 1), hash, 1, "b", 1);
            && Inv(r) && "a" in r.points && !LossesReplaced(r, "a") && Primary(r, 0) == "b"
            && "b" in Removed(r, "a").weights && Primary(Removed(r, "a"), 0) == ""
  {
    hide VirtualNode, Filter, Preference, Added, Inv;
    CollidingRing(hash);
    var r := Added(Added(EMPTY, hash, 1, "a", 1), hash, 1, "b", 1);
    PrimaryOwnsSuccessor(r, 0, 0);
    PointsHaveOwners(r);
    FilterNone(NotIn(Elements([0])), r.sorted);
    assert 0 in r.points["a"] && Surviving(r, "a") == {};
  }

  /** After that, removing the second node panics. */
  lemma SecondRemovalPanics(hash: string -> nat)
    requires hash(VirtualNode("a", 0)) == 0 == hash(VirtualNode("b", 0))
    ensures var r := Added(Added(EMPTY, hash, 1, "a", 1), hash, 1, "b", 1);
            Removing(r, "a").Done? && Inv(Removed(r, "a")) && Removing(Removed(r, "a"), "b").Panicked?
  {
    hide VirtualNode, Filter, Added, Inv;
    CollidingRing(hash);
    var r := Added(Added(EMPTY, hash, 1, "a", 1), hash, 1, "b", 1);
    PointsHaveOwners(r);
    RemovedKeepsInv(r, "a");
    FilterNone(NotIn(Elements([0])), r.sorted);
    assert Elements([0]) == {0};
  }

  /** Removing the first of two nodes that share all but one of the second's points. */
  lemma MostPointsGone(hash: string -> nat)
    requires PointsOf(hash, "a", 2) == [0, 1] && PointsOf(hash, "b", 3) == [0, 1, 2]
    ensures var r := Removed(Added(Added(EMPTY, hash, 1, "a", 2), hash, 1, "b", 3), "a");
            && Inv(r) && r.sorted == [2] && r.owner == map[2 := "b"]
            && "b" in r.points && r.points["b"] == [0, 1, 2]
  {
    hide PointsOf, Inv, Added, Filter, Sort, Owning, Elements;
    EmptyInv();
    FreshJoin(EMPTY, hash, "a", 2, [0, 1]);
    var r1 := Added(EMPTY, hash, 1, "a", 2);
    FreshJoin(r1, hash, "b", 3, [0, 1, 2]);
    var r2 := Added(r1, hash, 1, "b", 3);
    RemovedKeepsInv(r2, "a");
    TwoPoints();
    assert [] + [0, 1] == [0, 1];
    OnlyTwoRemains(r1.sorted);
  }

  lemma TwoPoints()
    ensures Elements([0, 1]) == {0, 1}
    ensures forall x :: x in Sort([0, 1]) ==> x in {0, 1}
    ensures Owning(Owning(map[], [0, 1], "a"), [0, 1, 2], "b") - {0, 1} == map[2 := "b"]
  {
    assert forall x :: x in [0, 1, 2] <==> x in {0, 1, 2};
  }

  /** Then the removal of the second panics and leaves its last point without an owner. */
  lemma PanicBreaksTheRing(hash: string -> nat)
    requires PointsOf(hash, "a", 2) == [0, 1] && PointsOf(hash, "b", 3) == [0, 1, 2]
    ensures var r := Removed(Added(Added(EMPTY, hash, 1, "a", 2), hash, 1, "b", 3), "a");
            Inv(r) && Removing(r, "b").Panicked? && !Inv(Removing(r, "b").ring)
  {
    hide PointsOf, Inv, Added, Removed;
    MostPointsGone(hash);
    var r := Removed(Added(Added(EMPTY, hash, 1, "a", 2), hash, 1, "b", 3), "a");
    assert Elements([0, 1, 2]) == {0, 1, 2};
    HalfRemovedKeepsInvIff(r, "b");
    assert 2 in r.points["b"] && 2 in r.owner;
  }

  lemma OnlyTwoRemains(s: seq<nat>)
    requires forall x :: x in s ==> x in {0, 1}
    ensures Filter(NotIn({0, 1}), Sort(s + [0, 1, 2])) == [2]
  {
    hide Filter;
    var p := NotIn({0, 1});
    FilterSort(p, s + [0, 1, 2]);
    FilterConcat(p, s, [0, 1, 2]);
    FilterNone(p, s);
    FilterConcat(p, [0, 1], [2]);
    FilterNone(p, [0, 1]);
    FilterAll(p, [2]);
    assert [0, 1] + [2] == [0, 1, 2] && [] + [2] == [2] && [] + ([] + [2]) == [2];
    SortOrdered([2]);
  }

  /** On that ring a query for two nodes walks for ever. */
  lemma SharedPointQueryNeverEnds(hash: string -> nat, h: nat, k: nat)
    requires hash(VirtualNode("a", 0)) == 0 == hash(VirtualNode("b", 0))
    ensures var r := Added(Added(EMPTY, hash, 1, "a", 1), hash, 1, "b", 1);
            && Inv(r) && r.sorted != []
            && Min(2, |r.weights|) == 2 && |Holders(r)| == 1 && |Seen(r, h, k)| < Min(2, |r.weights|)
  {
    hide VirtualNode, Filter, Added, Inv, Seen;
    CollidingRing(hash);
    var r := Added(Added(EMPTY, hash, 1, "a", 1), hash, 1, "b", 1);
    assert |r.weights| == |r.weights.Keys| == |{"a", "b"}|;
    assert OwnsAPoint(r, "b") && !OwnsAPoint(r, "a") by {
      assert r.owner[0] == "b";
    }
    assert Holders(r) == {"b"};
    GetNEndsIff(r, h, 2);
  }
}

/** The ring of cache/consthash.go, updated in place. */
module ConsistentHashing {
  import opened Filters
  import opened Rings

  const DEFAULT_REPLICAS: nat := 100

  class ConsistentHash {
    const hashFunc: string -> nat
    const replicas: nat
    var sortedHashes: seq<nat>
    var hashMap: map<nat, string>
    var weights: map<string, int>
    var nodeHashes: map<string, seq<nat>>

    ghost function State(): (r: Ring)
      reads this
    {
      Ring(sortedHashes, hashMap, weights, nodeHashes)
    }

    ghost predicate Valid()
      reads this
    {
      Inv(State())
    }

    constructor (replicas: int, fn: string -> nat)
      ensures Valid() && State() == EMPTY && hashFunc == fn
      ensures this.replicas == if replicas <= 0 then DEFAULT_REPLICAS else replicas
    {
      hashFunc := fn;
      this.replicas := if replicas <= 0 then DEFAULT_REPLICAS else replicas;
      sortedHashes, hashMap, weights, nodeHashes := [], map[], map[], map[];
    }

    /** False means that the call panicked: an earlier registration could not be removed. */
    method Add(node: string, weight: int) returns (ok: bool)
      requires Valid()
      modifies this
      ensures ok <==> (node in old(weights) ==> Removable(old(State()), node))
      ensures State() == Adding(old(State()), hashFunc, replicas, node, weight).ring
      ensures ok ==> Valid() && State() == Added(old(State()), hashFunc, replicas, node, weight)
    {
      AddedKeepsInv(State(), hashFunc, replicas, node, weight);
      hide Inv, Sort, Filter, PointsOf, Weight, Owning, Removed, Removable, HalfRemoved;
      var w := Weight(weight);
      if node in weights {
        var removed := Remove(node);
        if !removed {
          return false;
        }
      }
      weights := weights[node := w];
      var hashes;
      hashes, sortedHashes, hashMap := PlacePoints(hashFunc, node, Scaled(replicas, w), sortedHashes, hashMap);
      nodeHashes := nodeHashes[node := hashes];
      sortedHashes := Sort(sortedHashes);
      return true;
    }

    /** False means that the call panicked: the ring has fewer points than the node has different ones. */
    method Remove(node: string) returns (ok: bool)
      requires Valid()
      modifies this
      ensures ok <==> Removable(old(State()), node)
      ensures State() == Removing(old(State()), node).ring
      ensures ok ==> Valid() && State() == Removed(old(State()), node)
    {
      RemovedKeepsInv(State(), node);
      hide Inv, Filter;
      if node !in nodeHashes {
        return true;
      }
      var hashes := nodeHashes[node];
      hashMap := DropOwners(hashMap, hashes);
      var hashSet := CollectSet(hashes);
      if |sortedHashes| - |hashSet| < 0 {
        return false;
      }
      sortedHashes := KeepOthers(sortedHashes, hashSet);
      weights := weights - {node};
      nodeHashes := nodeHashes - {node};
      return true;
    }

    /** Binary search for the first point at or after a hash, wrapping to the start. */
    method Search(hash: nat) returns (idx: nat)
      requires Valid()
      ensures sortedHashes == [] ==> idx == 0
      ensures sortedHashes != [] ==>
                idx < |sortedHashes| && sortedHashes[idx..] + sortedHashes[..idx] == Clockwise(sortedHashes, hash)
    {
      hide Clockwise;
      if |sortedHashes| == 0 {
        return 0;
      }
      var i := LowerBound(sortedHashes, hash);
      idx := if i == |sortedHashes| then 0 else i;
      ClockwiseSplit(sortedHashes, hash, i);
      assert sortedHashes[|sortedHashes|..] == [];
    }

    method Get(key: string) returns (node: string)
      requires Valid()
      ensures node == Primary(State(), hashFunc(key))
    {
      if |sortedHashes| == 0 {
        return "";
      }
      var hash := hashFunc(key);
      var idx := Search(hash);
      return OwnerOf(hashMap, sortedHashes[idx]);
    }

    /** Collects distinct owners clockwise; it can only be waited for when enough nodes own points. */
    method GetN(key: string, count: nat) returns (result: seq<string>)
      requires Valid()
      requires sortedHashes != [] ==> Min(count, |weights|) <= |Holders(State())|
      ensures result == Replicas(State(), hashFunc(key), count)
    {
      hide Inv, Clockwise, Dedup, Owners;
      if |sortedHashes| == 0 {
        NothingToCollect(State(), hashFunc(key));
        return [];
      }
      PreferenceIsOwners(State(), hashFunc(key));
      if |weights| <= 0 {
        return [];
      }
      var hash := hashFunc(key);
      var idx := Search(hash);
      result := CollectDistinct(sortedHashes, hashMap, idx, count, |weights|);
    }

    method GetNodes() returns (nodes: set<string>)
      ensures nodes == State().weights.Keys
    {
      nodes := weights.Keys;
    }
  }

  /** The binary search itself. */
  method LowerBound(sorted: seq<nat>, hash: nat) returns (i: nat)
    requires Ordered(sorted)
    ensures i <= |sorted|
    ensures forall k :: 0 <= k < i ==> sorted[k] < hash
    ensures forall k :: i <= k < |sorted| ==> sorted[k] >= hash
  {
    i := 0;
    var j := |sorted|;
    while i < j
      invariant 0 <= i <= j <= |sorted|
      invariant forall k :: 0 <= k < i ==> sorted[k] < hash
      invariant forall k :: j <= k < |sorted| ==> sorted[k] >= hash
    {
      var mid := (i + j) / 2;
      if sorted[mid] >= hash {
        j := mid;
      } else {
        i := mid + 1;
      }
    }
  }

  function Scaled(a: nat, w: int): (n: nat)
    requires w >= 1
    ensures n == a * w
  {
    a * w
  }

  lemma PointsGrow(fn: string -> nat, node: string, i: nat)
    ensures PointsOf(fn, node, i + 1) == PointsOf(fn, node, i) + [fn(VirtualNode(node, i))]
    ensures PointsOf(fn, node, 0) == []
  {
    hide VirtualNode;
  }

  lemma OwningGrows(owner: map<nat, string>, pts: seq<nat>, x: nat, node: string)
    ensures Owning(owner, pts + [x], node) == Owning(owner, pts, node)[x := node]
    ensures Owning(owner, [], node) == owner
  {
    OwningIs(owner, pts + [x], node);
    OwningIs(owner, pts, node);
    OwningIs(owner, [], node);
    hide Owning;
  }

  lemma OwningIs(owner: map<nat, string>, pts: seq<nat>, node: string)
    ensures forall y :: y in Owning(owner, pts, node) <==> y in owner || y in pts
    ensures forall y :: y in Owning(owner, pts, node) ==>
              Owning(owner, pts, node)[y] == if y in pts then node else owner[y]
  {
  }

  /** The loop of Add: hash the virtual nodes one by one. */
  method PlacePoints(fn: string -> nat, node: string, n: nat, sorted: seq<nat>, owner: map<nat, string>)
    returns (hashes: seq<nat>, sorted': seq<nat>, owner': map<nat, string>)
    ensures hashes == PointsOf(fn, node, n)
    ensures sorted' == sorted + hashes && owner' == Owning(owner, hashes, node)
  {
    hide PointsOf, Owning, VirtualNode;
    hashes, sorted', owner' := [], sorted, owner;
    PointsGrow(fn, node, 0);
    OwningGrows(owner, [], 0, node);
    for i := 0 to n
      invariant hashes == PointsOf(fn, node, i)
      invariant sorted' == sorted + hashes && owner' == Owning(owner, hashes, node)
    {
      var hash := fn(VirtualNode(node, i));
      PointsGrow(fn, node, i);
      OwningGrows(owner, hashes, hash, node);
      sorted' := sorted' + [hash];
      owner' := owner'[hash := node];
      hashes := hashes + [hash];
    }
  }

  /** The first loop of Remove. */
  method DropOwners(owner: map<nat, string>, hashes: seq<nat>) returns (owner': map<nat, string>)
    ensures owner' == owner - Elements(hashes)
  {
    owner' := owner;
    for i := 0 to |hashes|
      invariant owner' == owner - Elements(hashes[..i])
    {
      owner' := owner' - {hashes[i]};
    }
    assert hashes[..|hashes|] == hashes;
  }

  /** The second loop of Remove. */
  method CollectSet(hashes: seq<nat>) returns (s: set<nat>)
    ensures s == Elements(hashes)
  {
    s := {};
    for i := 0 to |hashes|
      invariant s == Elements(hashes[..i])
    {
      s := s + {hashes[i]};
    }
    assert hashes[..|hashes|] == hashes;
  }

  /** The third loop of Remove. */
  method KeepOthers(sorted: seq<nat>, hashSet: set<nat>) returns (kept: seq<nat>)
    ensures kept == Filter(NotIn(hashSet), sorted)
  {
    kept := [];
    for i := 0 to |sorted|
      invariant kept == Filter(NotIn(hashSet), sorted[..i])
    {
      FilterSnoc(NotIn(hashSet), sorted[..i], sorted[i]);
      assert sorted[..i + 1] == sorted[..i] + [sorted[i]];
      if sorted[i] !in hashSet {
        kept := kept + [sorted[i]];
      }
    }
    assert sorted[..|sorted|] == sorted;
  }

  lemma {:induction false} DedupPrefix<T(!new)>(s: seq<T>, k: nat)
    requires k <= |s|
    ensures Dedup(s[..k]) <= Dedup(s)
    decreases |s| - k
  {
    hide Dedup;
    if k == |s| {
      assert s[..k] == s;
    } else {
      DedupPrefix(s, k + 1);
      assert s[..k + 1] == s[..k] + [s[k]];
      DedupSnoc(s[..k], s[k]);
    }
  }

  /** The index met after k steps from start, within one turn. */
  function After(start: nat, k: nat, n: nat): (i: nat)
    requires start < n && k <= n
    ensures i < n
  {
    if start + k < n then start + k else start + k - n
  }

  lemma RotationAt(sorted: seq<nat>, start: nat, k: nat)
    requires start < |sorted| && k < |sorted|
    ensures sorted[After(start, k, |sorted|)] == (sorted[start..] + sorted[..start])[k]
    ensures (After(start, k, |sorted|) + 1) % |sorted| == After(start, k + 1, |sorted|)
    ensures After(start, 0, |sorted|) == start
  {
    Wrap(After(start, k, |sorted|), |sorted|);
  }

  lemma Wrap(i: nat, n: nat)
    requires i < n
    ensures (i + 1) % n == if i + 1 == n then 0 else i + 1
  {
  }

  /** The loop of GetN, once round the ring at most. */
  method CollectDistinct(sorted: seq<nat>, owner: map<nat, string>, start: nat, count: nat, nodes: nat)
    returns (result: seq<string>)
    requires start < |sorted|
    requires Min(count, nodes) <= |Dedup(Owners(owner, sorted[start..] + sorted[..start]))|
    ensures result == Dedup(Owners(owner, sorted[start..] + sorted[..start]))[..Min(count, nodes)]
  {
    hide Dedup, Owners, After;
    ghost var c := sorted[start..] + sorted[..start];
    ghost var all := Owners(owner, c);
    ghost var k := 0;
    var idx := start;
    result := [];
    DedupNothing(all);
    RotationAt(sorted, start, 0);
    while |result| < count && |result| < nodes
      invariant 0 <= k <= |c| && 0 <= idx < |sorted| && idx == After(start, k, |sorted|)
      invariant result == Dedup(all[..k]) && |result| <= Min(count, nodes)
      decreases |c| - k
    {
      assert all[..|c|] == all;
      if idx >= |sorted| {
        idx := 0;
      }
      var node := OwnerOf(owner, sorted[idx]);
      RotationAt(sorted, start, k);
      AllGrows(all, k);
      if node !in result {
        result := result + [node];
      }
      idx := (idx + 1) % |sorted|;
      k := k + 1;
    }
    DedupPrefix(all, k);
  }

  lemma AllGrows<T(!new)>(all: seq<T>, k: nat)
    requires k < |all|
    ensures Dedup(all[..k + 1]) == if all[k] in Dedup(all[..k]) then Dedup(all[..k]) else Dedup(all[..k]) + [all[k]]
  {
    assert all[..k + 1] == all[..k] + [all[k]];
    DedupSnoc(all[..k], all[k]);
  }

  lemma ClockwiseSplit(sorted: seq<nat>, h: nat, i: nat)
    requires i <= |sorted|
    requires forall k :: 0 <= k < i ==> sorted[k] < h
    requires forall k :: i <= k < |sorted| ==> sorted[k] >= h
    ensures Clockwise(sorted, h) == sorted[i..] + sorted[..i]
  {
    hide Filter;
    var low: seq<nat>, high: seq<nat> := sorted[..i], sorted[i..];
    assert sorted == low + high;
    assert forall x :: x in low ==> x < h;
    assert forall x :: x in high ==> x >= h;
    FilterConcat(AtLeast(h), low, high);
    FilterConcat(Below(h), low, high);
    FilterNone(AtLeast(h), low);
    FilterAll(AtLeast(h), high);
    FilterAll(Below(h), low);
    FilterNone(Below(h), high);
    assert [] + high == high && low + [] == low;
  }
}
