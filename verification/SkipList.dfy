/**
 The geometry of a skip list as two sequences, the keys and the tower heights.
 Position 0 is the head and its key plays no role. The link at level l out of
 position i leads to the next position to the right whose tower is taller than l.
 */
module Towers {
  import opened KeyOrder
  import opened Sequences

  const MAX_LEVEL: nat := 32

  function Max(a: nat, b: nat): (r: nat)
  {
    if a > b then a else b
  }

  /** Position n is where the level-l link out of position i must lead. */
  ghost predicate IsNext(hs: seq<nat>, i: nat, l: nat, n: nat)
  {
    && i < n <= |hs|
    && (forall j :: i < j < n ==> hs[j] <= l)
    && (n < |hs| ==> hs[n] > l)
  }

  lemma {:induction false} NextExists(hs: seq<nat>, i: nat, l: nat)
    requires i < |hs|
    ensures exists n :: IsNext(hs, i, l, n)
    decreases |hs| - i
  {
    if i + 1 == |hs| || hs[i + 1] > l {
      assert IsNext(hs, i, l, i + 1);
    } else {
      NextExists(hs, i + 1, l);
      var n :| IsNext(hs, i + 1, l, n);
      assert IsNext(hs, i, l, n);
    }
  }

  ghost function Next(hs: seq<nat>, i: nat, l: nat): (n: nat)
    requires i < |hs|
    ensures IsNext(hs, i, l, n)
  {
    NextExists(hs, i, l);
    var n :| IsNext(hs, i, l, n);
    n
  }

  lemma NextIs(hs: seq<nat>, i: nat, l: nat, n: nat)
    requires IsNext(hs, i, l, n)
    ensures Next(hs, i, l) == n
  {
    var m := Next(hs, i, l);
    assert m < |hs| ==> hs[m] > l;
  }

  /** Where links point once a tower of height h stands at position p. */
  lemma NextAfterInsert(hs: seq<nat>, p: nat, h: nat, i: nat, l: nat)
    requires 1 <= p <= |hs| && i < |hs|
    ensures var n := Next(hs, i, l);
            var hs' := Insert<nat>(hs, p, h);
            if p <= i then Next(hs', i + 1, l) == n + 1
            else if n < p then Next(hs', i, l) == n
            else if l < h then Next(hs', i, l) == p && Next(hs', p, l) == n + 1
            else Next(hs', i, l) == n + 1
  {
    var n := Next(hs, i, l);
    var hs' := Insert<nat>(hs, p, h);
    if p <= i {
      NextIs(hs', i + 1, l, n + 1);
    } else if n < p {
      NextIs(hs', i, l, n);
    } else if l < h {
      NextIs(hs', i, l, p);
      NextIs(hs', p, l, n + 1);
    } else {
      NextIs(hs', i, l, n + 1);
    }
  }

  /** Where links point once the tower at position p is gone. */
  lemma NextAfterDrop(hs: seq<nat>, p: nat, i: nat, l: nat)
    requires 1 <= p < |hs| && i < |hs| && i != p
    ensures var n := Next(hs, i, l);
            var hs' := Drop(hs, p);
            if p < i then Next(hs', i - 1, l) == n - 1
            else if n < p then Next(hs', i, l) == n
            else if n == p then Next(hs', i, l) == Next(hs, p, l) - 1
            else Next(hs', i, l) == n - 1
  {
    var n := Next(hs, i, l);
    var hs' := Drop(hs, p);
    if p < i {
      NextIs(hs', i - 1, l, n - 1);
    } else if n < p {
      NextIs(hs', i, l, n);
    } else if n == p {
      NextIs(hs', i, l, Next(hs, p, l) - 1);
    } else {
      NextIs(hs', i, l, n - 1);
    }
  }

  ghost predicate Ascending(keys: seq<string>)
  {
    forall i, j :: 1 <= i < j < |keys| ==> Less(keys[i], keys[j])
  }

  /** Gap p separates the keys below the given one from the others. */
  ghost predicate Gap(keys: seq<string>, key: string, p: nat)
  {
    && 1 <= p <= |keys|
    && (p == 1 || Less(keys[p - 1], key))
    && (p == |keys| || !Less(keys[p], key))
  }

  lemma GapSplits(keys: seq<string>, key: string, p: nat, i: nat)
    requires Ascending(keys) && Gap(keys, key, p) && 1 <= i < |keys|
    ensures i < p <==> Less(keys[i], key)
    ensures p <= i && keys[p] != key ==> Less(key, keys[i])
    ensures p < i ==> Less(key, keys[i])
  {
    if i < p - 1 {
      LessIsTransitive(keys[i], keys[p - 1], key);
    } else if p <= i {
      LessIsTotal(keys[p], key);
      if p < i && keys[p] != key {
        LessIsTransitive(key, keys[p], keys[i]);
      }
      if p < i {
        LessIsAsymmetric(key, keys[i]);
      }
    }
  }

  /** A key is among the entries exactly when it sits right of its gap. */
  lemma GapFinds(keys: seq<string>, key: string, p: nat)
    requires Ascending(keys) && Gap(keys, key, p)
    ensures (exists i :: 1 <= i < |keys| && keys[i] == key) <==> p < |keys| && keys[p] == key
  {
    forall i | 1 <= i < |keys| && keys[i] == key
      ensures i == p
    {
      GapSplits(keys, key, p, i);
      LessIsIrreflexive(key);
    }
  }

  lemma InsertAscends<V>(keys: seq<string>, model: map<string, V>, key: string, p: nat)
    requires Ascending(keys) && Gap(keys, key, p)
    requires Domain(keys, model) && key !in model
    ensures Ascending(Insert(keys, p, key))
  {
    forall i | 1 <= i < |keys|
      ensures if i < p then Less(keys[i], key) else Less(key, keys[i])
    {
      GapSplits(keys, key, p, i);
    }
  }

  /** Position n is the last one below the key on level l. */
  ghost predicate PredAt(keys: seq<string>, hs: seq<nat>, key: string, l: nat, n: nat)
    requires |keys| == |hs|
  {
    && n < |hs| && hs[n] > l
    && (n == 0 || Less(keys[n], key))
    && (Next(hs, n, l) < |hs| ==> !Less(keys[Next(hs, n, l)], key))
  }

  /** The level-l link out of position n crosses gap p. */
  ghost predicate CrossedBy(hs: seq<nat>, p: nat, l: nat, n: nat)
  {
    n < p && n < |hs| && hs[n] > l && p <= Next(hs, n, l)
  }

  lemma {:induction false} SomeLinkCrosses(hs: seq<nat>, p: nat, l: nat)
    requires 1 <= p <= |hs| && hs[0] > l
    ensures exists n :: CrossedBy(hs, p, l, n)
  {
    if hs[p - 1] > l {
      assert CrossedBy(hs, p, l, p - 1);
    } else {
      SomeLinkCrosses(hs, p - 1, l);
      var n :| CrossedBy(hs, p - 1, l, n);
      assert CrossedBy(hs, p, l, n);
    }
  }

  /** The position whose level-l link crosses gap p. */
  ghost function Prev(hs: seq<nat>, p: nat, l: nat): (n: nat)
    requires 1 <= p <= |hs| && hs[0] > l
    ensures CrossedBy(hs, p, l, n)
  {
    SomeLinkCrosses(hs, p, l);
    var n :| CrossedBy(hs, p, l, n);
    n
  }

  lemma PrevIs(hs: seq<nat>, p: nat, l: nat, n: nat)
    requires 1 <= p <= |hs| && hs[0] > l && CrossedBy(hs, p, l, n)
    ensures Prev(hs, p, l) == n
  {
    var m := Prev(hs, p, l);
    assert IsNext(hs, m, l, Next(hs, m, l)) && IsNext(hs, n, l, Next(hs, n, l));
  }

  /** The predecessors of all levels lie left of the one gap. */
  lemma PredsMeetGap(keys: seq<string>, hs: seq<nat>, key: string, l: nat, n: nat, p: nat)
    requires |keys| == |hs| && Ascending(keys)
    requires PredAt(keys, hs, key, l, n) && Gap(keys, key, p) && hs[0] > l
    ensures n == Prev(hs, p, l)
  {
    if n >= 1 {
      GapSplits(keys, key, p, n);
    }
    if Next(hs, n, l) < |hs| {
      GapSplits(keys, key, p, Next(hs, n, l));
    }
    PrevIs(hs, p, l, n);
  }

  lemma BottomPredIsGap(keys: seq<string>, hs: seq<nat>, key: string, n: nat)
    requires |keys| == |hs| && PredAt(keys, hs, key, 0, n)
    requires forall i :: 0 <= i < |hs| ==> 1 <= hs[i]
    ensures Gap(keys, key, n + 1) && Next(hs, n, 0) == n + 1
  {
    NextIs(hs, n, 0, n + 1);
  }

  ghost predicate Bounded(hs: seq<nat>, level: nat)
  {
    && |hs| >= 1 && hs[0] == MAX_LEVEL
    && (forall i :: 0 <= i < |hs| ==> 1 <= hs[i] <= MAX_LEVEL)
    && 1 <= level <= MAX_LEVEL
    && (forall i :: 1 <= i < |hs| ==> hs[i] <= level)
  }

  /** The list level is exactly the tallest tower, or 1. */
  ghost predicate Heights(hs: seq<nat>, level: nat)
  {
    Bounded(hs, level) && (level == 1 || exists i :: 1 <= i < |hs| && hs[i] == level)
  }

  lemma InsertHeights(hs: seq<nat>, level: nat, h: nat, p: nat)
    requires Heights(hs, level) && 1 <= h <= MAX_LEVEL && 1 <= p <= |hs|
    ensures Heights(Insert<nat>(hs, p, h), Max(h, level))
  {
    var hs' := Insert<nat>(hs, p, h);
    assert hs'[p] == h;
    if h <= level && level != 1 {
      var i :| 1 <= i < |hs| && hs[i] == level;
      assert hs'[if i < p then i else i + 1] == level;
    }
  }

  /** The keys behind the head are the domain of the map, each once. */
  ghost predicate Domain<V>(keys: seq<string>, model: map<string, V>)
  {
    && |model| == |keys| - 1
    && (forall i :: 1 <= i < |keys| ==> keys[i] in model)
    && (forall k :: k in model ==> exists i :: 1 <= i < |keys| && keys[i] == k)
  }

  lemma InsertDomain<V>(keys: seq<string>, model: map<string, V>, key: string, value: V, p: nat)
    requires Domain(keys, model) && key !in model && 1 <= p <= |keys|
    ensures Domain(Insert(keys, p, key), model[key := value])
  {
    var keys' := Insert(keys, p, key);
    assert keys'[p] == key;
    forall k | k in model
      ensures exists i :: 1 <= i < |keys'| && keys'[i] == k
    {
      var i :| 1 <= i < |keys| && keys[i] == k;
      assert keys'[if i < p then i else i + 1] == k;
    }
  }

  lemma OverwriteDomain<V>(keys: seq<string>, model: map<string, V>, p: nat, value: V)
    requires Domain(keys, model) && 1 <= p < |keys|
    ensures Domain(keys, model[keys[p] := value]) && |model[keys[p] := value]| == |model|
  {
    assert model[keys[p] := value].Keys == model.Keys;
  }

  lemma DropHeights(hs: seq<nat>, level: nat, p: nat)
    requires Heights(hs, level) && 1 <= p < |hs|
    ensures Bounded(Drop(hs, p), level)
  {
  }

  lemma DropAscends(keys: seq<string>, p: nat)
    requires Ascending(keys) && 1 <= p < |keys|
    ensures Ascending(Drop(keys, p))
  {
  }

  lemma OthersDiffer(keys: seq<string>, p: nat)
    requires Ascending(keys) && 1 <= p < |keys|
    ensures forall i :: 1 <= i < |keys| && i != p ==> keys[i] != keys[p]
  {
    LessIsIrreflexive(keys[p]);
  }

  lemma DropDomain<V>(keys: seq<string>, model: map<string, V>, p: nat)
    requires Domain(keys, model) && 1 <= p < |keys|
    requires forall i :: 1 <= i < |keys| && i != p ==> keys[i] != keys[p]
    ensures Domain(Drop(keys, p), model - {keys[p]})
  {
    var keys' := Drop(keys, p);
    assert (model - {keys[p]}).Keys == model.Keys - {keys[p]};
    forall k | k in model - {keys[p]}
      ensures exists i :: 1 <= i < |keys'| && keys'[i] == k
    {
      var i :| 1 <= i < |keys| && keys[i] == k;
      assert keys'[if i < p then i else i - 1] == k;
    }
  }
}

/**
 The state of a skip list as a value: the nodes with the head first, their keys,
 tower heights and forward slices, and the finite map the list stands for.
 */
module SkipListViews {
  import opened Wrappers
  import opened KeyOrder
  import opened Sequences
  import opened Towers

  class SkipNode<V> {
    const key: string
    var value: Option<V>                 // None only in the head
    var forward: seq<SkipNode?<V>>

    constructor (key: string, value: Option<V>, height: nat)
      ensures this.key == key && this.value == value
      ensures forward == seq(height, i => null)
    {
      this.key, this.value := key, value;
      forward := seq(height, i => null);
    }
  }

  type Links<V> = seq<SkipNode?<V>>

  ghost function At<V>(nodes: seq<SkipNode<V>>, n: nat): (r: SkipNode?<V>)
  {
    if n < |nodes| then nodes[n] else null
  }

  /** Level-l links join exactly the nodes taller than l, in order. */
  ghost predicate Linked<V>(nodes: seq<SkipNode<V>>, hs: seq<nat>, fw: seq<Links<V>>)
  {
    && |nodes| == |hs| == |fw|
    && (forall i :: 0 <= i < |fw| ==> |fw[i]| == hs[i])
    && (forall i, l :: 0 <= i < |fw| && 0 <= l < hs[i] ==> fw[i][l] == At(nodes, Next(hs, i, l)))
  }

  datatype View<V> = View(nodes: seq<SkipNode<V>>, keys: seq<string>, hs: seq<nat>, fw: seq<Links<V>>,
                          model: map<string, V>)
  {
    ghost predicate Wf(level: nat)
    {
      && |nodes| == |keys| == |hs| == |fw|
      && Distinct(nodes) && Ascending(keys)
      && Heights(hs, level) && Linked(nodes, hs, fw) && Domain(keys, model)
    }

    /** Well-formed up to a level that may still be too high. */
    ghost predicate WfBelow(level: nat)
    {
      && |nodes| == |keys| == |hs| == |fw|
      && Distinct(nodes) && Ascending(keys)
      && Bounded(hs, level) && Linked(nodes, hs, fw) && Domain(keys, model)
    }

    /** The heap holds this view. */
    ghost predicate Shown()
      reads nodes
    {
      && |nodes| == |keys| == |fw|
      && (forall i :: 0 <= i < |nodes| ==> nodes[i].key == keys[i] && nodes[i].forward == fw[i])
      && (forall i :: 1 <= i < |nodes| ==> keys[i] in model && nodes[i].value == Some(model[keys[i]]))
    }
  }

  // ---------- insertion ----------

  /** The links with a node of height |nf| threaded through gap p, up to level m. */
  ghost predicate SplicedTo<V>(v: View<V>, p: nat, node: SkipNode<V>, nf: Links<V>, fw: seq<Links<V>>, m: nat)
  {
    && 1 <= p <= |v.hs| == |v.nodes| == |fw| && m <= |nf| <= v.hs[0]
    && (forall i :: 0 <= i < |fw| ==> |fw[i]| == v.hs[i] <= v.hs[0])
    && (forall l :: 0 <= l < m ==> nf[l] == At(v.nodes, Next(v.hs, Prev(v.hs, p, l), l)))
    && (forall i, l :: 0 <= i < |fw| && 0 <= l < v.hs[i] ==>
          fw[i][l] == if l < m && i == Prev(v.hs, p, l) then node else At(v.nodes, Next(v.hs, i, l)))
  }

  lemma SpliceStart<V>(v: View<V>, level: nat, key: string, p: nat, node: SkipNode<V>, nf: Links<V>)
    requires v.Wf(level) && Gap(v.keys, key, p) && |nf| <= MAX_LEVEL
    ensures SplicedTo(v, p, node, nf, v.fw, 0)
  {
  }

  lemma SpliceStep<V>(v: View<V>, p: nat, node: SkipNode<V>, nf: Links<V>, fw: seq<Links<V>>, m: nat)
    requires SplicedTo(v, p, node, nf, fw, m) && m < |nf|
    ensures var b := Prev(v.hs, p, m);
            && b < |fw| && m < |fw[b]|
            && SplicedTo(v, p, node, nf[m := fw[b][m]], fw[b := fw[b][m := node]], m + 1)
  {
  }

  /** The link out of one position, in the longer sequence and in terms of the shorter one. */
  lemma InsertLink<V>(nodes: seq<SkipNode<V>>, hs: seq<nat>, node: SkipNode<V>, h: nat, p: nat, j: nat, l: nat)
    requires |nodes| == |hs| && 1 <= p <= |hs| && j < |hs| && hs[0] > l
    ensures var ns, hs' := Insert(nodes, p, node), Insert<nat>(hs, p, h);
            && (l < h ==> At(ns, Next(hs', p, l)) == At(nodes, Next(hs, Prev(hs, p, l), l)))
            && (hs[j] > l ==>
                  At(ns, Next(hs', if j < p then j else j + 1, l)) ==
                  if l < h && j == Prev(hs, p, l) then node else At(nodes, Next(hs, j, l)))
  {
    if l < h {
      NextAfterInsert(hs, p, h, Prev(hs, p, l), l);
    }
    NextAfterInsert(hs, p, h, j, l);
    if hs[j] > l && CrossedBy(hs, p, l, j) {
      PrevIs(hs, p, l, j);
    }
  }

  lemma InsertLinked<V>(v: View<V>, p: nat, node: SkipNode<V>, nf: Links<V>, fw: seq<Links<V>>)
    requires SplicedTo(v, p, node, nf, fw, |nf|)
    ensures Linked(Insert(v.nodes, p, node), Insert<nat>(v.hs, p, |nf|), Insert(fw, p, nf))
  {
    hide IsNext, CrossedBy;
    var ns, hs', fw' := Insert(v.nodes, p, node), Insert<nat>(v.hs, p, |nf|), Insert(fw, p, nf);
    forall i, l | 0 <= i < |ns| && 0 <= l < hs'[i]
      ensures fw'[i][l] == At(ns, Next(hs', i, l))
    {
      if i == p {
        InsertLink(v.nodes, v.hs, node, |nf|, p, 0, l);
      } else {
        var j := if i < p then i else i - 1;
        assert fw'[i] == fw[j] && hs'[i] == v.hs[j];
        InsertLink(v.nodes, v.hs, node, |nf|, p, j, l);
      }
    }
  }

  ghost function Inserting<V>(v: View<V>, p: nat, node: SkipNode<V>, value: V, nf: Links<V>, fw: seq<Links<V>>)
    : (r: View<V>)
    requires p <= |v.nodes| == |v.keys| == |v.hs| == |fw|
  {
    View(Insert(v.nodes, p, node), Insert(v.keys, p, node.key), Insert<nat>(v.hs, p, |nf|), Insert(fw, p, nf),
         v.model[node.key := value])
  }

  lemma InsertShown<V>(v: View<V>, p: nat, node: SkipNode<V>, value: V, fw: seq<Links<V>>)
    requires v.(fw := fw).Shown() && 1 <= p <= |v.nodes| == |v.hs|
    requires node.key !in v.model && node.value == Some(value)
    ensures Inserting(v, p, node, value, node.forward, fw).Shown()
    ensures Inserting(v, p, node, value, node.forward, fw).nodes[0] == v.nodes[0]
    ensures |Inserting(v, p, node, value, node.forward, fw).model| == |v.model| + 1
  {
    assert v.model[node.key := value].Keys == v.model.Keys + {node.key};
  }

  /** Splicing a fresh node in at its gap gives a well-formed view again. */
  lemma InsertKeepsWf<V>(v: View<V>, level: nat, p: nat, node: SkipNode<V>, value: V, nf: Links<V>, fw: seq<Links<V>>)
    requires v.Wf(level) && Gap(v.keys, node.key, p) && node.key !in v.model && node !in v.nodes
    requires 1 <= |nf| <= MAX_LEVEL && |fw| == |v.nodes| && SplicedTo(v, p, node, nf, fw, |nf|)
    ensures Inserting(v, p, node, value, nf, fw).Wf(Max(|nf|, level))
    ensures forall n :: n in Inserting(v, p, node, value, nf, fw).nodes ==> n in v.nodes || n == node
  {
    hide Linked, SplicedTo, Ascending, Heights, Domain, Distinct;
    InsertMembers(v.nodes, p, node);
    InsertLinked(v, p, node, nf, fw);
    InsertAscends(v.keys, v.model, node.key, p);
    InsertHeights(v.hs, level, |nf|, p);
    InsertDomain(v.keys, v.model, node.key, value, p);
  }

  // ---------- deletion ----------

  /** The links with the node at position p bypassed up to level m. */
  ghost predicate BypassedTo<V>(v: View<V>, p: nat, fw: seq<Links<V>>, m: nat)
  {
    && 1 <= p < |v.hs| == |v.nodes| == |fw| && m <= v.hs[p]
    && (forall i :: 0 <= i < |fw| ==> |fw[i]| == v.hs[i] <= v.hs[0])
    && (forall i, l :: 0 <= i < |fw| && 0 <= l < v.hs[i] ==>
          fw[i][l] == if l < m && i == Prev(v.hs, p, l) then At(v.nodes, Next(v.hs, p, l))
                      else At(v.nodes, Next(v.hs, i, l)))
  }

  lemma BypassStart<V>(v: View<V>, level: nat, p: nat)
    requires v.Wf(level) && 1 <= p < |v.nodes|
    ensures BypassedTo(v, p, v.fw, 0) && 1 <= v.hs[p] <= level <= v.hs[0] == MAX_LEVEL
  {
  }

  /** The level-m link that crosses position p leads to it exactly below its height. */
  ghost predicate LeadsTo<V>(v: View<V>, p: nat, m: nat)
    requires 1 <= p < |v.hs| == |v.nodes| && m < v.hs[0]
    reads v.nodes
  {
    var b := Prev(v.hs, p, m);
    b < p && m < |v.nodes[b].forward| && (v.nodes[b].forward[m] == v.nodes[p] <==> m < v.hs[p])
  }

  lemma BypassLeads<V>(v: View<V>, level: nat, p: nat, fw: seq<Links<V>>, m: nat)
    requires v.Wf(level) && 1 <= p < |v.hs| == |fw| && BypassedTo(v, p, fw, m) && m < level <= v.hs[0]
    requires v.(fw := fw).Shown()
    ensures LeadsTo(v, p, m)
  {
    hide Ascending, Domain, Heights, Linked;
    var b := Prev(v.hs, p, m);
    if m < v.hs[p] {
      NextIs(v.hs, b, m, p);
    }
  }

  lemma BypassStep<V>(v: View<V>, p: nat, fw: seq<Links<V>>, m: nat)
    requires 1 <= p < |v.hs| == |fw| && BypassedTo(v, p, fw, m) && m < v.hs[p] <= v.hs[0]
    ensures var b := Prev(v.hs, p, m);
            && m < |fw[b]| && m < |fw[p]|
            && BypassedTo(v, p, fw[b := fw[b][m := fw[p][m]]], m + 1)
  {
  }

  lemma DropLinked<V>(v: View<V>, p: nat, fw: seq<Links<V>>)
    requires p < |v.hs| && BypassedTo(v, p, fw, v.hs[p])
    ensures Linked(Drop(v.nodes, p), Drop(v.hs, p), Drop(fw, p))
  {
    hide IsNext;
    var ns, hs', fw' := Drop(v.nodes, p), Drop(v.hs, p), Drop(fw, p);
    forall i, l | 0 <= i < |ns| && 0 <= l < hs'[i]
      ensures fw'[i][l] == At(ns, Next(hs', i, l))
    {
      var j := if i < p then i else i + 1;
      assert fw'[i] == fw[j] && hs'[i] == v.hs[j];
      DropLink(v.nodes, v.hs, p, j, l);
    }
  }

  lemma DropLink<V>(nodes: seq<SkipNode<V>>, hs: seq<nat>, p: nat, j: nat, l: nat)
    requires |nodes| == |hs| && 1 <= p < |hs| && j < |hs| && j != p && hs[0] > l && hs[j] > l
    ensures At(Drop(nodes, p), Next(Drop(hs, p), if j < p then j else j - 1, l)) ==
            if l < hs[p] && j == Prev(hs, p, l) then At(nodes, Next(hs, p, l)) else At(nodes, Next(hs, j, l))
  {
    NextAfterDrop(hs, p, j, l);
    if j < p == Next(hs, j, l) {
      PrevIs(hs, p, l, j);
    }
    if l < hs[p] && j == Prev(hs, p, l) {
      NextIs(hs, j, l, p);
    }
  }

  ghost function Dropping<V>(v: View<V>, p: nat, fw: seq<Links<V>>): (r: View<V>)
    requires p < |v.nodes| == |v.keys| == |v.hs| == |fw|
  {
    View(Drop(v.nodes, p), Drop(v.keys, p), Drop(v.hs, p), Drop(fw, p), v.model - {v.keys[p]})
  }

  lemma DropShown<V>(v: View<V>, level: nat, p: nat, fw: seq<Links<V>>)
    requires v.(fw := fw).Shown() && v.Wf(level) && 1 <= p < |v.nodes|
    ensures Dropping(v, p, fw).Shown()
    ensures Dropping(v, p, fw).nodes[0] == v.nodes[0]
    ensures |Dropping(v, p, fw).model| == |v.model| - 1 && v.nodes[p].key == v.keys[p]
  {
    assert (v.model - {v.keys[p]}).Keys == v.model.Keys - {v.keys[p]};
    hide Linked, Heights, Ascending, Domain, Distinct;
    OthersDiffer(v.keys, p);
  }

  lemma DropKeepsWf<V>(v: View<V>, level: nat, p: nat, fw: seq<Links<V>>)
    requires v.Wf(level) && 1 <= p < |v.nodes| == |fw| && BypassedTo(v, p, fw, v.hs[p])
    ensures Dropping(v, p, fw).WfBelow(level)
    ensures forall n :: n in Dropping(v, p, fw).nodes ==> n in v.nodes
  {
    hide Linked, BypassedTo, Ascending, Heights, Domain, Distinct, Bounded;
    DropMembers(v.nodes, p);
    DropLinked(v, p, fw);
    DropAscends(v.keys, p);
    OthersDiffer(v.keys, p);
    DropDomain(v.keys, v.model, p);
    DropHeights(v.hs, level, p);
  }

  // ---------- iteration ----------

  /** The visitor that never stops. */
  function Always<V>(): (p: (string, V) -> bool)
  {
    (k, v) => true
  }

  predicate InRange(key: string, startKey: string, endKey: string)
  {
    !Less(key, startKey) && (endKey == "" || !Less(endKey, key))
  }

  /** Both ends belong to the range; an empty end key leaves it open. */
  lemma RangeIsInclusive(key: string, startKey: string, endKey: string)
    ensures InRange(key, startKey, endKey) <==>
              (key == startKey || Less(startKey, key)) && (endKey == "" || key == endKey || Less(key, endKey))
  {
    hide Less;
    LessIsTotal(key, startKey);
    LessIsTotal(key, endKey);
    LessIsIrreflexive(key);
    if Less(startKey, key) {
      LessIsAsymmetric(startKey, key);
    }
    if Less(key, endKey) {
      LessIsAsymmetric(key, endKey);
    }
  }

  /**
   What a range query may report: ascending entries of the map inside the range,
   at most limit of them when it is positive, leaving out only keys above the
   reported ones, and those only after the limit or a refusal of the visitor.
   */
  ghost predicate Visited<V>(model: map<string, V>, startKey: string, endKey: string, limit: int,
                             visit: (string, V) -> bool, visited: seq<(string, V)>)
  {
    && (forall i, j :: 0 <= i < j < |visited| ==> Less(visited[i].0, visited[j].0))
    && (forall i :: 0 <= i < |visited| ==>
          && visited[i].0 in model && visited[i].1 == model[visited[i].0]
          && InRange(visited[i].0, startKey, endKey))
    && (limit > 0 ==> |visited| <= limit)
    && (forall i :: 0 <= i < |visited| - 1 ==> visit(visited[i].0, visited[i].1))
    && (forall k :: k in model && InRange(k, startKey, endKey) ==>
          || (exists i :: 0 <= i < |visited| && visited[i].0 == k)
          || (Cut(limit, visit, visited) && forall i :: 0 <= i < |visited| ==> Less(visited[i].0, k)))
  }

  ghost predicate Cut<V>(limit: int, visit: (string, V) -> bool, visited: seq<(string, V)>)
  {
    |visited| > 0 && (|visited| == limit || !visit(visited[|visited| - 1].0, visited[|visited| - 1].1))
  }

  /** The entries from position p on, none above endKey. */
  ghost predicate Window<V>(v: View<V>, p: nat, endKey: string, visited: seq<(string, V)>)
  {
    && 1 <= p && p + |visited| <= |v.keys|
    && (forall i :: 0 <= i < |visited| ==>
          && v.keys[p + i] in v.model && visited[i] == (v.keys[p + i], v.model[v.keys[p + i]])
          && (endKey == "" || !Less(endKey, visited[i].0)))
  }

  lemma WindowStart<V>(v: View<V>, level: nat, p: nat, startKey: string, endKey: string)
    requires v.Wf(level) && Gap(v.keys, startKey, p)
    ensures Window(v, p, endKey, [])
  {
  }

  lemma WindowGrows<V>(v: View<V>, level: nat, p: nat, endKey: string, visited: seq<(string, V)>)
    requires v.Wf(level) && Window(v, p, endKey, visited) && p + |visited| < |v.keys|
    requires endKey == "" || !Less(endKey, v.keys[p + |visited|])
    ensures v.keys[p + |visited|] in v.model
    ensures var k := v.keys[p + |visited|]; Window(v, p, endKey, visited + [(k, v.model[k])])
  {
    hide Linked, Heights, Distinct, Ascending;
  }

  lemma EntryAt<V>(v: View<V>, level: nat, n: nat)
    requires v.Wf(level) && v.Shown() && 1 <= n < |v.nodes|
    ensures v.nodes[n].key == v.keys[n] && v.nodes[n].value == Some(v.model[v.keys[n]])
    ensures |v.nodes[n].forward| > 0 && v.nodes[n].forward[0] == At(v.nodes, n + 1)
  {
    hide Distinct, Ascending, Domain;
    NextIs(v.hs, n, 0, n + 1);
  }

  /** The predecessors of a key on all levels meet the gap behind the lowest of them. */
  lemma LocatedAt<V>(v: View<V>, level: nat, key: string, pos: seq<nat>)
    requires v.Wf(level) && v.Shown() && |pos| == MAX_LEVEL
    requires forall l :: 0 <= l < level ==> PredAt(v.keys, v.hs, key, l, pos[l])
    ensures 1 <= level && pos[0] < |v.nodes| && |v.nodes[pos[0]].forward| > 0
    ensures Gap(v.keys, key, pos[0] + 1) && v.nodes[pos[0]].forward[0] == At(v.nodes, pos[0] + 1)
    ensures forall l :: 0 <= l < level ==> pos[l] == Prev(v.hs, pos[0] + 1, l)
    ensures key in v.model <==> At(v.nodes, pos[0] + 1) != null && v.nodes[pos[0] + 1].key == key
  {
    hide Distinct;
    var p := pos[0] + 1;
    BottomPredIsGap(v.keys, v.hs, key, pos[0]);
    GapFinds(v.keys, key, p);
    hide Linked, Ascending;
    forall l | 0 <= l < level
      ensures pos[l] == Prev(v.hs, p, l)
    {
      PredsMeetGap(v.keys, v.hs, key, l, pos[l], p);
    }
  }

  lemma FirstEntry<V>(v: View<V>, level: nat)
    requires v.Wf(level) && v.Shown()
    ensures |v.nodes| > 0 && |v.nodes[0].forward| > 0 && v.nodes[0].forward[0] == At(v.nodes, 1)
    ensures Gap(v.keys, "", 1)
  {
    hide Distinct, Ascending, Domain;
    NextIs(v.hs, 0, 0, 1);
  }

  lemma WindowIsVisited<V>(v: View<V>, level: nat, p: nat, startKey: string, endKey: string, limit: int,
                           visit: (string, V) -> bool, visited: seq<(string, V)>)
    requires v.Wf(level) && Gap(v.keys, startKey, p) && Window(v, p, endKey, visited)
    requires limit > 0 ==> |visited| <= limit
    requires forall i :: 0 <= i < |visited| - 1 ==> visit(visited[i].0, visited[i].1)
    requires var n := p + |visited|;
             || n == |v.keys|
             || (endKey != "" && Less(endKey, v.keys[n]))
             || Cut(limit, visit, visited)
    ensures Visited(v.model, startKey, endKey, limit, visit, visited)
  {
    hide Linked, Heights, Distinct;
    forall i | 0 <= i < |visited|
      ensures InRange(visited[i].0, startKey, endKey)
    {
      GapSplits(v.keys, startKey, p, p + i);
    }
    forall k | k in v.model && InRange(k, startKey, endKey)
      ensures || (exists i :: 0 <= i < |visited| && visited[i].0 == k)
              || (Cut(limit, visit, visited) && forall i :: 0 <= i < |visited| ==> Less(visited[i].0, k))
    {
      var j :| 1 <= j < |v.keys| && v.keys[j] == k;
      WindowMisses(v, p, startKey, endKey, visited, j);
      assert j < p + |visited| ==> visited[j - p].0 == k;
    }
  }

  /** An entry inside the range is in the window or behind it, and then no key above endKey follows. */
  lemma WindowMisses<V>(v: View<V>, p: nat, startKey: string, endKey: string, visited: seq<(string, V)>, j: nat)
    requires Ascending(v.keys) && Gap(v.keys, startKey, p) && Window(v, p, endKey, visited)
    requires 1 <= j < |v.keys| && InRange(v.keys[j], startKey, endKey)
    ensures p <= j
    ensures p + |visited| <= j ==>
              && !(endKey != "" && Less(endKey, v.keys[p + |visited|]))
              && forall i :: 0 <= i < |visited| ==> Less(visited[i].0, v.keys[j])
  {
    GapSplits(v.keys, startKey, p, j);
    var n := p + |visited|;
    if n < j && endKey != "" && Less(endKey, v.keys[n]) {
      LessIsTransitive(endKey, v.keys[n], v.keys[j]);
    }
  }
}

/** The skip list of cache/skiplist.go: towers of forward pointers spliced in place. */
module SkipLists {
  import opened Wrappers
  import opened KeyOrder
  import opened Sequences
  import opened Towers
  import opened SkipListViews

  class SkipList<V> {
    const head: SkipNode<V>
    var length: nat
    var level: nat
    ghost var view: View<V>

    ghost predicate Valid()
      reads this, view.nodes
    {
      && view.Wf(level) && view.Shown()
      && view.nodes[0] == head && length == |view.model|
    }

    constructor ()
      ensures Valid() && view.model == map[]
      ensures fresh(view.nodes)
    {
      var h := new SkipNode<V>("", None, MAX_LEVEL);
      head := h;
      length, level := 0, 1;
      view := View([h], [""], [MAX_LEVEL], [seq(MAX_LEVEL, i => null)], map[]);
    }

    method RandomLevel() returns (h: nat)
      ensures 1 <= h <= MAX_LEVEL
    {
      h := 1;
      while h < MAX_LEVEL
        invariant 1 <= h <= MAX_LEVEL
      {
        var promoted: bool := *;
        if !promoted {
          break;
        }
        h := h + 1;
      }
    }

    /** The search shared by Set, Get, Delete and Range. */
    method Descend(key: string) returns (update: seq<SkipNode?<V>>, ghost pos: seq<nat>)
      requires Valid()
      ensures |update| == |pos| == MAX_LEVEL
      ensures forall l :: 0 <= l < level ==>
                PredAt(view.keys, view.hs, key, l, pos[l]) && update[l] == view.nodes[pos[l]]
    {
      ghost var nodes, keys, hs := view.nodes, view.keys, view.hs;
      update := seq(MAX_LEVEL, i => null);
      pos := seq(MAX_LEVEL, i => 0);
      var current := head;
      ghost var at: nat := 0;
      var i := level;
      while i > 0
        invariant 0 <= i <= level && |update| == |pos| == MAX_LEVEL
        invariant at < |nodes| && current == nodes[at] && hs[at] >= i
        invariant at == 0 || Less(keys[at], key)
        invariant forall l :: i <= l < level ==> PredAt(keys, hs, key, l, pos[l]) && update[l] == nodes[pos[l]]
      {
        i := i - 1;
        while current.forward[i] != null && Less(current.forward[i].key, key)
          invariant at < |nodes| && current == nodes[at] && hs[at] > i
          invariant at == 0 || Less(keys[at], key)
          decreases |nodes| - at
        {
          at := Next(hs, at, i);
          current := current.forward[i];
        }
        update, pos := update[i := current], pos[i := at];
      }
    }

    /** The search of Set and Delete: the links to change and the first entry not below the key. */
    method Locate(key: string) returns (update: seq<SkipNode?<V>>, current: SkipNode?<V>, ghost p: nat)
      requires Valid()
      ensures |update| == MAX_LEVEL && Gap(view.keys, key, p) && current == At(view.nodes, p)
      ensures forall l :: 0 <= l < level ==> update[l] == view.nodes[Prev(view.hs, p, l)]
      ensures key in view.model <==> current != null && current.key == key
    {
      hide Linked, Heights, Domain, Ascending, Distinct, Gap, Prev, Next, PredAt, View.Wf;
      ghost var pos;
      update, pos := Descend(key);
      LocatedAt(view, level, key, pos);
      p := pos[0] + 1;
      current := update[0].forward[0];
    }

    method Get(key: string) returns (r: Option<V>)
      requires Valid()
      ensures r == if key in view.model then Some(view.model[key]) else None
    {
      var _, current, _ := Locate(key);
      if current != null && current.key == key {
        return current.value;
      }
      return None;
    }

    /** Changes one forward pointer of one node. */
    method Relink(node: SkipNode<V>, i: nat, target: SkipNode?<V>, ghost b: nat, ghost fw: seq<Links<V>>)
      requires Distinct(view.nodes) && b < |view.nodes| && node == view.nodes[b]
      requires view.(fw := fw).Shown() && i < |fw[b]|
      modifies node`forward
      ensures view.(fw := fw[b := fw[b][i := target]]).Shown()
      ensures node.forward == old(node.forward)[i := target]
    {
      node.forward := node.forward[i := target];
    }

    /** Threads a node of height h through the links that cross gap p. */
    method Splice(node: SkipNode<V>, key: string, h: nat, update: seq<SkipNode?<V>>, ghost p: nat)
      returns (ghost fw: seq<Links<V>>)
      requires view.Wf(level) && view.Shown() && Gap(view.keys, key, p) && node !in view.nodes
      requires |node.forward| == h <= |update| == MAX_LEVEL
      requires forall l :: 0 <= l < h ==> update[l] == view.nodes[Prev(view.hs, p, l)]
      modifies view.nodes`forward, node`forward
      ensures |node.forward| == h && SplicedTo(view, p, node, node.forward, fw, h)
      ensures |fw| == |view.nodes| && view.(fw := fw).Shown()
    {
      hide SplicedTo, Heights, Linked, Domain, Ascending, Gap, Next, Prev;
      fw := view.fw;
      SpliceStart(view, level, key, p, node, node.forward);
      for i := 0 to h
        invariant |node.forward| == h && SplicedTo(view, p, node, node.forward, fw, i)
        invariant view.(fw := fw).Shown()
      {
        var before := update[i];
        SpliceStep(view, p, node, node.forward, fw, i);
        ghost var b := Prev(view.hs, p, i);
        node.forward := node.forward[i := before.forward[i]];
        Relink(before, i, node, b, fw);
        fw := fw[b := fw[b][i := node]];
      }
    }

    method Set(key: string, value: V)
      requires Valid()
      modifies this, view.nodes
      ensures Valid() && view.model == old(view.model)[key := value]
      ensures forall n :: n in view.nodes ==> n in old(view.nodes) || fresh(n)
    {
      hide Heights, Linked, Domain, Ascending, Distinct;
      var update, current, p := Locate(key);
      if current != null && current.key == key {
        Overwrite(current, value, p);
        return;
      }
      var h := RandomLevel();
      assert |view.hs| == |view.keys|;
      update := Extend(h, update, p);
      Add(key, value, h, update, p);
    }

    method Overwrite(current: SkipNode<V>, value: V, ghost p: nat)
      requires Valid() && 1 <= p < |view.nodes| && current == view.nodes[p]
      modifies this`view, current`value
      ensures Valid() && view.model == old(view.model)[current.key := value]
      ensures view.nodes == old(view.nodes)
    {
      hide Linked, Heights, Ascending, Domain;
      OthersDiffer(view.keys, p);
      OverwriteDomain(view.keys, view.model, p, value);
      current.value := Some(value);
      view := view.(model := view.model[current.key := value]);
    }

    /** Levels above the current one hang off the head. */
    method Extend(h: nat, update: seq<SkipNode?<V>>, ghost p: nat) returns (update': seq<SkipNode?<V>>)
      requires Valid() && 1 <= p <= |view.hs| && h <= MAX_LEVEL == |update|
      requires forall l :: 0 <= l < level ==> update[l] == view.nodes[Prev(view.hs, p, l)]
      ensures |update'| == MAX_LEVEL
      ensures forall l :: 0 <= l < h ==> update'[l] == view.nodes[Prev(view.hs, p, l)]
    {
      update' := update;
      var i := level;
      while i < h
        invariant level <= i <= MAX_LEVEL == |update'|
        invariant forall l :: 0 <= l < i ==> update'[l] == view.nodes[Prev(view.hs, p, l)]
      {
        NextIs(view.hs, 0, i, |view.hs|);
        PrevIs(view.hs, p, i, 0);
        update' := update'[i := head];
        i := i + 1;
      }
    }

    /** The insertion proper. */
    method Add(key: string, value: V, h: nat, update: seq<SkipNode?<V>>, ghost p: nat)
      requires Valid() && Gap(view.keys, key, p) && key !in view.model && 1 <= h <= MAX_LEVEL == |update|
      requires forall l :: 0 <= l < h ==> update[l] == view.nodes[Prev(view.hs, p, l)]
      modifies this, view.nodes
      ensures Valid() && view.model == old(view.model)[key := value]
      ensures forall n :: n in view.nodes ==> n in old(view.nodes) || fresh(n)
    {
      hide SplicedTo, Heights, Linked, Domain, Ascending, Distinct, Next, Prev, Inserted, View.Shown;
      var node := new SkipNode<V>(key, Some(value), h);
      ghost var fw := Splice(node, key, h, update, p);
      InsertKeepsWf(view, level, p, node, value, node.forward, fw);
      InsertShown(view, p, node, value, fw);
      level := Max(h, level);
      view := Inserting(view, p, node, value, node.forward, fw);
      length := length + 1;
    }

    method Delete(key: string) returns (found: bool)
      requires Valid()
      modifies this, view.nodes
      ensures Valid() && view.model == old(view.model) - {key}
      ensures found <==> key in old(view.model)
      ensures forall n :: n in view.nodes ==> n in old(view.nodes)
    {
      hide Heights, Linked, Domain, Ascending, Distinct;
      var update, current, p := Locate(key);
      if current == null || current.key != key {
        assert view.model == view.model - {key};
        return false;
      }
      Remove(current, update, p);
      return true;
    }

    /** The removal proper. */
    method Remove(current: SkipNode<V>, update: seq<SkipNode?<V>>, ghost p: nat)
      requires Valid() && 1 <= p < |view.nodes| && current == view.nodes[p] && |update| == MAX_LEVEL
      requires forall l :: 0 <= l < level ==> update[l] == view.nodes[Prev(view.hs, p, l)]
      modifies this, view.nodes
      ensures Valid() && view.model == old(view.model) - {current.key}
      ensures forall n :: n in view.nodes ==> n in old(view.nodes)
    {
      hide BypassedTo, Heights, Bounded, Linked, Domain, Ascending, Distinct, Next, Prev, Dropped, View.Shown;
      ghost var fw := Bypass(current, update, p);
      DropKeepsWf(view, level, p, fw);
      DropShown(view, level, p, fw);
      length := length - 1;
      view := Dropping(view, p, fw);
      Lower();
    }

    /** Unlinks a node on the levels that lead to it. */
    method Bypass(current: SkipNode<V>, update: seq<SkipNode?<V>>, ghost p: nat)
      returns (ghost fw: seq<Links<V>>)
      requires view.Wf(level) && view.Shown() && 1 <= p < |view.nodes|
      requires current == view.nodes[p] && |update| == MAX_LEVEL
      requires forall l :: 0 <= l < level ==> update[l] == view.nodes[Prev(view.hs, p, l)]
      modifies view.nodes`forward
      ensures |fw| == |view.nodes| && BypassedTo(view, p, fw, view.hs[p]) && view.(fw := fw).Shown()
    {
      hide BypassedTo, Heights, Linked, Domain, Ascending, Distinct, Next, Prev, CrossedBy, View.Wf, View.Shown;
      fw := view.fw;
      BypassStart(view, level, p);
      var i := 0;
      BypassLeads(view, level, p, fw, i);
      while i < level && update[i].forward[i] == current
        invariant 0 <= i <= view.hs[p] && |fw| == |view.nodes|
        invariant BypassedTo(view, p, fw, i) && view.(fw := fw).Shown()
        invariant i < level ==> LeadsTo(view, p, i)
      {
        fw := Unlink(current, update[i], i, p, fw);
        i := i + 1;
        if i < level {
          BypassLeads(view, level, p, fw, i);
        }
      }
      assert i == view.hs[p];
    }

    method Unlink(current: SkipNode<V>, before: SkipNode<V>, i: nat, ghost p: nat, ghost fw: seq<Links<V>>)
      returns (ghost fw': seq<Links<V>>)
      requires view.Wf(level) && 1 <= p < |view.nodes| && i < view.hs[p] <= view.hs[0]
      requires view.(fw := fw).Shown() && BypassedTo(view, p, fw, i)
      requires current == view.nodes[p] && before == view.nodes[Prev(view.hs, p, i)]
      modifies before`forward
      ensures |fw'| == |fw| && BypassedTo(view, p, fw', i + 1) && view.(fw := fw').Shown()
    {
      hide BypassedTo, Heights, Linked, Domain, Ascending, Distinct, Next, Prev;
      BypassStep(view, p, fw, i);
      ghost var b := Prev(view.hs, p, i);
      fw' := fw[b := fw[b][i := fw[p][i]]];
      Relink(before, i, current.forward[i], b, fw);
    }

    /** Drops the levels on which the head has no link left. */
    method Lower()
      requires view.WfBelow(level) && view.Shown() && view.nodes[0] == head
      modifies this`level
      ensures view.Wf(level)
    {
      while level > 1 && head.forward[level - 1] == null
        invariant view.WfBelow(level)
      {
        assert view.fw[0][level - 1] == At(view.nodes, Next(view.hs, 0, level - 1));
        level := level - 1;
      }
      if level > 1 {
        assert view.fw[0][level - 1] == At(view.nodes, Next(view.hs, 0, level - 1));
      }
    }

    method Len() returns (n: nat)
      requires Valid()
      ensures n == |view.model|
    {
      n := length;
    }

    /** Visits entries from startKey on while the range, the limit and the visitor allow it. */
    method Range(startKey: string, endKey: string, limit: int, visit: (string, V) -> bool)
      returns (visited: seq<(string, V)>)
      requires Valid()
      ensures Visited(view.model, startKey, endKey, limit, visit, visited)
    {
      hide Linked, Heights, Domain, Ascending, Distinct, Visited, Window, Prev, Next;
      var _, current, p := Locate(startKey);
      visited := [];
      WindowStart(view, level, p, startKey, endKey);
      while current != null && (endKey == "" || !Less(endKey, current.key)) && (limit <= 0 || |visited| < limit)
        invariant p + |visited| <= |view.nodes| && current == At(view.nodes, p + |visited|)
        invariant limit > 0 ==> |visited| <= limit
        invariant Window(view, p, endKey, visited)
        invariant forall i :: 0 <= i < |visited| ==> visit(visited[i].0, visited[i].1)
        decreases |view.nodes| - |visited|
      {
        EntryAt(view, level, p + |visited|);
        WindowGrows(view, level, p, endKey, visited);
        visited := visited + [(current.key, current.value.value)];
        if !visit(current.key, current.value.value) {
          break;
        }
        current := current.forward[0];
      }
      WindowIsVisited(view, level, p, startKey, endKey, limit, visit, visited);
    }

    /** Visits the entries in key order while the visitor allows it. */
    method ForEach(visit: (string, V) -> bool) returns (visited: seq<(string, V)>)
      requires Valid()
      ensures Visited(view.model, "", "", 0, visit, visited)
    {
      hide Linked, Heights, Domain, Ascending, Distinct, Visited, Window, Prev, Next;
      FirstEntry(view, level);
      WindowStart(view, level, 1, "", "");
      var current := head.forward[0];
      visited := [];
      while current != null
        invariant 1 + |visited| <= |view.nodes| && current == At(view.nodes, 1 + |visited|)
        invariant Window(view, 1, "", visited)
        invariant forall i :: 0 <= i < |visited| ==> visit(visited[i].0, visited[i].1)
        decreases |view.nodes| - |visited|
      {
        EntryAt(view, level, 1 + |visited|);
        WindowGrows(view, level, 1, "", visited);
        visited := visited + [(current.key, current.value.value)];
        if !visit(current.key, current.value.value) {
          break;
        }
        current := current.forward[0];
      }
      WindowIsVisited(view, level, 1, "", "", 0, visit, visited);
    }
  }
}
