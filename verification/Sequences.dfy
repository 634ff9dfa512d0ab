/** Putting an element into a sequence and taking one out, known only by what they leave where. */
module Sequences {

  /** r is s with x put in at position p. */
  ghost predicate Inserted<T>(s: seq<T>, p: nat, x: T, r: seq<T>)
  {
    && p <= |s| && |r| == |s| + 1 && r[p] == x
    && (forall j :: 0 <= j < p ==> r[j] == s[j])
    && (forall j :: p < j < |r| ==> r[j] == s[j - 1])
  }

  ghost function Insert<T>(s: seq<T>, p: nat, x: T): (r: seq<T>)
    requires p <= |s|
    ensures Inserted(s, p, x, r)
  {
    assert Inserted(s, p, x, s[..p] + [x] + s[p..]);
    var r :| Inserted(s, p, x, r);
    r
  }

  ghost predicate Distinct<T>(s: seq<T>)
  {
    forall i, j :: 0 <= i < j < |s| ==> s[i] != s[j]
  }

  lemma InsertMembers<T>(s: seq<T>, p: nat, x: T)
    requires p <= |s| && Distinct(s) && x !in s
    ensures Distinct(Insert(s, p, x))
    ensures forall y :: y in Insert(s, p, x) ==> y in s || y == x
  {
  }

  /** r is s without its element at position p. */
  ghost predicate Dropped<T>(s: seq<T>, p: nat, r: seq<T>)
  {
    && p < |s| && |r| == |s| - 1
    && (forall j :: 0 <= j < p ==> r[j] == s[j])
    && (forall j :: p <= j < |r| ==> r[j] == s[j + 1])
  }

  ghost function Drop<T>(s: seq<T>, p: nat): (r: seq<T>)
    requires p < |s|
    ensures Dropped(s, p, r)
  {
    assert Dropped(s, p, s[..p] + s[p + 1..]);
    var r :| Dropped(s, p, r);
    r
  }

  lemma DropMembers<T>(s: seq<T>, p: nat)
    requires p < |s| && Distinct(s)
    ensures Distinct(Drop(s, p))
    ensures forall y :: y in Drop(s, p) ==> y in s
  {
  }
}

/** Sizes of finite sets. */
module Sets {

  lemma {:induction false} SubsetSize<T>(a: set<T>, b: set<T>)
    requires a <= b
    ensures |a| <= |b|
  {
    if a != {} {
      var x :| x in a;
      SubsetSize(a - {x}, b - {x});
    }
  }
}
