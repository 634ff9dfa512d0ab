/** The order on cache keys: Go compares strings byte by byte, a proper prefix first. */
module KeyOrder {

  predicate Less(a: string, b: string)
    decreases |a|
  {
    b != "" && (a == "" || a[0] < b[0] || (a[0] == b[0] && Less(a[1..], b[1..])))
  }

  lemma {:induction false} LessIsIrreflexive(a: string)
    ensures !Less(a, a)
    decreases |a|
  {
    if a != "" {
      LessIsIrreflexive(a[1..]);
    }
  }

  lemma {:induction false} LessIsTransitive(a: string, b: string, c: string)
    requires Less(a, b) && Less(b, c)
    ensures Less(a, c)
    decreases |a|
  {
    if a != "" && a[0] == b[0] == c[0] {
      LessIsTransitive(a[1..], b[1..], c[1..]);
    }
  }

  lemma {:induction false} LessIsTotal(a: string, b: string)
    ensures a == b || Less(a, b) || Less(b, a)
    decreases |a|
  {
    if a != "" && b != "" && a[0] == b[0] {
      LessIsTotal(a[1..], b[1..]);
      assert a == [a[0]] + a[1..] && b == [b[0]] + b[1..];
    }
  }

  lemma LessIsAsymmetric(a: string, b: string)
    requires Less(a, b)
    ensures !Less(b, a)
  {
    if Less(b, a) {
      LessIsTransitive(a, b, a);
      LessIsIrreflexive(a);
    }
  }

  /** The strings differ first at position i, where a has the smaller character or nothing left. */
  ghost predicate FirstDifference(a: string, b: string, i: nat)
  {
    i <= |a| && i < |b| && a[..i] == b[..i] && (i == |a| || a[i] < b[i])
  }

  /** Less is the lexicographic order. */
  lemma {:induction false} LessIsLexicographic(a: string, b: string)
    ensures Less(a, b) <==> exists i :: 0 <= i <= |a| && FirstDifference(a, b, i)
    decreases |a|
  {
    if b == "" || a == "" || a[0] != b[0] {
      assert Less(a, b) ==> FirstDifference(a, b, 0);
      assert forall i :: 0 < i <= |a| && FirstDifference(a, b, i) ==> a[..i][0] == b[..i][0];
    } else {
      var a', b' := a[1..], b[1..];
      LessIsLexicographic(a', b');
      forall i | 0 <= i <= |a'|
        ensures FirstDifference(a', b', i) <==> FirstDifference(a, b, i + 1)
      {
        assert i < |b'| ==> a[..i + 1] == [a[0]] + a'[..i] && b[..i + 1] == [b[0]] + b'[..i];
        assert i < |b'| ==> (a[..i + 1])[1..] == a'[..i] && (b[..i + 1])[1..] == b'[..i];
      }
      if Less(a, b) {
        var i :| 0 <= i <= |a'| && FirstDifference(a', b', i);
        assert FirstDifference(a, b, i + 1);
      }
      if i :| 0 <= i <= |a| && FirstDifference(a, b, i) {
        assert i > 0;
        assert FirstDifference(a', b', i - 1);
      }
    }
  }
}
