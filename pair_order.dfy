/** The order in which `_traceback` reports its alignments:
    `sorted(solution_sequences, reverse=True)` (src/sequence_alignment.py:128)
    on pairs of strings, compared as Python compares tuples of str. */
module PairOrder {

  /** One reported alignment: the aligned first and second sequence. */
  type Pair = (string, string)

  /** Python's `<` on str: code points compared left to right, and a proper
      prefix comes first. */
  predicate StrLess(a: string, b: string)
    decreases |a|
  {
    |b| > 0 && (|a| == 0 || a[0] < b[0] || (a[0] == b[0] && StrLess(a[1..], b[1..])))
  }

  /** Python's `<` on a tuple of two str: by the first component, then the second. */
  predicate PairLess(x: Pair, y: Pair)
  {
    StrLess(x.0, y.0) || (x.0 == y.0 && StrLess(x.1, y.1))
  }

  lemma {:induction false} StrLessIrreflexive(a: string)
    ensures !StrLess(a, a)
    decreases |a|
  {
    if |a| > 0 {
      StrLessIrreflexive(a[1..]);
    }
  }

  lemma {:induction false} StrLessTransitive(a: string, b: string, c: string)
    requires StrLess(a, b) && StrLess(b, c)
    ensures StrLess(a, c)
    decreases |a|
  {
    if |a| > 0 && a[0] == c[0] {
      StrLessTransitive(a[1..], b[1..], c[1..]);
    }
  }

  lemma {:induction false} StrLessTotal(a: string, b: string)
    ensures a == b || StrLess(a, b) || StrLess(b, a)
    decreases |a|
  {
    if |a| > 0 && |b| > 0 && a[0] == b[0] {
      StrLessTotal(a[1..], b[1..]);
      if a[1..] == b[1..] {
        assert a == [a[0]] + a[1..] && b == [b[0]] + b[1..];
      }
    }
  }

  /** The pair order is a strict total order, so a set of pairs has exactly
      one strictly descending arrangement. */
  lemma PairLessIrreflexive(x: Pair)
    ensures !PairLess(x, x)
  {
    StrLessIrreflexive(x.0);
    StrLessIrreflexive(x.1);
  }

  lemma PairLessTransitive(x: Pair, y: Pair, z: Pair)
    requires PairLess(x, y) && PairLess(y, z)
    ensures PairLess(x, z)
  {
    if StrLess(x.0, y.0) && StrLess(y.0, z.0) {
      StrLessTransitive(x.0, y.0, z.0);
    } else if x.0 == y.0 && y.0 == z.0 {
      StrLessTransitive(x.1, y.1, z.1);
    }
  }

  lemma PairLessTotal(x: Pair, y: Pair)
    ensures x == y || PairLess(x, y) || PairLess(y, x)
  {
    StrLessTotal(x.0, y.0);
    StrLessTotal(x.1, y.1);
  }

  lemma PairLessAsymmetric(x: Pair, y: Pair)
    requires PairLess(x, y)
    ensures !PairLess(y, x)
  {
    if PairLess(y, x) {
      PairLessTransitive(x, y, x);
      PairLessIrreflexive(x);
    }
  }

  /** Every later element is smaller than every earlier one. */
  predicate StrictlyDescending(s: seq<Pair>)
  {
    forall i, j :: 0 <= i < j < |s| ==> PairLess(s[j], s[i])
  }

  /** The greatest element of a non-empty set of pairs. */
  method Greatest(s: set<Pair>) returns (x: Pair)
    requires s != {}
    ensures x in s
    ensures forall y :: y in s && y != x ==> PairLess(y, x)
  {
    x :| x in s;
    var rest := s - {x};
    while rest != {}
      invariant x in s && rest <= s
      invariant forall y :: y in s && y !in rest && y != x ==> PairLess(y, x)
      decreases rest
    {
      var y :| y in rest;
      PairLessTotal(x, y);
      if PairLess(x, y) {
        forall z | z in s && z !in rest && z != y
          ensures PairLess(z, y)
        {
          if z != x {
            PairLessTransitive(z, x, y);
          }
        }
        x := y;
      }
      rest := rest - {y};
    }
  }

  /** The set's elements, each once, in descending order. */
  method SortDescending(s: set<Pair>) returns (r: seq<Pair>)
    ensures |r| == |s|
    ensures forall x :: x in s <==> x in r
    ensures StrictlyDescending(r)
  {
    r := [];
    var rest := s;
    while rest != {}
      invariant rest <= s
      invariant |r| + |rest| == |s|
      invariant forall x :: x in s <==> x in r || x in rest
      invariant forall x :: x in r ==> x !in rest
      invariant StrictlyDescending(r)
      invariant forall i, y :: 0 <= i < |r| && y in rest ==> PairLess(y, r[i])
      decreases rest
    {
      var x := Greatest(rest);
      r := r + [x];
      rest := rest - {x};
    }
  }

  /** Two strictly descending sequences holding the same elements are equal:
      the sorted result does not depend on how the set was traversed. */
  lemma {:induction false} DescendingUnique(a: seq<Pair>, b: seq<Pair>)
    requires StrictlyDescending(a) && StrictlyDescending(b)
    requires forall x :: x in a <==> x in b
    ensures a == b
    decreases |a|
  {
    if |a| > 0 {
      assert a[0] in a;
      var l :| 0 <= l < |b| && b[l] == a[0];
      assert b[0] in b;
      var k :| 0 <= k < |a| && a[k] == b[0];
      if a[0] != b[0] {
        assert k > 0 && l > 0;
        PairLessAsymmetric(a[0], b[0]);
      }
      forall x
        ensures x in a[1..] <==> x in b[1..]
      {
        if x in a[1..] {
          var i :| 1 <= i < |a| && a[i] == x;
          PairLessIrreflexive(x);
          assert x in a;
          var j :| 0 <= j < |b| && b[j] == x;
          assert j != 0;
        }
        if x in b[1..] {
          var j :| 1 <= j < |b| && b[j] == x;
          PairLessIrreflexive(x);
          assert x in b;
          var i :| 0 <= i < |a| && a[i] == x;
          assert i != 0;
        }
      }
      DescendingUnique(a[1..], b[1..]);
      assert a == [a[0]] + a[1..] && b == [b[0]] + b[1..];
    }
  }
}
