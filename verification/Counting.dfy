/** Counting: finite sets of numbers, and sequences without repetition. */
module Counting {

  predicate Distinct(s: seq<nat>) {
    forall i, j :: 0 <= i < j < |s| ==> s[i] != s[j]
  }

  /** The numbers below n. */
  function Below(n: nat): (r: set<nat>)
    ensures |r| == n && forall x: nat :: x in r <==> x < n
  {
    if n == 0 then {} else Below(n - 1) + {n - 1}
  }

  /** The elements of a sequence; as many as its length when none repeats. */
  function Elements(s: seq<nat>): (r: set<nat>)
    ensures forall x :: x in r <==> x in s
    ensures Distinct(s) ==> |r| == |s|
  {
    if s == [] then {}
    else
      var n := |s| - 1;
      assert s == s[..n] + [s[n]];
      Elements(s[..n]) + {s[n]}
  }

  lemma {:induction false} SubsetSize(a: set<nat>, b: set<nat>)
    requires a <= b
    ensures |a| <= |b|
    decreases |a|
  {
    if a != {} {
      var x :| x in a;
      SubsetSize(a - {x}, b - {x});
    }
  }

  /** A subset of the same size is the whole set. */
  lemma {:induction false} FullSubset(a: set<nat>, b: set<nat>)
    requires a <= b && |a| == |b|
    ensures a == b
    decreases |a|
  {
    if a != {} {
      var x :| x in a;
      FullSubset(a - {x}, b - {x});
      assert a == (a - {x}) + {x} && b == (b - {x}) + {x};
    }
  }

  /** Three disjoint sets of n numbers below n in all leave none out. */
  lemma Pigeonhole(a: set<nat>, b: set<nat>, c: set<nat>, n: nat)
    requires (forall x :: x in a ==> x !in b && x !in c) && (forall x :: x in b ==> x !in c)
    requires (forall x :: x in a || x in b || x in c ==> x < n) && |a| + |b| + |c| == n
    ensures forall x: nat :: x < n ==> x in a || x in b || x in c
  {
    assert a !! b && (a + b) !! c;
    FullSubset(a + b + c, Below(n));
    forall x: nat | x < n ensures x in a || x in b || x in c {
      assert x in Below(n);
    }
  }
}
