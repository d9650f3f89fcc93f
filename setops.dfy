/** Generic set algebra over finite sets (Java's `SetOperations`). */
module SetOperations {

  /** A subset with as many elements as its superset is the superset itself. */
  lemma {:induction false} SubsetCardinality<T>(a: set<T>, b: set<T>)
    requires a <= b
    ensures |a| <= |b|
    ensures |a| == |b| ==> a == b
  {
    if a != {} {
      var x :| x in a;
      SubsetCardinality(a - {x}, b - {x});
    }
  }

  /** `identity`: equal sizes and `a` contains all of `b`. */
  predicate Identity<T>(a: set<T>, b: set<T>)
    ensures Identity(a, b) <==> a == b
  {
    if |a| == |b| && b <= a then SubsetCardinality(b, a); true else false
  }

  /** `union`: a fresh set holding the elements of either input. */
  function Union<T(!new)>(a: set<T>, b: set<T>): (r: set<T>)
    ensures forall x :: x in r <==> x in a || x in b
  {
    a + b
  }

  /** `intersection`: walks `a` and keeps the elements that `b` contains. */
  method Intersection<T>(a: set<T>, b: set<T>) returns (c: set<T>)
    ensures forall x :: x in c <==> x in a && x in b
  {
    c := {};
    var rest := a;
    while rest != {}
      invariant rest <= a
      invariant forall x :: x in c <==> x in a && x !in rest && x in b
      decreases |rest|
    {
      var x :| x in rest;
      if x in b {
        c := c + {x};
      }
      rest := rest - {x};
    }
  }

  /** `difference`: a fresh copy of `a` without the elements of `b`. */
  function Difference<T(!new)>(a: set<T>, b: set<T>): (r: set<T>)
    ensures forall x :: x in r <==> x in a && x !in b
  {
    a - b
  }

  /** `symDifference`: the union without the intersection, that is, the elements
      that lie in exactly one of the inputs. */
  method SymDifference<T(!new)>(a: set<T>, b: set<T>) returns (r: set<T>)
    ensures forall x :: x in r <==> (x in a) != (x in b)
    ensures r == Union(Difference(a, b), Difference(b, a))
  {
    var h := Union(a, b);
    var i := Intersection(a, b);
    r := Difference(h, i);
  }

  /** `subset(a, b)`: `b` contains all of `a`. */
  predicate Subset<T>(a: set<T>, b: set<T>)
    ensures Subset(a, b) <==> forall x :: x in a ==> x in b
  {
    a <= b
  }

  /** `superset(a, b)`: `a` contains all of `b`. */
  predicate Superset<T>(a: set<T>, b: set<T>)
    ensures Superset(a, b) <==> forall x :: x in b ==> x in a
  {
    b <= a
  }

  /** `properSubset`: different sizes and a subset, which is strict inclusion. */
  predicate ProperSubset<T>(a: set<T>, b: set<T>)
    ensures ProperSubset(a, b) <==> a < b
  {
    if |a| != |b| && Subset(a, b) then assert a != b; true
    else
      if a < b then SubsetCardinality(a, b); false else false
  }

  /** `properSuperset`: the mirror of `properSubset`. */
  predicate ProperSuperset<T>(a: set<T>, b: set<T>)
    ensures ProperSuperset(a, b) <==> b < a
  {
    if |a| != |b| && Superset(a, b) then assert a != b; true
    else
      if b < a then SubsetCardinality(b, a); false else false
  }

  /** What the subset rule relies on: `b` minus a proper subset of it is non-empty,
      has `|b| - |a|` elements, and so is strictly smaller than `b` unless `a` is empty. */
  lemma {:induction false} ProperSubsetDifference<T(!new)>(a: set<T>, b: set<T>)
    requires ProperSubset(a, b)
    ensures Difference(b, a) != {}
    ensures |Difference(b, a)| == |b| - |a|
    ensures a != {} ==> |Difference(b, a)| < |b|
  {
    var d := b - a;
    assert a + d == b;
    assert a !! d;
  }
}
