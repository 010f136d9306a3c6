/** The two list operations the automaton code relies on: `list(s)` and `xs.index(x)`. */
module Lists {

  /** No element occurs twice. */
  ghost predicate Distinct<T>(xs: seq<T>) {
    forall i, j :: 0 <= i < j < |xs| ==> xs[i] != xs[j]
  }

  /** The elements of a list, as a set. */
  ghost function Elems<T>(xs: seq<T>): set<T> {
    set i | 0 <= i < |xs| :: xs[i]
  }

  /**
    `list(s)`: every element of s exactly once, in an order the model leaves
    open (the source gets it from the hash layout of the set).
  */
  method ListOf<T>(s: set<T>) returns (xs: seq<T>)
    ensures Distinct(xs) && |xs| == |s|
    ensures forall x :: x in xs <==> x in s
  {
    xs := [];
    var rest := s;
    while rest != {}
      invariant Distinct(xs)
      invariant rest <= s && |xs| + |rest| == |s|
      invariant forall x :: x in xs <==> x in s - rest
      decreases rest
    {
      var x :| x in rest;
      assert x !in xs;
      xs := xs + [x];
      rest := rest - {x};
    }
  }

  /** `xs.index(x)`: the position of the first occurrence of x. */
  function IndexOf<T(==)>(xs: seq<T>, x: T): (i: nat)
    requires x in xs
    ensures i < |xs| && xs[i] == x && x !in xs[..i]
  {
    if xs[0] == x then 0
    else
      var k := IndexOf(xs[1..], x);
      assert xs[..k + 1] == [xs[0]] + xs[1..][..k];
      1 + k
  }

  /** In a duplicate-free list, index inverts subscripting. */
  lemma IndexOfAt<T>(xs: seq<T>, i: nat)
    requires Distinct(xs) && i < |xs|
    ensures IndexOf(xs, xs[i]) == i
  {
    var k := IndexOf(xs, xs[i]);
    assert xs[k] == xs[i];
  }

  lemma ElemsIn<T>(xs: seq<T>, x: T)
    ensures x in Elems(xs) <==> x in xs
  {
    if x in xs {
      var i :| 0 <= i < |xs| && xs[i] == x;
    }
  }
}
