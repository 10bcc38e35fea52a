/**
 Iteration over an unordered collection (a set, or the keys of a dictionary):
 every element is visited exactly once, in an order nothing promises.
 */
module Iteration {

  /** `order` lists every element of `s` exactly once and nothing else. */
  ghost predicate IsEnumeration<T>(order: seq<T>, s: set<T>)
  {
    NoRepeats(order) && Elements(order) == s
  }

  /** The elements occurring in `order`. */
  function Elements<T>(order: seq<T>): set<T>
  {
    set x | x in order
  }

  /** No element occurs twice in `order`. */
  ghost predicate NoRepeats<T>(order: seq<T>)
  {
    order == [] || (order[|order| - 1] !in order[..|order| - 1] && NoRepeats(order[..|order| - 1]))
  }

  lemma ElementsMember<T>(order: seq<T>, x: T)
    ensures x in Elements(order) <==> x in order
  {
  }

  /** Appending one element adds it to the elements. */
  lemma ElementsSnoc<T>(order: seq<T>, x: T)
    ensures Elements(order + [x]) == Elements(order) + {x}
  {
    assert forall y :: y in order + [x] <==> y in order || y == x;
  }

  /** An enumeration holds the elements of its set and only those. */
  lemma EnumerationMembers<T>(order: seq<T>, s: set<T>)
    requires IsEnumeration(order, s)
    ensures forall i :: 0 <= i < |order| ==> order[i] in s
    ensures forall x :: x in s ==> x in order
  {
    forall i | 0 <= i < |order|
      ensures order[i] in s
    {
      ElementsMember(order, order[i]);
    }
    forall x | x in s
      ensures x in order
    {
      ElementsMember(order, x);
    }
  }

  /** Without repeats, a sequence has as many elements as positions. */
  lemma {:induction false} ElementsCount<T>(order: seq<T>)
    requires NoRepeats(order)
    ensures |Elements(order)| == |order|
  {
    if order != [] {
      var init := order[..|order| - 1];
      ElementsCount(init);
      assert order == init + [order[|order| - 1]];
      ElementsSnoc(init, order[|order| - 1]);
    }
  }

  /** The elements of `s`, each once, in an unspecified order. */
  method Enumerate<T(==)>(s: set<T>) returns (order: seq<T>)
    ensures IsEnumeration(order, s)
  {
    order := [];
    var rest := s;
    while rest != {}
      invariant rest <= s
      invariant Elements(order) == s - rest
      invariant NoRepeats(order)
      decreases rest
    {
      var x :| x in rest;
      ElementsSnoc(order, x);
      assert (order + [x])[..|order|] == order;
      order := order + [x];
      rest := rest - {x};
    }
  }
}
