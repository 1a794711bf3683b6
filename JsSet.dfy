/** A JavaScript `Set<string>`: membership plus insertion order, which is the
    order `Array.from(set)` and `forEach` visit the elements in. */
module JsSet {

  predicate NoDuplicates(s: seq<string>) {
    forall i, j :: 0 <= i < j < |s| ==> s[i] != s[j]
  }

  /** The elements after `set.add(x)`: unchanged when `x` is present,
      otherwise `x` goes at the end. */
  function Added(elements: seq<string>, x: string): (r: seq<string>)
    ensures x in r
    ensures forall y :: y in r <==> y in elements || y == x
    ensures NoDuplicates(elements) ==> NoDuplicates(r)
    ensures |elements| <= |r| && r[..|elements|] == elements
  {
    if x in elements then elements else elements + [x]
  }

  /** Adding an element twice leaves the same set as adding it once. */
  lemma AddedTwice(elements: seq<string>, x: string)
    ensures Added(Added(elements, x), x) == Added(elements, x)
  {
  }

  class StringSet {
    /** The elements in insertion order. */
    var elements: seq<string>

    ghost predicate Valid()
      reads this
    {
      NoDuplicates(elements)
    }

    constructor ()
      ensures Valid() && elements == []
    {
      elements := [];
    }

    method Add(x: string)
      requires Valid()
      modifies this
      ensures Valid()
      ensures elements == Added(old(elements), x)
    {
      if x !in elements {
        elements := elements + [x];
      }
    }
  }
}
