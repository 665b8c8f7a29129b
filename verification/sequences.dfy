/** Small facts about sequences used by the collection and partition steps. */
module Sequences {

  function Min(a: int, b: int): int {
    if a <= b then a else b
  }

  /** Concatenation of a list of lists, in order (`array_merge` of list arrays). */
  function Flatten<T>(ss: seq<seq<T>>): seq<T> {
    if ss == [] then [] else ss[0] + Flatten(ss[1..])
  }

  /** Flattening distributes over concatenation of the outer list. */
  lemma {:induction false} FlattenAppend<T>(a: seq<seq<T>>, b: seq<seq<T>>)
    ensures Flatten(a + b) == Flatten(a) + Flatten(b)
  {
    if a == [] {
      assert a + b == b;
    } else {
      assert (a + b)[0] == a[0];
      assert (a + b)[1..] == a[1..] + b;
      FlattenAppend(a[1..], b);
    }
  }
}
