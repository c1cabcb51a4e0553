/**
 * Two facts about sequence concatenation, stated once so that proofs about
 * lists that grow by appending can regroup them explicitly.
 */
module Sequences {

  lemma AppendAssoc<T>(a: seq<T>, b: seq<T>, c: seq<T>)
    ensures (a + b) + c == a + (b + c)
  {
  }

  lemma EmptyPrefix<T>(s: seq<T>)
    ensures [] + s == s
  {
  }
}
