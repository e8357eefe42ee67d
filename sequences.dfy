/**
 * Small facts about sequence concatenation, proved on their own so that the
 * lemmas about filters and splitters need not rediscover them.
 */
module Sequences {

  lemma TailOfAppend<T>(a: seq<T>, b: seq<T>)
    requires a != []
    ensures (a + b)[0] == a[0] && (a + b)[1..] == a[1..] + b
  {
  }

  lemma AppendAssoc<T>(p: seq<T>, q: seq<T>, r: seq<T>)
    ensures p + (q + r) == (p + q) + r
  {
  }

  lemma HeadAndTail<T>(a: seq<T>)
    requires a != []
    ensures [a[0]] + a[1..] == a
  {
  }
}
