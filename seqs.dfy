/** Regrouping facts about sequences, stated once for any element type. */
module Seqs {
  lemma ConcatAssoc<T>(a: seq<T>, b: seq<T>, c: seq<T>)
    ensures a + (b + c) == (a + b) + c
  {
  }

  lemma AppendEmpty<T>(a: seq<T>)
    ensures a + [] == a
  {
  }

  lemma EmptyAppend<T>(a: seq<T>)
    ensures [] + a == a
  {
  }

  lemma ConsTail<T>(a: seq<T>, b: seq<T>)
    requires a != []
    ensures (a + b)[0] == a[0] && (a + b)[1..] == a[1..] + b
  {
  }

  lemma ConsShape<T>(x: T, a: seq<T>, b: seq<T>, c: seq<T>)
    ensures [x] + a + b + c == [x] + (a + (b + c))
  {
  }

  lemma SnocIndex<T>(a: seq<T>, x: T, k: nat)
    requires k <= |a|
    ensures (a + [x])[k] == if k < |a| then a[k] else x
  {
  }

  lemma PrefixTrans<T>(a: seq<T>, b: seq<T>, c: seq<T>)
    requires a <= b && b <= c
    ensures a <= c
  {
  }

  lemma InConcat<T>(x: T, a: seq<T>, b: seq<T>)
    ensures x in a + b <==> x in a || x in b
  {
  }
}
