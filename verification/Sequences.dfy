/** Mapping each element of a sequence to a piece and joining the pieces. */
module Sequences {

  function FlatMap<A, B>(f: A -> seq<B>, s: seq<A>): seq<B> {
    if s == [] then [] else f(s[0]) + FlatMap(f, s[1..])
  }

  lemma {:induction false} FlatMapConcat<A, B>(f: A -> seq<B>, a: seq<A>, b: seq<A>)
    ensures FlatMap(f, a + b) == FlatMap(f, a) + FlatMap(f, b)
  {
    if a == [] {
      assert a + b == b;
    } else {
      FlatMapConcat(f, a[1..], b);
      assert (a + b)[1..] == a[1..] + b && (a + b)[0] == a[0];
    }
  }

  lemma FlatMapOne<A, B>(f: A -> seq<B>, x: A)
    ensures FlatMap(f, [x]) == f(x)
  {
    assert [x][1..] == [];
  }

  lemma FlatMapLast<A, B>(f: A -> seq<B>, a: seq<A>, x: A)
    ensures FlatMap(f, a + [x]) == FlatMap(f, a) + f(x)
  {
    FlatMapConcat(f, a, [x]);
    FlatMapOne(f, x);
  }
}
