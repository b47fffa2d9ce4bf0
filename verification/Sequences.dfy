/** Facts about concatenation that the solver is told one at a time. */
module Sequences {

  lemma AppendOne<T>(a: seq<T>, b: seq<T>, x: T)
    ensures a + b + [x] == a + (b + [x])
  {
  }

  lemma EmptyUnits<T>(a: seq<T>)
    ensures [] + a == a && a + [] == a
  {
  }

  lemma Regroup<T>(a: seq<T>, b: seq<T>, c: seq<T>)
    ensures a + (b + c) == (a + b) + c
  {
  }

  lemma Whole<T>(a: seq<T>)
    ensures a[..0] == [] && a[0..] == a && a[..|a|] == a
  {
  }

  lemma TakeMore<T>(a: seq<T>, at: nat, to: nat)
    requires at <= to <= |a|
    ensures a[..at] + a[at..to] == a[..to]
  {
  }
}
