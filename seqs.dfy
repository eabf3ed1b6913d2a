/** Generic facts about sequences, stated once over an arbitrary element type so that
    callers with large element types do not have to rediscover them element by
    element. */
module Seqs {

  lemma AppendAssoc<T>(a: seq<T>, b: seq<T>, c: seq<T>)
    ensures (a + b) + c == a + (b + c)
  {
  }

  lemma AppendEmpty<T>(a: seq<T>)
    ensures a + [] == a
  {
  }

  /** The prefix of length `i + 1` is the prefix of length `i` and then element `i`. */
  lemma TakeSnoc<T>(s: seq<T>, i: nat)
    requires i < |s|
    ensures s[..i + 1] == s[..i] + [s[i]]
  {
  }

  lemma TakeNone<T>(s: seq<T>)
    ensures s[..0] == []
  {
  }

  lemma TakeAll<T>(s: seq<T>)
    ensures s[..|s|] == s
  {
  }

  lemma SnocInit<T>(s: seq<T>, x: T)
    ensures (s + [x])[..|s|] == s
  {
  }

  /** Dropping the last element of a concatenation drops it from the second part. */
  lemma AppendInit<T>(a: seq<T>, b: seq<T>)
    requires b != []
    ensures (a + b)[..|a + b| - 1] == a + b[..|b| - 1]
  {
  }

  /** `f` applied to every element, in order. */
  function Map<S, T>(s: seq<S>, f: S -> T): seq<T> {
    if s == [] then [] else Map(s[..|s| - 1], f) + [f(s[|s| - 1])]
  }

  /** `Map` keeps the length and puts `f` of element `i` at position `i`. */
  lemma {:induction false} MapIndex<S, T>(s: seq<S>, f: S -> T)
    ensures |Map(s, f)| == |s|
    ensures forall i :: 0 <= i < |s| ==> Map(s, f)[i] == f(s[i])
  {
    if s != [] {
      MapIndex(s[..|s| - 1], f);
    }
  }

  /** Mapping one more element appends its image. */
  lemma MapSnoc<S, T>(s: seq<S>, f: S -> T, x: S)
    ensures Map(s + [x], f) == Map(s, f) + [f(x)]
  {
    SnocInit(s, x);
  }
}
