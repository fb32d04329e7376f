/**
  Orderings of finite sets. Go leaves the iteration order of a map unspecified, so a loop over
  a map is modelled as a visit of its keys in some ordering.
 */
module Collections {

  /** `order` lists every element of `s` exactly once. */
  ghost predicate IsOrdering<T(!new)>(order: seq<T>, s: set<T>) {
    && (forall i, j :: 0 <= i < j < |order| ==> order[i] != order[j])
    && (forall x :: x in order <==> x in s)
  }

  /** Some ordering of `s`. */
  ghost function Enumerate<T(!new)>(s: set<T>): (order: seq<T>)
    ensures IsOrdering(order, s)
    decreases s
  {
    if s == {} then []
    else
      var x :| x in s;
      var rest := Enumerate(s - {x});
      assert forall y :: y in [x] + rest <==> y in s;
      [x] + rest
  }

  /** Orderings of disjoint sets concatenate to an ordering of their union. */
  lemma OrderingConcat<T(!new)>(a: seq<T>, s: set<T>, b: seq<T>, u: set<T>)
    requires IsOrdering(a, s) && IsOrdering(b, u) && s !! u
    ensures IsOrdering(a + b, s + u)
  {
    forall i, j | 0 <= i < j < |a + b|
      ensures (a + b)[i] != (a + b)[j]
    {
      if j >= |a| && i < |a| {
        assert (a + b)[i] in s && (a + b)[j] in u;
      }
    }
  }

  /** Adding one element that is not yet listed extends an ordering. */
  lemma OrderingSnoc<T(!new)>(order: seq<T>, s: set<T>, x: T)
    requires IsOrdering(order, s) && x !in s
    ensures IsOrdering(order + [x], s + {x})
  {
    OrderingConcat(order, s, [x], {x});
  }

  /** Appending after a concatenation appends to its second part. */
  lemma SnocAfter<T>(a: seq<T>, b: seq<T>, x: T)
    ensures (a + b) + [x] == a + (b + [x])
  {
  }

  /** `f` applied to every element of `s`. */
  function MapSeq<A, B>(f: A -> B, s: seq<A>): (r: seq<B>)
    ensures |r| == |s|
  {
    seq(|s|, i requires 0 <= i < |s| => f(s[i]))
  }

  /** Mapping one more element of a prefix appends its image. */
  lemma MapSeqSnoc<A, B>(f: A -> B, s: seq<A>, i: nat)
    requires i < |s|
    ensures MapSeq(f, s[..i + 1]) == MapSeq(f, s[..i]) + [f(s[i])]
  {
  }

  lemma MapSeqAppend<A, B>(f: A -> B, a: seq<A>, b: seq<A>)
    ensures MapSeq(f, a + b) == MapSeq(f, a) + MapSeq(f, b)
  {
    forall i | 0 <= i < |a + b|
      ensures MapSeq(f, a + b)[i] == (MapSeq(f, a) + MapSeq(f, b))[i]
    {
      if i < |a| {
        assert (a + b)[i] == a[i];
      } else {
        assert (a + b)[i] == b[i - |a|];
      }
    }
  }

  /** Writing a key twice leaves the second value. */
  lemma UpdateTwice<K, V>(m: map<K, V>, k: K, a: V, b: V)
    ensures m[k := a][k := b] == m[k := b]
  {
  }
}
