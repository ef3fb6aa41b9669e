/** Sequences of sequences, strung together and counted. */
module Bags {

  predicate Distinct<T(==)>(s: seq<T>) {
    forall i, j :: 0 <= i < j < |s| ==> s[i] != s[j]
  }

  /** All the elements, row by row. */
  function Flat<T>(cs: seq<seq<T>>): seq<T> {
    if cs == [] then [] else Flat(cs[..|cs| - 1]) + cs[|cs| - 1]
  }

  lemma BagShift<T>(u: multiset<T>, a: multiset<T>, v: multiset<T>, c: multiset<T>, e: multiset<T>)
    requires u + a == v + c
    ensures (u + e) + a == (v + e) + c
  {
    assert (u + e) + a == (u + a) + e && (v + e) + c == (v + c) + e;
  }

  lemma BagCancel<T>(u: multiset<T>, a: multiset<T>, v: multiset<T>, b: multiset<T>)
    requires u + a == v + (b + a)
    ensures u == v + b
  {
    assert (u + a) - a == u && (v + (b + a)) - a == v + b;
  }

  lemma {:induction false} FlatUpdate<T>(cs: seq<seq<T>>, x: nat, c: seq<T>)
    requires x < |cs|
    ensures multiset(Flat(cs[x := c])) + multiset(cs[x]) == multiset(Flat(cs)) + multiset(c)
  {
    var last := |cs| - 1;
    var us := cs[x := c];
    if x == last {
      assert us[..last] == cs[..last];
    } else {
      FlatUpdate(cs[..last], x, c);
      assert us[..last] == cs[..last][x := c] && us[last] == cs[last];
      var shorter := Flat(us[..last]);
      assert multiset(Flat(us)) == multiset(shorter) + multiset(cs[last]);
      assert multiset(Flat(cs)) == multiset(Flat(cs[..last])) + multiset(cs[last]);
      BagShift(multiset(shorter), multiset(cs[x]), multiset(Flat(cs[..last])), multiset(c), multiset(cs[last]));
    }
  }

  lemma {:induction false} FlatMember<T>(cs: seq<seq<T>>, x: nat, n: T)
    requires x < |cs| && n in cs[x]
    ensures n in Flat(cs)
  {
    if x < |cs| - 1 {
      FlatMember(cs[..|cs| - 1], x, n);
    }
  }

  lemma {:induction false} FlatFrom<T>(cs: seq<seq<T>>, n: T) returns (x: nat)
    requires n in Flat(cs)
    ensures x < |cs| && n in cs[x]
  {
    var last := |cs| - 1;
    if n in cs[last] {
      x := last;
    } else {
      x := FlatFrom(cs[..last], n);
    }
  }

  lemma {:induction false} FlatEmpty<T>(cs: seq<seq<T>>)
    requires forall k :: 0 <= k < |cs| ==> cs[k] == []
    ensures Flat(cs) == []
  {
    if cs != [] {
      FlatEmpty(cs[..|cs| - 1]);
    }
  }

  lemma FlatNext<T>(cs: seq<seq<T>>, b: nat)
    requires b < |cs|
    ensures Flat(cs[..b + 1]) == Flat(cs[..b]) + cs[b]
  {
    assert cs[..b + 1][..b] == cs[..b];
  }
}
