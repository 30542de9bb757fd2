/**
 Public keys under addition. A group is given by its operation, so that every
 result holds for any commutative group of keys.
 */
module Keys {

  datatype Group<!P> = Group(zero: P, add: (P, P) -> P)

  ghost predicate Commutative<P(!new)>(g: Group<P>) {
    && (forall a, b :: g.add(a, b) == g.add(b, a))
    && (forall a, b, c :: g.add(g.add(a, b), c) == g.add(a, g.add(b, c)))
    && (forall a :: g.add(g.zero, a) == a)
  }

  /** Adds the keys one after the other, starting from the neutral element. */
  function Sum<P>(g: Group<P>, s: seq<P>): P {
    if s == [] then g.zero else g.add(Sum(g, s[..|s| - 1]), s[|s| - 1])
  }

  lemma {:induction false} SumAppend<P(!new)>(g: Group<P>, a: seq<P>, b: seq<P>)
    requires Commutative(g)
    ensures Sum(g, a + b) == g.add(Sum(g, a), Sum(g, b))
    decreases |b|
  {
    if b == [] {
      assert a + b == a;
    } else {
      var b' := b[..|b| - 1];
      assert (a + b)[..|a + b| - 1] == a + b';
      SumAppend(g, a, b');
    }
  }

  lemma {:induction false} SumOne<P(!new)>(g: Group<P>, x: P)
    requires Commutative(g)
    ensures Sum(g, [x]) == x
  {
    assert [x][..0] == [];
  }

  lemma {:induction false} SumMove<P(!new)>(g: Group<P>, b: seq<P>, k: nat)
    requires Commutative(g) && k < |b|
    ensures Sum(g, b) == g.add(b[k], Sum(g, b[..k] + b[k + 1..]))
  {
    assert b == b[..k] + ([b[k]] + b[k + 1..]);
    SumAppend(g, b[..k], [b[k]] + b[k + 1..]);
    SumAppend(g, [b[k]], b[k + 1..]);
    SumAppend(g, b[..k], b[k + 1..]);
    SumOne(g, b[k]);
    var x, y, z := Sum(g, b[..k]), b[k], Sum(g, b[k + 1..]);
    assert g.add(x, g.add(y, z)) == g.add(g.add(x, y), z) == g.add(g.add(y, x), z) == g.add(y, g.add(x, z));
  }

  /** The keys at the given places. */
  function Select<P>(keys: seq<P>, s: seq<nat>): seq<P>
    requires Within(s, |keys|)
  {
    seq(|s|, i requires 0 <= i < |s| => keys[s[i]])
  }

  ghost predicate Within(s: seq<nat>, n: nat) {
    forall i :: 0 <= i < |s| ==> s[i] < n
  }

  lemma {:induction false} RemoveOne(b: seq<nat>, k: nat)
    requires k < |b|
    ensures multiset(b[..k] + b[k + 1..]) == multiset(b) - multiset{b[k]}
  {
    assert b == b[..k] + ([b[k]] + b[k + 1..]);
  }

  lemma {:induction false} SelectMove<P(!new)>(g: Group<P>, keys: seq<P>, b: seq<nat>, k: nat)
    requires Commutative(g) && Within(b, |keys|) && k < |b|
    ensures Within(b[..k] + b[k + 1..], |keys|)
    ensures Sum(g, Select(keys, b)) == g.add(keys[b[k]], Sum(g, Select(keys, b[..k] + b[k + 1..])))
  {
    SumMove(g, Select(keys, b), k);
    assert Select(keys, b)[..k] + Select(keys, b)[k + 1..] == Select(keys, b[..k] + b[k + 1..]);
  }

  lemma {:induction false} SameSize(a: seq<nat>, b: seq<nat>)
    requires multiset(a) == multiset(b)
    ensures |a| == |b|
    ensures a != [] ==> exists k :: 0 <= k < |b| && b[k] == a[0]
  {
    assert |a| == |multiset(a)| == |b|;
    if a != [] {
      assert a[0] in multiset(b);
    }
  }

  /** A sum does not depend on the order in which the places are visited. */
  lemma {:induction false} SumPermuted<P(!new)>(g: Group<P>, keys: seq<P>, a: seq<nat>, b: seq<nat>)
    requires Commutative(g) && multiset(a) == multiset(b)
    requires Within(a, |keys|) && Within(b, |keys|)
    ensures Sum(g, Select(keys, a)) == Sum(g, Select(keys, b))
    decreases |a|
  {
    SameSize(a, b);
    if a != [] {
      hide Commutative, Sum, Select;
      var k :| 0 <= k < |b| && b[k] == a[0];
      RemoveOne(a, 0);
      RemoveOne(b, k);
      SelectMove(g, keys, b, k);
      SelectMove(g, keys, a, 0);
      SumPermuted(g, keys, a[..0] + a[1..], b[..k] + b[k + 1..]);
    }
  }

  lemma {:induction false} DistinctAtMostOnce(s: seq<nat>, x: nat)
    requires forall i, j :: 0 <= i < j < |s| ==> s[i] != s[j]
    ensures multiset(s)[x] <= 1
  {
    if s != [] {
      var s' := s[..|s| - 1];
      DistinctAtMostOnce(s', x);
      assert s == s' + [s[|s| - 1]];
      assert s[|s| - 1] !in s';
    }
  }

  /** Distinct members of `b`, as many as `b` has, are a reordering of `b`. */
  lemma {:induction false} DistinctFills(a: seq<nat>, b: seq<nat>)
    requires forall i, j :: 0 <= i < j < |a| ==> a[i] != a[j]
    requires |a| == |b| && forall i :: 0 <= i < |a| ==> a[i] in b
    ensures multiset(a) == multiset(b)
  {
    forall x: nat
      ensures multiset(a)[x] <= multiset(b)[x]
    {
      DistinctAtMostOnce(a, x);
      if x in multiset(a) {
        assert x in a;
      }
    }
    assert multiset(a) <= multiset(b);
    assert multiset(b) == multiset(a) + (multiset(b) - multiset(a));
  }
}
