/**
 What the id of a tree is made from: the keys of the nodes in the order of a visit, each
 with a mark if the node is a leaf. Whether that tells the tree from every other one.
 */
module TreeIds {
  import opened TreeNodes

  /** The structure of a tree: its keys and who is below whom. */
  datatype Shape<P> = Shape(key: P, children: seq<Shape<P>>)

  datatype Mark<P> = Mark(key: P, leaf: bool)

  /** What a visit writes for each node. */
  function Marks<P>(t: Shape<P>): seq<Mark<P>>
    decreases t, 1
  {
    [Mark(t.key, t.children == [])] + MarksAll(t.children)
  }

  function MarksAll<P>(ts: seq<Shape<P>>): seq<Mark<P>>
    decreases ts, 0
  {
    if ts == [] then [] else Marks(ts[0]) + MarksAll(ts[1..])
  }

  // ----- the marks of the tree nodes

  function ShapeOf<P>(tn: TreeNode<P>): Shape<P>
    decreases tn, 1
  {
    Shape(tn.server.public, ShapesOf(tn.children))
  }

  function ShapesOf<P>(tns: seq<TreeNode<P>>): seq<Shape<P>>
    decreases tns, 0
  {
    if tns == [] then [] else [ShapeOf(tns[0])] + ShapesOf(tns[1..])
  }

  /** The hash is fed by a visit that asks every node for its key and whether it is a leaf. */
  function Hashed<P>(tns: seq<TreeNode<P>>): seq<Mark<P>> {
    if tns == [] then [] else [Mark(tns[0].server.public, tns[0].children == [])] + Hashed(tns[1..])
  }

  lemma {:induction false} HashedAppend<P>(a: seq<TreeNode<P>>, b: seq<TreeNode<P>>)
    ensures Hashed(a + b) == Hashed(a) + Hashed(b)
  {
    if a == [] {
      assert a + b == b && Hashed(a) == [];
    } else {
      HashedAppend(a[1..], b);
      assert (a + b)[1..] == a[1..] + b && (a + b)[0] == a[0];
      var m := [Mark(a[0].server.public, a[0].children == [])];
      assert Hashed(a + b) == m + Hashed(a[1..] + b) && Hashed(a) == m + Hashed(a[1..]);
      hide Hashed;
      Associative(m, Hashed(a[1..]), Hashed(b));
    }
  }

  lemma {:induction false} Associative<T>(a: seq<T>, b: seq<T>, c: seq<T>)
    ensures a + (b + c) == a + b + c
  {
  }

  /** A visit hashes the marks of the tree's shape. */
  lemma {:induction false} VisitMarks<P>(tn: TreeNode<P>)
    ensures Hashed(Visit(tn)) == Marks(ShapeOf(tn))
    decreases tn, 1
  {
    VisitAllMarks(tn.children);
    HashedAppend([tn], VisitAll(tn.children));
    assert Hashed([tn]) == [Mark(tn.server.public, tn.children == [])];
  }

  lemma {:induction false} VisitAllMarks<P>(tns: seq<TreeNode<P>>)
    ensures Hashed(VisitAll(tns)) == MarksAll(ShapesOf(tns))
    decreases tns, 0
  {
    if tns != [] {
      VisitMarks(tns[0]);
      VisitAllMarks(tns[1..]);
      HashedAppend(Visit(tns[0]), VisitAll(tns[1..]));
      assert ShapesOf(tns)[1..] == ShapesOf(tns[1..]);
    }
  }

  // ----- the trees that are told apart

  /** A tree with one leaf: every node has one child at most. */
  predicate Chain<P>(t: Shape<P>)
    decreases t
  {
    t.children == [] || (|t.children| == 1 && Chain(t.children[0]))
  }

  /** Leaves, and a chain as the last. */
  predicate LeavesThenChain<P>(ts: seq<Shape<P>>) {
    if ts == [] then true
    else if |ts| == 1 then Chain(ts[0])
    else ts[0].children == [] && LeavesThenChain(ts[1..])
  }

  function LeafCount<P>(ms: seq<Mark<P>>): nat {
    if ms == [] then 0 else (if ms[0].leaf then 1 else 0) + LeafCount(ms[1..])
  }

  lemma {:induction false} LeafCountAppend<P>(a: seq<Mark<P>>, b: seq<Mark<P>>)
    ensures LeafCount(a + b) == LeafCount(a) + LeafCount(b)
  {
    if a == [] {
      assert a + b == b;
    } else {
      LeafCountAppend(a[1..], b);
      assert (a + b)[1..] == a[1..] + b;
    }
  }

  /** Every tree has a leaf. */
  lemma {:induction false} HasLeaf<P>(t: Shape<P>)
    ensures LeafCount(Marks(t)) >= 1
    decreases t, 1
  {
    LeafCountAppend([Mark(t.key, t.children == [])], MarksAll(t.children));
    if t.children != [] {
      HaveLeaf(t.children);
    }
  }

  lemma {:induction false} HaveLeaf<P>(ts: seq<Shape<P>>)
    ensures ts != [] ==> LeafCount(MarksAll(ts)) >= 1
    decreases ts, 0
  {
    if ts != [] {
      HasLeaf(ts[0]);
      LeafCountAppend(Marks(ts[0]), MarksAll(ts[1..]));
    }
  }

  lemma {:induction false} ChainHasOneLeaf<P>(t: Shape<P>)
    requires Chain(t)
    ensures LeafCount(Marks(t)) == 1
    decreases t
  {
    LeafCountAppend([Mark(t.key, t.children == [])], MarksAll(t.children));
    if t.children != [] {
      ChainHasOneLeaf(t.children[0]);
      OneTree(t.children[0]);
      assert t.children == [t.children[0]];
    }
  }

  lemma {:induction false} OneTree<P>(t: Shape<P>)
    ensures MarksAll([t]) == Marks(t)
  {
    assert [t][1..] == [];
  }

  /** Leaves and a chain are told from every other list of trees by their marks. */
  lemma {:induction false} OnlyOne<P>(ts: seq<Shape<P>>, us: seq<Shape<P>>)
    requires LeavesThenChain(ts) && MarksAll(ts) == MarksAll(us)
    ensures ts == us
    decreases |MarksAll(ts)|
  {
    if ts == [] {
      HaveLeaf(us);
    } else {
      var t, ms := ts[0], MarksAll(ts);
      assert us != [];
      var u := us[0];
      assert ms[0] == Mark(t.key, t.children == []) == Mark(u.key, u.children == []);
      assert ms[1..] == MarksAll(t.children) + MarksAll(ts[1..]);
      assert ms[1..] == MarksAll(u.children) + MarksAll(us[1..]);
      if t.children == [] {
        assert ms[1..] == MarksAll(ts[1..]) == MarksAll(us[1..]);
        OnlyOne(ts[1..], us[1..]);
        assert t == u;
      } else {
        assert ts == [t];
        OneTree(t);
        ChainHasOneLeaf(t);
        LastOfAll(u, us[1..], ms);
        assert us == [u];
        assert ms[1..] == MarksAll(t.children) == MarksAll(u.children);
        OnlyOne(t.children, u.children);
      }
    }
  }

  /** With one leaf in all, a tree that is no leaf is the only one. */
  lemma {:induction false} LastOfAll<P>(u: Shape<P>, rest: seq<Shape<P>>, ms: seq<Mark<P>>)
    requires ms == Marks(u) + MarksAll(rest) && LeafCount(ms) == 1
    ensures rest == []
  {
    LeafCountAppend(Marks(u), MarksAll(rest));
    HasLeaf(u);
    HaveLeaf(rest);
  }

  // ----- the trees that are not

  lemma {:induction false} MarksAllAppend<P>(a: seq<Shape<P>>, b: seq<Shape<P>>)
    ensures MarksAll(a + b) == MarksAll(a) + MarksAll(b)
  {
    if a == [] {
      assert a + b == b && MarksAll(a) == [];
    } else {
      MarksAllAppend(a[1..], b);
      assert (a + b)[1..] == a[1..] + b && (a + b)[0] == a[0];
      assert MarksAll(a + b) == Marks(a[0]) + MarksAll(a[1..] + b) && MarksAll(a) == Marks(a[0]) + MarksAll(a[1..]);
      hide Marks, MarksAll;
      Associative(Marks(a[0]), MarksAll(a[1..]), MarksAll(b));
    }
  }

  /** What comes after a tree that is no leaf can as well be below it. */
  lemma {:induction false} Sink<P>(t: Shape<P>, rest: seq<Shape<P>>)
    requires t.children != []
    ensures MarksAll([Shape(t.key, t.children + rest)]) == MarksAll([t] + rest)
  {
    MarksAllAppend([t], rest);
    MarksAllAppend(t.children, rest);
    OneTree(t);
    OneTree(Shape(t.key, t.children + rest));
  }

  lemma {:induction false} SinkDiffers<P>(t: Shape<P>, rest: seq<Shape<P>>)
    requires rest != []
    ensures [Shape(t.key, t.children + rest)] != [t] + rest
  {
    assert |[t] + rest| > 1;
  }

  /** Any other list of trees has the marks of a different one. */
  lemma {:induction false} AnotherOne<P>(ts: seq<Shape<P>>) returns (us: seq<Shape<P>>)
    requires !LeavesThenChain(ts)
    ensures us != ts && us != [] && MarksAll(us) == MarksAll(ts)
    decreases ts
  {
    var t, rest := ts[0], ts[1..];
    assert ts == [t] + rest;
    if rest == [] {
      us := AnotherForOne(t);
    } else if t.children != [] {
      Sink(t, rest);
      SinkDiffers(t, rest);
      us := [Shape(t.key, t.children + rest)];
    } else {
      var others := AnotherOne(rest);
      MarksAllAppend([t], rest);
      MarksAllAppend([t], others);
      us := [t] + others;
      assert us[1..] == others;
    }
  }

  lemma {:induction false} AnotherForOne<P>(t: Shape<P>) returns (us: seq<Shape<P>>)
    requires !Chain(t)
    ensures us != [t] && us != [] && MarksAll(us) == MarksAll([t])
    decreases t
  {
    var kids := t.children;
    if |kids| == 1 {
      var others := AnotherForOne(kids[0]);
      assert kids == [kids[0]];
      us := [Shape(t.key, others)];
      OneTree(t);
      OneTree(us[0]);
    } else {
      var n := |kids| - 1;
      var up := Shape(t.key, kids[..n]);
      assert kids == kids[..n] + kids[n..];
      Sink(up, kids[n..]);
      us := [up] + kids[n..];
      assert t == Shape(t.key, kids[..n] + kids[n..]);
    }
  }

  // ----- in terms of the leaves

  /** The depths of the leaves below `t`, in the order of the visit; `t` itself is at depth d. */
  function LeafDepths<P>(t: Shape<P>, d: nat): seq<nat>
    decreases t, 1
  {
    if t.children == [] then [d] else LeafDepthsAll(t.children, d + 1)
  }

  function LeafDepthsAll<P>(ts: seq<Shape<P>>, d: nat): seq<nat>
    decreases ts, 0
  {
    if ts == [] then [] else LeafDepths(ts[0], d) + LeafDepthsAll(ts[1..], d)
  }

  ghost predicate AtLeast(ds: seq<nat>, d: nat) {
    forall i :: 0 <= i < |ds| ==> ds[i] >= d
  }

  /** No entry but the last is larger than d. */
  ghost predicate EarlyAtMost(ds: seq<nat>, d: nat) {
    forall i :: 0 <= i < |ds| - 1 ==> ds[i] <= d
  }

  lemma {:induction false} DepthsBelow<P>(t: Shape<P>, d: nat)
    ensures LeafDepths(t, d) != [] && AtLeast(LeafDepths(t, d), if t.children == [] then d else d + 1)
    decreases t, 1
  {
    if t.children != [] {
      DepthsBelowAll(t.children, d + 1);
    }
  }

  lemma {:induction false} DepthsBelowAll<P>(ts: seq<Shape<P>>, d: nat)
    ensures (ts == [] <==> LeafDepthsAll(ts, d) == []) && AtLeast(LeafDepthsAll(ts, d), d)
    decreases ts, 0
  {
    if ts != [] {
      DepthsBelow(ts[0], d);
      DepthsBelowAll(ts[1..], d);
    }
  }

  /** A tree with one leaf is a chain. */
  lemma {:induction false} OneLeafIffChain<P>(t: Shape<P>, d: nat)
    ensures |LeafDepths(t, d)| == 1 <==> Chain(t)
    decreases t
  {
    var kids := t.children;
    if kids != [] {
      OneLeafIffChain(kids[0], d + 1);
      DepthsBelow(kids[0], d + 1);
      DepthsBelowAll(kids[1..], d + 1);
    }
  }

  lemma {:induction false} ShallowIff<P>(ts: seq<Shape<P>>, d: nat)
    ensures EarlyAtMost(LeafDepthsAll(ts, d), d) <==> LeavesThenChain(ts)
  {
    if ts != [] {
      var first, rest := LeafDepths(ts[0], d), LeafDepthsAll(ts[1..], d);
      DepthsBelow(ts[0], d);
      DepthsBelowAll(ts[1..], d);
      if |ts| == 1 {
        OneLeafIffChain(ts[0], d);
        assert first + rest == first;
        hide LeafDepths, LeafDepthsAll;
        assert ts[0].children != [] && |first| > 1 ==> first[0] > d;
      } else {
        ShallowIff(ts[1..], d);
        EarlySplit(first, rest, d);
        assert ts[0].children == [] ==> first == [d];
        assert ts[0].children != [] ==> first[0] > d;
        hide LeafDepths, LeafDepthsAll;
      }
    }
  }

  lemma {:induction false} EarlySplit(a: seq<nat>, b: seq<nat>, d: nat)
    requires a != [] && b != []
    ensures EarlyAtMost(a + b, d) <==> (forall i :: 0 <= i < |a| ==> a[i] <= d) && EarlyAtMost(b, d)
  {
    var c := a + b;
    assert forall i :: 0 <= i < |a| ==> c[i] == a[i];
    assert forall i :: 0 <= i < |b| ==> c[|a| + i] == b[i];
    if EarlyAtMost(c, d) {
      forall i | 0 <= i < |b| - 1 ensures b[i] <= d {
        assert c[|a| + i] <= d;
      }
    }
    if (forall i :: 0 <= i < |a| ==> a[i] <= d) && EarlyAtMost(b, d) {
      forall i | 0 <= i < |c| - 1 ensures c[i] <= d {
        if i >= |a| {
          assert c[i] == b[i - |a|];
        }
      }
    }
  }

  /** No leaf but the last that is visited is deeper than 1. */
  ghost predicate EarlyLeavesShallow<P>(t: Shape<P>) {
    EarlyAtMost(LeafDepths(t, 0), 1)
  }

  ghost predicate ToldApart<P(!new)>(t: Shape<P>) {
    forall u: Shape<P> :: Marks(u) == Marks(t) ==> u == t
  }

  /** The marks tell a tree from every other one if and only if no leaf but the last is deeper than 1. */
  lemma {:induction false} ToldApartIff<P(!new)>(t: Shape<P>)
    ensures ToldApart(t) <==> EarlyLeavesShallow(t)
  {
    ShallowIff(t.children, 1);
    if LeavesThenChain(t.children) {
      forall u: Shape<P> | Marks(u) == Marks(t) ensures u == t {
        assert Marks(u)[1..] == MarksAll(u.children) && Marks(t)[1..] == MarksAll(t.children);
        assert Marks(u)[0] == Marks(t)[0];
        OnlyOne(t.children, u.children);
      }
    } else {
      var others := AnotherOne(t.children);
      var u := Shape(t.key, others);
      assert Marks(u) == Marks(t) && u != t;
    }
  }

  /** Two trees of the same four keys with the same marks. */
  lemma {:induction false} SameMarks<P>(a: P, b: P, c: P, d: P)
    ensures var t := Shape(a, [Shape(b, [Shape(c, []), Shape(d, [])])]);
            var u := Shape(a, [Shape(b, [Shape(c, [])]), Shape(d, [])]);
            t != u && Marks(t) == Marks(u)
  {
    var x, y := Shape(c, []), Shape(d, []);
    var up := Shape(b, [x]);
    Sink(up, [y]);
    assert [x] + [y] == [x, y] && [up] + [y] == [up, y];
    var t, u := Shape(a, [Shape(b, [x, y])]), Shape(a, [up, y]);
    assert |t.children| == 1 && |u.children| == 2;
  }
}
