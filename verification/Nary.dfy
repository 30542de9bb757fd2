/**
 GenerateNaryTreeWithRoot: the roster is walked once, starting at the root, and
 every server becomes the next child of the first parent that is not yet full.
 */
module Nary {
  import opened Wrappers
  import opened Arith
  import opened Arena

  /** No such root, a crash of the generator, or a tree. */
  datatype Outcome = NoSuchRoot | Crash | Generated(tree: seq<Node>)

  // ----- the layout

  /** The parent of node `j`: the (j - 1) / n-th node, or the root when n is negative. */
  function ParentOf(n: int, j: nat): nat
    requires n != 0 && j > 0
  {
    if n < 0 then 0 else (j - 1) / n
  }

  /** The j-th entry after the root, around the roster. */
  function EntryAt(len: nat, rootIndex: nat, j: nat): nat
    requires len > 0
  {
    (j + rootIndex) % len
  }

  /** Node `j` is the j-th entry after the root, below the node that `ParentOf` names. */
  predicate Layout(t: seq<Node>, n: int, rootIndex: nat, len: nat)
    requires len > 0
  {
    && (forall j :: 0 <= j < |t| ==> t[j].rosterIndex == EntryAt(len, rootIndex, j))
    && (forall j :: 0 < j < |t| ==> n != 0 && t[j].parent == ParentOf(n, j))
  }

  /** `h` is the node the latest child was added to, and nothing is below later nodes. */
  ghost predicate Head(t: seq<Node>, n: int, h: nat) {
    && h < |t|
    && (forall j :: h < j < |t| ==> t[j].children == [])
    && (n >= 1 ==> |t| - 1 - n * h == |t[h].children| <= n)
    && (n < 0 ==> h == 0)
  }

  lemma {:induction false} HeadMoves(t: seq<Node>, n: int, h: nat)
    requires Head(t, n, h) && n >= 1 && |t[h].children| == n && h + 1 < |t|
    ensures Head(t, n, h + 1) && t[h + 1].children == []
  {
    Distribute(n, h, 1);
  }

  lemma {:induction false} HeadFacts(t: seq<Node>, n: int, h: nat)
    requires IsTree(t) && Head(t, n, h)
    ensures LinksBack(t) && SubtreeCount(t, h) == |t[h].children|
    ensures h < |t| && (n >= 1 ==> |t[h].children| <= n)
    ensures |t| == 1 ==> h == 0 && t[h].children == []
    ensures n >= 1 && |t[h].children| == n ==> h + 1 < |t|
  {
    CountIsArity(t, h);
    assert t[h].children != [] ==> h < t[h].children[0] < |t|;
    if n >= 1 {
      MulMonotone(n, 0, h);
    }
    if n >= 1 && |t[h].children| == n {
      MulMonotone(h + 1, 1, n);
      Distribute(n, h, 1);
    }
  }

  lemma {:induction false} HeadTakesChild(t: seq<Node>, n: int, h: nat, rootIndex: nat, len: nat)
    requires len > 0 && Layout(t, n, rootIndex, len) && Head(t, n, h) && n != 0
    requires n >= 1 ==> |t[h].children| < n
    ensures Layout(AddChild(t, h, EntryAt(len, rootIndex, |t|)), n, rootIndex, len)
    ensures Head(AddChild(t, h, EntryAt(len, rootIndex, |t|)), n, h)
  {
    var u := AddChild(t, h, EntryAt(len, rootIndex, |t|));
    if n >= 1 {
      DivUnique(|t| - 1, n, h);
    }
    forall j | 0 < j < |u|
      ensures u[j].parent == ParentOf(n, j)
    {
      if j < |t| {
        assert t[j].parent == ParentOf(n, j);
      }
    }
  }

  /** What the two queues hold: the parents from the head on, then their children. */
  predicate Queues(parents: seq<nat>, children: seq<nat>, i: nat) {
    && parents != []
    && IsRun(parents, parents[0], |parents|)
    && IsRun(children, parents[0] + |parents|, |children|)
    && parents[0] + |parents| + |children| == i
  }

  lemma {:induction false} PopParent(parents: seq<nat>, children: seq<nat>, i: nat)
    requires Queues(parents, children, i)
    ensures parents[0] + 1 == i ==> |parents| == 1 && children == []
    ensures parents[0] + 1 < i && |parents| > 1 ==>
              Queues(parents[1..], children, i) && parents[1..][0] == parents[0] + 1
    ensures parents[0] + 1 < i && |parents| == 1 ==>
              Queues(children, [], i) && children[0] == parents[0] + 1
  {
  }

  lemma {:induction false} StartLayout(n: int, rootIndex: nat, len: nat)
    requires rootIndex < len
    ensures Head(NewRoot(rootIndex), n, 0) && Layout(NewRoot(rootIndex), n, rootIndex, len)
    ensures IsTree(NewRoot(rootIndex)) && Queues([0], [], 1)
  {
    assert EntryAt(len, rootIndex, 0) == rootIndex by { DivUnique(rootIndex, len, 0); }
    hide EntryAt;
  }

  /** Drops the head parent once it is full; out of parents, its children take over. */
  method NextParent(t: seq<Node>, n: int, parents0: seq<nat>, children0: seq<nat>)
    returns (parents: seq<nat>, children: seq<nat>)
    requires IsTree(t) && parents0 != []
    requires Queues(parents0, children0, |t|) && Head(t, n, parents0[0])
    requires n == 0 ==> |t| == 1
    ensures parents == [] <==> n == 0
    ensures n != 0 ==> Queues(parents, children, |t|) && Head(t, n, parents[0])
    ensures n != 0 ==> parents[0] < |t|
    ensures n >= 1 ==> |t[parents[0]].children| < n
  {
    parents, children := parents0, children0;
    HeadFacts(t, n, parents[0]);
    hide Head, IsTree, Queues;
    if SubtreeCount(t, parents[0]) == n {
      if n != 0 {
        HeadMoves(t, n, parents[0]);
      }
      PopParent(parents, children, |t|);
      parents := parents[1..];
    }
    if parents == [] {
      parents, children := children, [];
    }
  }

  /** The queue loop, with the root at `rootIndex`. */
  method GrowTree<P>(ro: seq<Server<P>>, n: int, rootIndex: nat) returns (r: Outcome)
    requires rootIndex < |ro|
    ensures if n == 0 && |ro| >= 2 then r == Crash
            else r.Generated? && IsTree(r.tree) && |r.tree| == |ro| && Layout(r.tree, n, rootIndex, |ro|)
  {
    var t := NewRoot(rootIndex);
    StartLayout(n, rootIndex, |ro|);
    hide Head, Layout, IsTree, Queues, EntryAt;
    var parents: seq<nat>, children: seq<nat> := [0], [];
    var i := 1;
    while i < |ro|
      invariant 1 <= i <= |ro| && |t| == i && IsTree(t)
      invariant Layout(t, n, rootIndex, |ro|)
      invariant parents != [] && Queues(parents, children, i) && Head(t, n, parents[0])
      invariant n == 0 ==> i == 1
    {
      parents, children := NextParent(t, n, parents, children);
      if parents == [] {
        return Crash;
      }
      var index := EntryAt(|ro|, rootIndex, i);
      HeadTakesChild(t, n, parents[0], rootIndex, |ro|);
      AddChildKeepsTree(t, parents[0], index);
      PushChild(parents, children, i);
      children := children + [i];
      t := AddChild(t, parents[0], index);
      i := i + 1;
    }
    return Generated(t);
  }

  lemma {:induction false} PushChild(parents: seq<nat>, children: seq<nat>, i: nat)
    requires Queues(parents, children, i)
    ensures Queues(parents, children + [i], i + 1)
  {
  }

  /**
   The roster is gone through once, from the root to its end and then from its start, and
   node j is the child of the node p with n * p < j <= n * p + n, or of the root if n < 0.
   */
  ghost predicate FromRootOn(t: seq<Node>, n: int, rootIndex: nat, len: nat) {
    && (forall j: nat :: j < |t| ==>
         t[j].rosterIndex == if rootIndex + j < len then rootIndex + j else rootIndex + j - len)
    && (forall j: nat :: 0 < j < |t| ==>
         if n < 0 then t[j].parent == 0 else n * t[j].parent < j <= n * t[j].parent + n)
  }

  lemma {:induction false} LayoutMeans(t: seq<Node>, n: int, rootIndex: nat, len: nat)
    requires rootIndex < len && |t| <= len && Layout(t, n, rootIndex, len)
    ensures FromRootOn(t, n, rootIndex, len)
  {
    forall j: nat | j < |t|
      ensures t[j].rosterIndex == if rootIndex + j < len then rootIndex + j else rootIndex + j - len
    {
      DivUnique(j + rootIndex, len, if j + rootIndex < len then 0 else 1);
    }
    forall j: nat | 0 < j < |t|
      ensures if n < 0 then t[j].parent == 0 else n * t[j].parent < j <= n * t[j].parent + n
    {
      if n > 0 {
        DivBounds(j - 1, n);
      }
    }
  }

  /**
   The root is found by its id; without one, the first server is the root. The
   generator crashes on an empty roster without a root and on n == 0 with more
   than one server.
   */
  method GenerateNaryTreeWithRoot<P>(ro: seq<Server<P>>, n: int, root: Option<nat>) returns (r: Outcome)
    ensures r.NoSuchRoot? <==> root.Some? && Search(ro, root.value) < 0
    ensures r.Crash? <==> (root.None? && ro == []) || (n == 0 && |ro| >= 2 && !r.NoSuchRoot?)
    ensures r.Generated? ==>
              var rootIndex := if root.Some? then Search(ro, root.value) else 0;
              && IsTree(r.tree) && |r.tree| == |ro|
              && Layout(r.tree, n, rootIndex, |ro|) && FromRootOn(r.tree, n, rootIndex, |ro|)
  {
    var rootIndex := 0;
    if root.Some? {
      rootIndex := Search(ro, root.value);
      if rootIndex < 0 {
        return NoSuchRoot;
      }
    } else if ro == [] {
      return Crash;
    }
    r := GrowTree(ro, n, rootIndex);
    hide IsTree, Layout, FromRootOn;
    if r.Generated? {
      LayoutMeans(r.tree, n, rootIndex, |ro|);
    }
  }
}
