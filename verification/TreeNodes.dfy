/**
 Finished trees as values: a node with its server, its place in the roster, the
 id of its parent and its children, and the aggregate key of its subtree.
 */
module TreeNodes {
  import opened Wrappers
  import opened Arena
  import opened Keys

  datatype TreeNode<P> = TreeNode(id: nat, server: Server<P>, rosterIndex: nat, parent: Option<nat>,
                                  children: seq<TreeNode<P>>, aggregate: Option<P>)

  // ----- Visit: depth first, a node before its children

  function Visit<P>(tn: TreeNode<P>): seq<TreeNode<P>>
    decreases tn, 1
  {
    [tn] + VisitAll(tn.children)
  }

  function VisitAll<P>(tns: seq<TreeNode<P>>): seq<TreeNode<P>>
    decreases tns, 0
  {
    if tns == [] then [] else Visit(tns[0]) + VisitAll(tns[1..])
  }

  function Publics<P>(tns: seq<TreeNode<P>>): seq<P> {
    seq(|tns|, i requires 0 <= i < |tns| => tns[i].server.public)
  }

  /** The keys of a subtree, added in the order of Visit. */
  function AggregatePublic<P>(g: Group<P>, tn: TreeNode<P>): P {
    Sum(g, Publics(Visit(tn)))
  }

  // ----- computeSubtreeAggregate: every node gets its key plus its children's aggregates

  function ComputeAggregates<P>(g: Group<P>, tn: TreeNode<P>): (r: TreeNode<P>)
    ensures r.aggregate.Some?
    decreases tn, 1
  {
    var children := ComputeAll(g, tn.children);
    tn.(children := children, aggregate := Some(AddAll(g, tn.server.public, children)))
  }

  function ComputeAll<P>(g: Group<P>, tns: seq<TreeNode<P>>): (r: seq<TreeNode<P>>)
    ensures forall i :: 0 <= i < |r| ==> r[i].aggregate.Some?
    decreases tns, 0
  {
    if tns == [] then [] else [ComputeAggregates(g, tns[0])] + ComputeAll(g, tns[1..])
  }

  /** `acc` plus the stored aggregates of the given nodes, from left to right. */
  function AddAll<P>(g: Group<P>, acc: P, tns: seq<TreeNode<P>>): P
    requires forall i :: 0 <= i < |tns| ==> tns[i].aggregate.Some?
  {
    if tns == [] then acc else AddAll(g, g.add(acc, tns[0].aggregate.value), tns[1..])
  }

  /** Every node of the subtree stores the sum of the keys that Visit reaches from it. */
  ghost predicate Aggregated<P>(g: Group<P>, tn: TreeNode<P>)
    decreases tn, 1
  {
    tn.aggregate == Some(AggregatePublic(g, tn)) && AggregatedAll(g, tn.children)
  }

  ghost predicate AggregatedAll<P>(g: Group<P>, tns: seq<TreeNode<P>>)
    decreases tns, 0
  {
    tns == [] || (Aggregated(g, tns[0]) && AggregatedAll(g, tns[1..]))
  }

  lemma {:induction false} PublicsAppend<P>(a: seq<TreeNode<P>>, b: seq<TreeNode<P>>)
    ensures Publics(a + b) == Publics(a) + Publics(b)
  {
  }

  lemma {:induction false} ComputeIsVisitSum<P(!new)>(g: Group<P>, tn: TreeNode<P>)
    requires Commutative(g)
    ensures Aggregated(g, ComputeAggregates(g, tn))
    ensures Publics(Visit(ComputeAggregates(g, tn))) == Publics(Visit(tn))
    decreases tn, 1
  {
    var r := ComputeAggregates(g, tn);
    ComputeAllIsVisitSum(g, tn.server.public, tn.children);
    SumOne(g, tn.server.public);
    SumAppend(g, [tn.server.public], Publics(VisitAll(r.children)));
    PublicsAppend([r], VisitAll(r.children));
    PublicsAppend([tn], VisitAll(tn.children));
    assert Publics([r]) == [tn.server.public] == Publics([tn]);
  }

  /** The aggregate that a node gets is the sum of the keys of its visit. */
  lemma {:induction false} AggregateIs<P(!new)>(g: Group<P>, tn: TreeNode<P>)
    requires Commutative(g)
    ensures ComputeAggregates(g, tn).aggregate == Some(Sum(g, Publics(Visit(tn))))
  {
    ComputeIsVisitSum(g, tn);
    var r := ComputeAggregates(g, tn);
    hide ComputeAggregates, Visit, Sum, Publics, Commutative;
    assert Aggregated(g, r);
  }

  lemma {:induction false} ComputeAllIsVisitSum<P(!new)>(g: Group<P>, acc: P, tns: seq<TreeNode<P>>)
    requires Commutative(g)
    ensures AggregatedAll(g, ComputeAll(g, tns))
    ensures Publics(VisitAll(ComputeAll(g, tns))) == Publics(VisitAll(tns))
    ensures AddAll(g, acc, ComputeAll(g, tns)) == g.add(acc, Sum(g, Publics(VisitAll(tns))))
    decreases tns, 0
  {
    if tns == [] {
      assert g.add(acc, g.zero) == g.add(g.zero, acc) == acc;
    } else {
      var first, rest := ComputeAggregates(g, tns[0]), ComputeAll(g, tns[1..]);
      var all := ComputeAll(g, tns);
      assert all[0] == first && all[1..] == rest;
      ComputeIsVisitSum(g, tns[0]);
      var acc' := g.add(acc, first.aggregate.value);
      ComputeAllIsVisitSum(g, acc', tns[1..]);
      PublicsAppend(Visit(first), VisitAll(rest));
      PublicsAppend(Visit(tns[0]), VisitAll(tns[1..]));
      var a, b := Publics(Visit(tns[0])), Publics(VisitAll(tns[1..]));
      SumAppend(g, a, b);
      assert g.add(g.add(acc, Sum(g, a)), Sum(g, b)) == g.add(acc, g.add(Sum(g, a), Sum(g, b)));
    }
  }

  /** The keys of the roster, in order. */
  function PublicsOf<P>(ro: seq<Server<P>>): seq<P> {
    seq(|ro|, e requires 0 <= e < |ro| => ro[e].public)
  }

  /** The aggregate key that NewRoster stores. */
  method RosterAggregate<P>(g: Group<P>, ro: seq<Server<P>>) returns (agg: P)
    ensures agg == Sum(g, PublicsOf(ro))
  {
    agg := g.zero;
    for i := 0 to |ro|
      invariant agg == Sum(g, PublicsOf(ro)[..i])
    {
      agg := g.add(agg, ro[i].public);
      assert PublicsOf(ro)[..i + 1][..i] == PublicsOf(ro)[..i];
    }
    assert PublicsOf(ro)[..|ro|] == PublicsOf(ro);
  }
}
