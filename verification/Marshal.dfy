/**
 The form in which a tree is sent: ids only, no servers and no parent links.
 MakeTree looks the servers up again in a roster.
 */
module Marshal {
  import opened Wrappers
  import opened Arena
  import opened Keys
  import opened TreeNodes

  datatype Roster<P> = Roster(id: nat, list: seq<Server<P>>)

  datatype Tree<P> = Tree(id: nat, roster: Option<Roster<P>>, root: TreeNode<P>)

  /** The id that no tree, roster, node or server has. */
  const NIL_ID: nat := 0

  datatype TreeMarshal = TreeMarshal(treeNodeId: nat, treeId: nat, serverId: nat, rosterId: nat,
                                     children: seq<TreeMarshal>)

  datatype Made<P> = WrongRoster | NoRoot | UnknownServer | Made(tree: Tree<P>)

  // ----- sending

  function CopyTree<P>(tn: TreeNode<P>): TreeMarshal
    decreases tn, 1
  {
    TreeMarshal(tn.id, NIL_ID, tn.server.id, NIL_ID, CopyTrees(tn.children))
  }

  function CopyTrees<P>(tns: seq<TreeNode<P>>): seq<TreeMarshal>
    decreases tns, 0
  {
    if tns == [] then [] else [CopyTree(tns[0])] + CopyTrees(tns[1..])
  }

  function MakeTreeMarshal<P>(t: Tree<P>): TreeMarshal {
    if t.roster.None? then TreeMarshal(NIL_ID, NIL_ID, NIL_ID, NIL_ID, [])
    else TreeMarshal(NIL_ID, t.id, NIL_ID, t.roster.value.id, [CopyTree(t.root)])
  }

  // ----- receiving

  function MakeTreeFromList<P>(tm: TreeMarshal, parent: Option<nat>, ro: seq<Server<P>>): Option<TreeNode<P>>
    decreases tm, 1
  {
    var idx := Search(ro, tm.serverId);
    if idx < 0 then None
    else
      var children := MakeTreesFromList(tm.children, Some(tm.treeNodeId), ro);
      if children.None? then None
      else Some(TreeNode(tm.treeNodeId, ro[idx], idx, parent, children.value, None))
  }

  function MakeTreesFromList<P>(tms: seq<TreeMarshal>, parent: Option<nat>, ro: seq<Server<P>>)
    : Option<seq<TreeNode<P>>>
    decreases tms, 0
  {
    if tms == [] then Some([])
    else
      var first := MakeTreeFromList(tms[0], parent, ro);
      if first.None? then None
      else
        var rest := MakeTreesFromList(tms[1..], parent, ro);
        if rest.None? then None else Some([first.value] + rest.value)
  }

  /** A marshalled tree without a root child crashes the source; here it is `NoRoot`. */
  function MakeTree<P>(g: Group<P>, tm: TreeMarshal, ro: Roster<P>): Made<P> {
    if ro.id != tm.rosterId then WrongRoster
    else if tm.children == [] then NoRoot
    else
      var root := MakeTreeFromList(tm.children[0], None, ro.list);
      if root.None? then UnknownServer
      else Made(Tree(tm.treeId, Some(ro), ComputeAggregates(g, root.value)))
  }

  // ----- what a receiver can rebuild

  /** Every server id in the marshalled tree is in the roster. */
  predicate AllKnown<P>(tm: TreeMarshal, ro: seq<Server<P>>)
    decreases tm, 1
  {
    (exists i :: 0 <= i < |ro| && ro[i].id == tm.serverId) && AllKnownIn(tm.children, ro)
  }

  predicate AllKnownIn<P>(tms: seq<TreeMarshal>, ro: seq<Server<P>>)
    decreases tms, 0
  {
    tms == [] || (AllKnown(tms[0], ro) && AllKnownIn(tms[1..], ro))
  }

  lemma {:induction false} FailsOnUnknown<P>(tm: TreeMarshal, parent: Option<nat>, ro: seq<Server<P>>)
    ensures MakeTreeFromList(tm, parent, ro).Some? <==> AllKnown(tm, ro)
    decreases tm, 1
  {
    FailsOnUnknownIn(tm.children, Some(tm.treeNodeId), ro);
  }

  lemma {:induction false} FailsOnUnknownIn<P>(tms: seq<TreeMarshal>, parent: Option<nat>, ro: seq<Server<P>>)
    ensures MakeTreesFromList(tms, parent, ro).Some? <==> AllKnownIn(tms, ro)
    decreases tms, 0
  {
    if tms != [] {
      FailsOnUnknown(tms[0], parent, ro);
      FailsOnUnknownIn(tms[1..], parent, ro);
    }
  }

  /** With the right roster and a root, MakeTree fails exactly on an unknown server. */
  lemma {:induction false} MakeTreeFails<P>(g: Group<P>, tm: TreeMarshal, ro: Roster<P>)
    requires ro.id == tm.rosterId && tm.children != []
    ensures MakeTree(g, tm, ro).UnknownServer? <==> !AllKnown(tm.children[0], ro.list)
    ensures MakeTree(g, tm, ro).Made? <==> AllKnown(tm.children[0], ro.list)
  {
    FailsOnUnknown(tm.children[0], None, ro.list);
  }

  // ----- the round trip

  /** Every node is the first roster entry with its server's id, and names its parent. */
  ghost predicate Placed<P>(tn: TreeNode<P>, parent: Option<nat>, ro: seq<Server<P>>)
    decreases tn, 1
  {
    && tn.parent == parent
    && tn.rosterIndex == Search(ro, tn.server.id)
    && ro[tn.rosterIndex] == tn.server
    && PlacedAll(tn.children, Some(tn.id), ro)
  }

  ghost predicate PlacedAll<P>(tns: seq<TreeNode<P>>, parent: Option<nat>, ro: seq<Server<P>>)
    decreases tns, 0
  {
    tns == [] || (Placed(tns[0], parent, ro) && PlacedAll(tns[1..], parent, ro))
  }

  /** The nodes without their stored aggregates. */
  function Bare<P>(tn: TreeNode<P>): TreeNode<P>
    decreases tn, 1
  {
    tn.(children := BareAll(tn.children), aggregate := None)
  }

  function BareAll<P>(tns: seq<TreeNode<P>>): seq<TreeNode<P>>
    decreases tns, 0
  {
    if tns == [] then [] else [Bare(tns[0])] + BareAll(tns[1..])
  }

  lemma {:induction false} RoundTripNode<P>(tn: TreeNode<P>, parent: Option<nat>, ro: seq<Server<P>>)
    ensures MakeTreeFromList(CopyTree(tn), parent, ro) == Some(Bare(tn)) <==> Placed(tn, parent, ro)
    decreases tn, 1
  {
    RoundTripNodes(tn.children, Some(tn.id), ro);
  }

  lemma {:induction false} RoundTripNodes<P>(tns: seq<TreeNode<P>>, parent: Option<nat>, ro: seq<Server<P>>)
    ensures MakeTreesFromList(CopyTrees(tns), parent, ro) == Some(BareAll(tns)) <==> PlacedAll(tns, parent, ro)
    decreases tns, 0
  {
    if tns != [] {
      RoundTripNode(tns[0], parent, ro);
      RoundTripNodes(tns[1..], parent, ro);
      var copies := CopyTrees(tns);
      assert copies[0] == CopyTree(tns[0]) && copies[1..] == CopyTrees(tns[1..]);
      var bare := BareAll(tns);
      assert bare[0] == Bare(tns[0]) && bare[1..] == BareAll(tns[1..]);
      var made := MakeTreesFromList(copies, parent, ro);
      if made.Some? {
        assert made.value[1..] == MakeTreesFromList(copies[1..], parent, ro).value;
      }
    }
  }

  lemma {:induction false} MadeIsBare<P>(tm: TreeMarshal, parent: Option<nat>, ro: seq<Server<P>>)
    ensures var made := MakeTreeFromList(tm, parent, ro);
            made.Some? ==> Bare(made.value) == made.value
    decreases tm, 1
  {
    MadeAllBare(tm.children, Some(tm.treeNodeId), ro);
  }

  lemma {:induction false} MadeAllBare<P>(tms: seq<TreeMarshal>, parent: Option<nat>, ro: seq<Server<P>>)
    ensures var made := MakeTreesFromList(tms, parent, ro);
            made.Some? ==> BareAll(made.value) == made.value
    decreases tms, 0
  {
    if tms != [] {
      MadeIsBare(tms[0], parent, ro);
      MadeAllBare(tms[1..], parent, ro);
      var made := MakeTreesFromList(tms, parent, ro);
      if made.Some? {
        assert made.value[1..] == MakeTreesFromList(tms[1..], parent, ro).value;
      }
    }
  }

  lemma {:induction false} ComputeKeepsBare<P>(g: Group<P>, tn: TreeNode<P>)
    ensures Bare(ComputeAggregates(g, tn)) == Bare(tn)
    decreases tn, 1
  {
    ComputeAllKeepsBare(g, tn.children);
  }

  lemma {:induction false} ComputeAllKeepsBare<P>(g: Group<P>, tns: seq<TreeNode<P>>)
    ensures BareAll(ComputeAll(g, tns)) == BareAll(tns)
    decreases tns, 0
  {
    if tns != [] {
      ComputeKeepsBare(g, tns[0]);
      ComputeAllKeepsBare(g, tns[1..]);
      assert ComputeAll(g, tns)[1..] == ComputeAll(g, tns[1..]);
    }
  }

  /**
   Sending a tree and rebuilding it over the same roster gives back exactly that
   tree, with indices, parent links and aggregates, if and only if every node is
   placed at the first roster entry with its server's id.
   */
  lemma {:induction false} RoundTrip<P>(g: Group<P>, t: Tree<P>, ro: Roster<P>)
    requires t.roster == Some(ro) && t.root == ComputeAggregates(g, Bare(t.root))
    ensures MakeTree(g, MakeTreeMarshal(t), ro) == Made(t) <==> Placed(t.root, None, ro.list)
  {
    RoundTripNode(t.root, None, ro.list);
    var made := MakeTreeFromList(CopyTree(t.root), None, ro.list);
    if made.Some? {
      MadeIsBare(CopyTree(t.root), None, ro.list);
      ComputeKeepsBare(g, made.value);
    }
  }

  /** Parent links are right and every node holds the server at its roster index. */
  ghost predicate Indexed<P>(tn: TreeNode<P>, parent: Option<nat>, ro: seq<Server<P>>)
    decreases tn, 1
  {
    && tn.parent == parent
    && tn.rosterIndex < |ro|
    && ro[tn.rosterIndex] == tn.server
    && IndexedAll(tn.children, Some(tn.id), ro)
  }

  ghost predicate IndexedAll<P>(tns: seq<TreeNode<P>>, parent: Option<nat>, ro: seq<Server<P>>)
    decreases tns, 0
  {
    tns == [] || (Indexed(tns[0], parent, ro) && IndexedAll(tns[1..], parent, ro))
  }

  /** Over a roster with distinct ids, right indices are all that is needed. */
  lemma {:induction false} IndexedIsPlaced<P>(tn: TreeNode<P>, parent: Option<nat>, ro: seq<Server<P>>)
    requires forall i, j :: 0 <= i < j < |ro| ==> ro[i].id != ro[j].id
    ensures Placed(tn, parent, ro) <==> Indexed(tn, parent, ro)
    decreases tn, 1
  {
    IndexedAllPlaced(tn.children, Some(tn.id), ro);
  }

  lemma {:induction false} IndexedAllPlaced<P>(tns: seq<TreeNode<P>>, parent: Option<nat>, ro: seq<Server<P>>)
    requires forall i, j :: 0 <= i < j < |ro| ==> ro[i].id != ro[j].id
    ensures PlacedAll(tns, parent, ro) <==> IndexedAll(tns, parent, ro)
    decreases tns, 0
  {
    if tns != [] {
      IndexedIsPlaced(tns[0], parent, ro);
      IndexedAllPlaced(tns[1..], parent, ro);
    }
  }

  // ----- Equal compares ids and shape only

  predicate NodeEqual<P>(a: TreeNode<P>, b: TreeNode<P>)
    decreases a, 1
  {
    && a.id == b.id
    && a.server.id == b.server.id
    && |a.children| == |b.children|
    && NodesEqual(a.children, b.children)
  }

  predicate NodesEqual<P>(a: seq<TreeNode<P>>, b: seq<TreeNode<P>>)
    requires |a| == |b|
    decreases a, 0
  {
    a == [] || (NodeEqual(a[0], b[0]) && NodesEqual(a[1..], b[1..]))
  }

  predicate TreeEqual<P>(a: Tree<P>, b: Tree<P>) {
    && a.roster.Some? && b.roster.Some?
    && a.id == b.id
    && a.roster.value.id == b.roster.value.id
    && NodeEqual(a.root, b.root)
  }

  lemma {:induction false} NodeEqualIff<P>(a: TreeNode<P>, b: TreeNode<P>)
    ensures NodeEqual(a, b) <==> CopyTree(a) == CopyTree(b)
    decreases a, 1
  {
    NodesEqualIff(a.children, b.children);
  }

  lemma {:induction false} NodesEqualIff<P>(a: seq<TreeNode<P>>, b: seq<TreeNode<P>>)
    ensures |a| == |b| && NodesEqual(a, b) <==> CopyTrees(a) == CopyTrees(b)
    decreases a, 0
  {
    if a != [] && b != [] {
      NodeEqualIff(a[0], b[0]);
      NodesEqualIff(a[1..], b[1..]);
      var x, y := CopyTrees(a), CopyTrees(b);
      assert x[0] == CopyTree(a[0]) && x[1..] == CopyTrees(a[1..]);
      assert y[0] == CopyTree(b[0]) && y[1..] == CopyTrees(b[1..]);
      assert x == y <==> x[0] == y[0] && x[1..] == y[1..] by {
        assert x == [x[0]] + x[1..] && y == [y[0]] + y[1..];
      }
    }
  }

  /** Two trees are Equal if and only if they have rosters of one id, the same id, and nodes that are sent alike. */
  lemma {:induction false} EqualIff<P>(a: Tree<P>, b: Tree<P>)
    ensures TreeEqual(a, b) <==>
            && a.roster.Some? && b.roster.Some? && a.roster.value.id == b.roster.value.id
            && a.id == b.id && CopyTree(a.root) == CopyTree(b.root)
  {
    NodeEqualIff(a.root, b.root);
  }

  lemma {:induction false} MadeEqual<P>(g: Group<P>, tn: TreeNode<P>, parent: Option<nat>, ro: seq<Server<P>>)
    ensures var made := MakeTreeFromList(CopyTree(tn), parent, ro);
            made.Some? ==> NodeEqual(tn, ComputeAggregates(g, made.value))
    decreases tn, 1
  {
    MadeAllEqual(g, tn.children, Some(tn.id), ro);
  }

  lemma {:induction false} MadeAllEqual<P>(g: Group<P>, tns: seq<TreeNode<P>>, parent: Option<nat>, ro: seq<Server<P>>)
    ensures var made := MakeTreesFromList(CopyTrees(tns), parent, ro);
            made.Some? ==> |ComputeAll(g, made.value)| == |tns| && NodesEqual(tns, ComputeAll(g, made.value))
    decreases tns, 0
  {
    if tns != [] {
      MadeEqual(g, tns[0], parent, ro);
      MadeAllEqual(g, tns[1..], parent, ro);
      var copies := CopyTrees(tns);
      assert copies[0] == CopyTree(tns[0]) && copies[1..] == CopyTrees(tns[1..]);
      var made := MakeTreesFromList(copies, parent, ro);
      if made.Some? {
        var rest := MakeTreesFromList(copies[1..], parent, ro).value;
        assert made.value[1..] == rest;
        assert ComputeAll(g, made.value)[1..] == ComputeAll(g, rest);
      }
    }
  }

  /** Whatever the receiver rebuilds over a roster with the same id is Equal to what was sent. */
  lemma {:induction false} RebuiltIsEqual<P>(g: Group<P>, t: Tree<P>, ro: Roster<P>)
    requires t.roster.Some?
    ensures var made := MakeTree(g, MakeTreeMarshal(t), ro);
            made.Made? ==> TreeEqual(t, made.tree)
  {
    MadeEqual(g, t.root, None, ro.list);
  }
}
