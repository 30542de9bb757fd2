/** Which nodes a parallel request is offered, and how many workers ask them. */
module NodeList {
  import opened Wrappers
  import opened Arith
  import opened Arena

  datatype Options<N> = Options(parallel: int, askNodes: int, startNode: int, ignoreNodes: set<N>, dontShuffle: bool)

  /** `p` names each of the positions below `n` once. */
  ghost predicate IsPermutation(p: seq<nat>, n: nat) {
    && |p| == n
    && (forall i :: 0 <= i < n ==> p[i] < n)
    && (forall i, j :: 0 <= i < j < n ==> p[i] != p[j])
  }

  function StartOf<N>(po: Option<Options<N>>, n: nat): nat {
    if po.Some? && 0 < po.value.startNode < n then po.value.startNode else 0
  }

  /** How many nodes are to be asked. */
  function AskOf<N>(po: Option<Options<N>>, n: nat): nat {
    if po.Some? && 0 < po.value.askNodes < n then po.value.askNodes else n - StartOf(po, n)
  }

  predicate Allowed<N>(po: Option<Options<N>>, node: N) {
    po.None? || node !in po.value.ignoreNodes
  }

  function Identity(n: nat): seq<nat> {
    seq(n, i requires 0 <= i < n => i)
  }

  /** The order in which positions are tried: shuffled, then moved on by the start. */
  function OrderOf<N>(po: Option<Options<N>>, n: nat, shuffle: seq<nat>): seq<nat>
    requires |shuffle| == n
  {
    var perm := if po.Some? && po.value.dontShuffle then Identity(n) else shuffle;
    seq(n, i requires 0 <= i < n => (StartOf(po, n) + perm[i]) % n)
  }

  /** The positions of allowed nodes among the first `k` that are tried. */
  function Candidates<N>(po: Option<Options<N>>, nodes: seq<N>, order: seq<nat>, k: nat): seq<nat>
    requires k <= |order| && forall i :: 0 <= i < |order| ==> order[i] < |nodes|
  {
    if k == 0 then []
    else if Allowed(po, nodes[order[k - 1]]) then Candidates(po, nodes, order, k - 1) + [order[k - 1]]
    else Candidates(po, nodes, order, k - 1)
  }

  lemma {:induction false} ShiftDistinct(start: nat, a: nat, b: nat, n: nat)
    requires start < n && a < n && b < n && a != b
    ensures (start + a) % n < n && (start + a) % n != (start + b) % n
  {
    DivUnique(start + a, n, if start + a < n then 0 else 1);
    DivUnique(start + b, n, if start + b < n then 0 else 1);
  }

  lemma {:induction false} OrderIsPermutation<N>(po: Option<Options<N>>, n: nat, shuffle: seq<nat>)
    requires IsPermutation(shuffle, n)
    ensures IsPermutation(OrderOf(po, n, shuffle), n)
  {
    var perm := if po.Some? && po.value.dontShuffle then Identity(n) else shuffle;
    forall i, j | 0 <= i < n && 0 <= j < n && i != j
      ensures perm[i] < n && perm[i] != perm[j]
    {
    }
    var order := OrderOf(po, n, shuffle);
    forall i | 0 <= i < n
      ensures order[i] < n
    {
    }
    forall i, j | 0 <= i < j < n
      ensures order[i] != order[j]
    {
      ShiftDistinct(StartOf(po, n), perm[i], perm[j], n);
    }
  }

  ghost predicate AllDistinct(c: seq<nat>) {
    forall i, j :: 0 <= i < j < |c| ==> c[i] != c[j]
  }

  ghost predicate AllAllowed<N>(po: Option<Options<N>>, nodes: seq<N>, order: seq<nat>, k: nat, c: seq<nat>)
    requires k <= |order|
  {
    forall i :: 0 <= i < |c| ==> c[i] in order[..k] && c[i] < |nodes| && Allowed(po, nodes[c[i]])
  }

  /** Candidates are distinct positions of allowed nodes. */
  lemma {:induction false} CandidatesDistinct<N>(po: Option<Options<N>>, nodes: seq<N>, order: seq<nat>, k: nat)
    requires IsPermutation(order, |nodes|) && k <= |order|
    ensures AllDistinct(Candidates(po, nodes, order, k))
    ensures AllAllowed(po, nodes, order, k, Candidates(po, nodes, order, k))
  {
    if k > 0 {
      CandidatesDistinct(po, nodes, order, k - 1);
      var x := order[k - 1];
      var c, d := Candidates(po, nodes, order, k), Candidates(po, nodes, order, k - 1);
      assert order[..k] == order[..k - 1] + [x];
      assert x !in order[..k - 1];
      forall i | 0 <= i < |d| ensures d[i] in order[..k - 1] && d[i] in order[..k] && d[i] != x {
      }
    }
  }

  /** No allowed node is left out. */
  lemma {:induction false} CandidatesCover<N>(po: Option<Options<N>>, nodes: seq<N>, order: seq<nat>, k: nat, i: nat)
    requires IsPermutation(order, |nodes|) && i < k <= |order| && Allowed(po, nodes[order[i]])
    ensures order[i] in Candidates(po, nodes, order, k)
  {
    if i < k - 1 {
      CandidatesCover(po, nodes, order, k - 1, i);
    }
  }

  lemma {:induction false} CandidatesPrefix<N>(po: Option<Options<N>>, nodes: seq<N>, order: seq<nat>, j: nat, k: nat)
    requires j <= k <= |order| && forall i :: 0 <= i < |order| ==> order[i] < |nodes|
    ensures Candidates(po, nodes, order, j) <= Candidates(po, nodes, order, k)
  {
    if j < k {
      CandidatesPrefix(po, nodes, order, j, k - 1);
    }
  }

  /** How many workers to start: at least one if there is a node, at most one for every node to ask. */
  method GetParallel<N(==)>(po: Option<Options<N>>, n: nat) returns (parallel: nat, askNodes: nat, startNode: nat)
    ensures askNodes == AskOf(po, n) && startNode == StartOf(po, n)
    ensures n == 0 ==> parallel == 0
    ensures n > 0 ==> 1 <= parallel <= askNodes <= n
    ensures parallel <= (n + 1) / 2 && (po.Some? && 0 < po.value.parallel ==> parallel <= po.value.parallel)
    ensures po.Some? && 0 < po.value.parallel <= askNodes && po.value.parallel <= (n + 1) / 2 ==>
              parallel == po.value.parallel
    ensures parallel == (n + 1) / 2 || parallel == askNodes || (po.Some? && parallel == po.value.parallel)
    ensures po.None? ==> parallel == (n + 1) / 2
  {
    parallel := (n + 1) / 2;
    askNodes := n;
    startNode := 0;
    if po.Some? {
      if po.value.parallel > 0 && po.value.parallel < parallel {
        parallel := po.value.parallel;
      }
      if po.value.startNode > 0 && po.value.startNode < n {
        startNode := po.value.startNode;
        askNodes := askNodes - startNode;
      }
      if po.value.askNodes > 0 && po.value.askNodes < n {
        askNodes := po.value.askNodes;
      }
      if askNodes < parallel {
        parallel := askNodes;
      }
    }
  }

  /** `chan` holds the nodes at `positions`: the first allowed ones in the order of trial. */
  ghost predicate Offered<N>(po: Option<Options<N>>, nodes: seq<N>, order: seq<nat>, ask: nat,
                             chan: seq<N>, positions: seq<nat>)
    requires forall i :: 0 <= i < |order| ==> order[i] < |nodes|
  {
    var all := Candidates(po, nodes, order, |order|);
    && |chan| == |positions| == (if |all| < ask then |all| else ask)
    && positions == all[..|positions|]
    && (forall i :: 0 <= i < |positions| ==> positions[i] < |nodes| && chan[i] == nodes[positions[i]])
  }

  /** The positions offered are those of the trials below `end` at which the node is not ignored. */
  ghost predicate Tried<N>(po: Option<Options<N>>, nodes: seq<N>, order: seq<nat>, end: nat,
                           positions: seq<nat>, trials: seq<nat>)
    requires forall i :: 0 <= i < |order| ==> order[i] < |nodes|
  {
    && end <= |order| && |trials| == |positions|
    && (forall i, j :: 0 <= i < j < |trials| ==> trials[i] < trials[j])
    && (forall i :: 0 <= i < |trials| ==>
         trials[i] < end && positions[i] == order[trials[i]] && Allowed(po, nodes[positions[i]]))
    && (forall k: nat :: k < end && k !in trials ==> !Allowed(po, nodes[order[k]]))
  }

  /** All are tried, or the last one that is gets the last place. */
  predicate Ended(order: seq<nat>, end: nat, ask: nat, trials: seq<nat>) {
    |trials| <= ask && (end == |order| || (|trials| == ask && ask > 0 && trials[ask - 1] == end - 1))
  }

  lemma {:induction false} TriedMore<N>(po: Option<Options<N>>, nodes: seq<N>, order: seq<nat>, end: nat,
                                        positions: seq<nat>, trials: seq<nat>)
    requires forall i :: 0 <= i < |order| ==> order[i] < |nodes|
    requires Tried(po, nodes, order, end, positions, trials) && end < |order|
    ensures if Allowed(po, nodes[order[end]])
            then Tried(po, nodes, order, end + 1, positions + [order[end]], trials + [end])
            else Tried(po, nodes, order, end + 1, positions, trials)
  {
    var more := trials + [end];
    assert forall k: nat :: k in more <==> k in trials || k == end;
  }

  /** After `end` trials the channel holds the nodes at the candidates. */
  ghost predicate Filled<N>(po: Option<Options<N>>, nodes: seq<N>, order: seq<nat>, end: nat,
                            chan: seq<N>, positions: seq<nat>)
    requires end <= |order| && forall i :: 0 <= i < |order| ==> order[i] < |nodes|
  {
    && |chan| == |positions| && positions == Candidates(po, nodes, order, end)
    && forall i :: 0 <= i < |positions| ==> positions[i] < |nodes| && chan[i] == nodes[positions[i]]
  }

  lemma {:induction false} FilledMore<N>(po: Option<Options<N>>, nodes: seq<N>, order: seq<nat>, end: nat,
                                         chan: seq<N>, positions: seq<nat>)
    requires forall i :: 0 <= i < |order| ==> order[i] < |nodes|
    requires end < |order| && Filled(po, nodes, order, end, chan, positions)
    ensures if Allowed(po, nodes[order[end]])
            then Filled(po, nodes, order, end + 1, chan + [nodes[order[end]]], positions + [order[end]])
            else Filled(po, nodes, order, end + 1, chan, positions)
  {
  }

  lemma {:induction false} FilledIsOffered<N>(po: Option<Options<N>>, nodes: seq<N>, order: seq<nat>, end: nat,
                                              ask: nat, chan: seq<N>, positions: seq<nat>)
    requires forall i :: 0 <= i < |order| ==> order[i] < |nodes|
    requires end <= |order| && Filled(po, nodes, order, end, chan, positions) && |positions| <= ask
    requires end == |order| || |positions| == ask
    ensures Offered(po, nodes, order, ask, chan, positions)
  {
    CandidatesPrefix(po, nodes, order, end, |order|);
    hide Candidates;
  }

  /**
   The channel has room for the nodes to be asked and the loop stops once it is
   full, so no send waits.
   */
  method FillChan<N(==)>(po: Option<Options<N>>, nodes: seq<N>, order: seq<nat>, askNodes: nat)
    returns (nodesChan: seq<N>, positions: seq<nat>, ghost trials: seq<nat>)
    requires forall i :: 0 <= i < |order| ==> order[i] < |nodes|
    requires order != [] ==> askNodes > 0
    ensures Offered(po, nodes, order, askNodes, nodesChan, positions)
    ensures exists end: nat :: Tried(po, nodes, order, end, positions, trials) && Ended(order, end, askNodes, trials)
  {
    nodesChan, positions, trials := [], [], [];
    var i := 0;
    assert Filled(po, nodes, order, 0, nodesChan, positions) && Tried(po, nodes, order, 0, positions, trials);
    hide Filled, Tried, Offered, Candidates;
    while i < |order|
      invariant 0 <= i <= |order| && |nodesChan| == |positions| == |trials| <= askNodes
      invariant Filled(po, nodes, order, i, nodesChan, positions)
      invariant Tried(po, nodes, order, i, positions, trials)
      invariant i < |order| ==> |nodesChan| < askNodes
    {
      var node := nodes[order[i]];
      var addNode := !(po.Some? && node in po.value.ignoreNodes);
      FilledMore(po, nodes, order, i, nodesChan, positions);
      TriedMore(po, nodes, order, i, positions, trials);
      if addNode {
        assert |nodesChan| < askNodes;
        nodesChan, positions, trials := nodesChan + [node], positions + [order[i]], trials + [i];
      }
      i := i + 1;
      if |nodesChan| == askNodes {
        assert trials[askNodes - 1] == i - 1;
        break;
      }
    }
    assert Ended(order, i, askNodes, trials);
    hide Ended;
    FilledIsOffered(po, nodes, order, i, askNodes, nodesChan, positions);
  }

  lemma {:induction false} OfferedDistinct<N>(po: Option<Options<N>>, nodes: seq<N>, order: seq<nat>, ask: nat,
                                              chan: seq<N>, positions: seq<nat>)
    requires IsPermutation(order, |nodes|) && Offered(po, nodes, order, ask, chan, positions)
    ensures AllDistinct(positions) && forall i :: 0 <= i < |chan| ==> Allowed(po, chan[i])
  {
    var all := Candidates(po, nodes, order, |order|);
    CandidatesDistinct(po, nodes, order, |order|);
    hide Candidates, Allowed;
    assert forall i :: 0 <= i < |positions| ==> positions[i] == all[i];
    forall i | 0 <= i < |chan| ensures Allowed(po, chan[i]) {
      assert all[i] in order && chan[i] == nodes[positions[i]];
    }
  }

  /** The position of trial k: in the order of the roster or of the permutation, moved on by the start. */
  ghost predicate PositionOf<N>(po: Option<Options<N>>, n: nat, shuffle: seq<nat>, k: nat, position: nat)
    requires k < n == |shuffle|
  {
    var start: nat := if po.Some? && 0 < po.value.startNode < n then po.value.startNode else 0;
    var chosen := if po.Some? && po.value.dontShuffle then k else shuffle[k];
    position == (start + chosen) % n
  }

  /** How many nodes are to be asked: as many as set, or all from the start on. */
  ghost predicate ToAsk<N>(po: Option<Options<N>>, n: nat, ask: nat) {
    if po.Some? && 0 < po.value.askNodes < n then ask == po.value.askNodes
    else if po.Some? && 0 < po.value.startNode < n then ask == n - po.value.startNode
    else ask == n
  }

  /**
   The nodes offered, by the fields of the options: at increasing trials, each at its
   position, until there are enough or no trial is left; only ignored nodes are passed over.
   */
  ghost predicate OfferedAs<N>(po: Option<Options<N>>, nodes: seq<N>, shuffle: seq<nat>, ask: nat,
                               positions: seq<nat>, trials: seq<nat>)
    requires |shuffle| == |nodes|
  {
    && ToAsk(po, |nodes|, ask)
    && |positions| == |trials| <= ask
    && (forall i, j :: 0 <= i < j < |trials| ==> trials[i] < trials[j])
    && (forall i :: 0 <= i < |trials| ==>
         && trials[i] < |nodes| && PositionOf(po, |nodes|, shuffle, trials[i], positions[i])
         && positions[i] < |nodes| && (po.Some? ==> nodes[positions[i]] !in po.value.ignoreNodes))
    && (forall k: nat, position: nat ::
         k < |nodes| && position < |nodes| && PositionOf(po, |nodes|, shuffle, k, position)
         && k !in trials && (|trials| < ask || (trials != [] && k < trials[|trials| - 1])) ==>
           po.Some? && nodes[position] in po.value.ignoreNodes)
  }

  lemma {:induction false} OrderHas<N>(po: Option<Options<N>>, n: nat, shuffle: seq<nat>, k: nat, position: nat)
    requires k < n == |shuffle|
    ensures PositionOf(po, n, shuffle, k, position) <==> position == OrderOf(po, n, shuffle)[k]
  {
    var perm := if po.Some? && po.value.dontShuffle then Identity(n) else shuffle;
    assert perm[k] == if po.Some? && po.value.dontShuffle then k else shuffle[k];
    assert OrderOf(po, n, shuffle)[k] == (StartOf(po, n) + perm[k]) % n;
    hide OrderOf, Identity;
  }

  lemma {:induction false} AskIs<N>(po: Option<Options<N>>, n: nat)
    ensures ToAsk(po, n, AskOf(po, n))
  {
  }

  lemma {:induction false} OfferedFields<N>(po: Option<Options<N>>, nodes: seq<N>, shuffle: seq<nat>,
                                            positions: seq<nat>, trials: seq<nat>, end: nat)
    requires IsPermutation(shuffle, |nodes|) && IsPermutation(OrderOf(po, |nodes|, shuffle), |nodes|)
    requires Tried(po, nodes, OrderOf(po, |nodes|, shuffle), end, positions, trials)
    requires Ended(OrderOf(po, |nodes|, shuffle), end, AskOf(po, |nodes|), trials)
    ensures OfferedAs(po, nodes, shuffle, AskOf(po, |nodes|), positions, trials)
  {
    var order := OrderOf(po, |nodes|, shuffle);
    AskIs(po, |nodes|);
    forall k: nat, position: nat | k < |nodes|
      ensures PositionOf(po, |nodes|, shuffle, k, position) <==> position == order[k]
    {
      OrderHas(po, |nodes|, shuffle, k, position);
    }
    hide PositionOf, ToAsk, OrderOf, AskOf, IsPermutation;
  }

  /** If no node is ignored, the trials are the first ones, as many as are to be asked. */
  lemma {:induction false} NothingIgnored<N>(po: Option<Options<N>>, nodes: seq<N>, shuffle: seq<nat>, ask: nat,
                                             positions: seq<nat>, trials: seq<nat>)
    requires IsPermutation(shuffle, |nodes|) && OfferedAs(po, nodes, shuffle, ask, positions, trials)
    requires po.None? || forall i :: 0 <= i < |nodes| ==> nodes[i] !in po.value.ignoreNodes
    ensures |positions| == ask
    ensures forall i :: 0 <= i < |positions| ==> i < |nodes| && PositionOf(po, |nodes|, shuffle, i, positions[i])
  {
    forall k: nat | k < |nodes| && k !in trials
      ensures |trials| == ask && (trials != [] ==> k >= trials[|trials| - 1])
    {
      var start: nat := if po.Some? && 0 < po.value.startNode < |nodes| then po.value.startNode else 0;
      var position := (start + if po.Some? && po.value.dontShuffle then k else shuffle[k]) % |nodes|;
      assert PositionOf(po, |nodes|, shuffle, k, position);
    }
    hide PositionOf, IsPermutation;
    forall i | 0 <= i < |trials| ensures trials[i] == i {
      FirstTrial(trials, |nodes|, i);
    }
    assert ask <= |nodes| && |trials| !in trials;
  }

  lemma {:induction false} FirstTrial(trials: seq<nat>, n: nat, i: nat)
    requires forall i, j :: 0 <= i < j < |trials| ==> trials[i] < trials[j]
    requires forall i :: 0 <= i < |trials| ==> trials[i] < n
    requires forall k: nat :: k < n && k !in trials && trials != [] ==> k >= trials[|trials| - 1]
    requires i < |trials|
    ensures trials[i] == i
  {
    forall j: nat | j < i ensures trials[j] == j {
      FirstTrial(trials, n, j);
    }
    assert trials[i] >= i by { assert i > 0 ==> trials[i - 1] < trials[i]; }
    assert trials[i] <= trials[|trials| - 1];
    if i in trials {
      var j :| 0 <= j < |trials| && trials[j] == i;
    }
  }

  /** GetList, with the random permutation given as `shuffle`. */
  method GetList<N(==)>(po: Option<Options<N>>, nodes: seq<N>, shuffle: seq<nat>)
    returns (parallel: nat, nodesChan: seq<N>, positions: seq<nat>, ghost trials: seq<nat>)
    requires IsPermutation(shuffle, |nodes|)
    ensures OfferedAs(po, nodes, shuffle, AskOf(po, |nodes|), positions, trials)
    ensures (po.None? || forall i :: 0 <= i < |nodes| ==> nodes[i] !in po.value.ignoreNodes) ==>
              && ToAsk(po, |nodes|, |positions|)
              && forall i :: 0 <= i < |positions| ==>
                   i < |nodes| && PositionOf(po, |nodes|, shuffle, i, positions[i])
    ensures nodes != [] ==> 1 <= parallel <= AskOf(po, |nodes|) <= |nodes|
    ensures IsPermutation(OrderOf(po, |nodes|, shuffle), |nodes|)
    ensures Offered(po, nodes, OrderOf(po, |nodes|, shuffle), AskOf(po, |nodes|), nodesChan, positions)
    ensures AllDistinct(positions) && forall i :: 0 <= i < |nodesChan| ==> Allowed(po, nodesChan[i])
  {
    var askNodes, startNode;
    parallel, askNodes, startNode := GetParallel(po, |nodes|);
    var order := OrderOf(po, |nodes|, shuffle);
    OrderIsPermutation(po, |nodes|, shuffle);
    nodesChan, positions, trials := FillChan(po, nodes, order, askNodes);
    ghost var end: nat :| Tried(po, nodes, order, end, positions, trials) && Ended(order, end, askNodes, trials);
    hide OrderOf, Tried, Ended, OfferedAs, PositionOf, ToAsk;
    OfferedFields(po, nodes, shuffle, positions, trials, end);
    if po.None? || forall i :: 0 <= i < |nodes| ==> nodes[i] !in po.value.ignoreNodes {
      NothingIgnored(po, nodes, shuffle, askNodes, positions, trials);
    }
    OfferedDistinct(po, nodes, order, askNodes, nodesChan, positions);
    hide Offered;
  }

  // ----- ignored nodes and the number of nodes to ask

  /** What is offered if ignored nodes count towards the number of nodes to ask. */
  function Documented<N>(po: Option<Options<N>>, nodes: seq<N>, order: seq<nat>, ask: nat): seq<nat>
    requires ask <= |order| && forall i :: 0 <= i < |order| ==> order[i] < |nodes|
  {
    Candidates(po, nodes, order, ask)
  }

  predicate IgnoredAt<N>(po: Option<Options<N>>, nodes: seq<N>, order: seq<nat>, i: nat)
    requires i < |order| && forall k :: 0 <= k < |order| ==> order[k] < |nodes|
  {
    !Allowed(po, nodes[order[i]])
  }

  ghost predicate AllIgnored<N>(po: Option<Options<N>>, nodes: seq<N>, order: seq<nat>, lo: nat, hi: nat)
    requires hi <= |order| && forall i :: 0 <= i < |order| ==> order[i] < |nodes|
  {
    forall i: nat :: lo <= i < hi ==> IgnoredAt(po, nodes, order, i)
  }

  ghost predicate NoneIgnored<N>(po: Option<Options<N>>, nodes: seq<N>, order: seq<nat>, hi: nat)
    requires hi <= |order| && forall i :: 0 <= i < |order| ==> order[i] < |nodes|
  {
    forall i: nat :: i < hi ==> !IgnoredAt(po, nodes, order, i)
  }

  lemma {:induction false} CandidatesFull<N>(po: Option<Options<N>>, nodes: seq<N>, order: seq<nat>, k: nat)
    requires k <= |order| && forall i :: 0 <= i < |order| ==> order[i] < |nodes|
    ensures |Candidates(po, nodes, order, k)| <= k
    ensures |Candidates(po, nodes, order, k)| == k <==> NoneIgnored(po, nodes, order, k)
  {
    if k > 0 {
      CandidatesFull(po, nodes, order, k - 1);
      assert NoneIgnored(po, nodes, order, k) <==>
             NoneIgnored(po, nodes, order, k - 1) && !IgnoredAt(po, nodes, order, k - 1);
    }
  }

  lemma {:induction false} CandidatesMore<N>(po: Option<Options<N>>, nodes: seq<N>, order: seq<nat>, j: nat, k: nat)
    requires j <= k <= |order| && forall i :: 0 <= i < |order| ==> order[i] < |nodes|
    ensures |Candidates(po, nodes, order, j)| <= |Candidates(po, nodes, order, k)|
    ensures |Candidates(po, nodes, order, j)| == |Candidates(po, nodes, order, k)|
            <==> AllIgnored(po, nodes, order, j, k)
  {
    if j < k {
      CandidatesMore(po, nodes, order, j, k - 1);
      assert AllIgnored(po, nodes, order, j, k) <==>
             AllIgnored(po, nodes, order, j, k - 1) && IgnoredAt(po, nodes, order, k - 1);
    }
  }

  /**
   What is offered is what is documented if and only if no ignored node is among the
   first `ask` that are tried, or only ignored ones come after them.
   */
  lemma {:induction false} DocumentedIff<N>(po: Option<Options<N>>, nodes: seq<N>, order: seq<nat>, ask: nat,
                                            chan: seq<N>, positions: seq<nat>)
    requires ask <= |order| && forall i :: 0 <= i < |order| ==> order[i] < |nodes|
    requires Offered(po, nodes, order, ask, chan, positions)
    ensures positions == Documented(po, nodes, order, ask) <==>
            NoneIgnored(po, nodes, order, ask) || AllIgnored(po, nodes, order, ask, |order|)
  {
    CandidatesPrefix(po, nodes, order, ask, |order|);
    CandidatesFull(po, nodes, order, ask);
    CandidatesMore(po, nodes, order, ask, |order|);
    hide Candidates, NoneIgnored, AllIgnored;
  }

  /** With the first of three nodes ignored and one to be asked, none is documented to be offered, and one is. */
  lemma {:induction false} IgnoredFirst(po: Option<Options<nat>>, nodes: seq<nat>, order: seq<nat>,
                                        chan: seq<nat>, positions: seq<nat>)
    requires po == Some(Options(0, 1, 0, {10}, true)) && nodes == [10, 11, 12] && order == [0, 1, 2]
    requires Offered(po, nodes, order, 1, chan, positions)
    ensures Documented(po, nodes, order, 1) == [] && chan == [11]
  {
    assert Candidates(po, nodes, order, 1) == [];
    assert Candidates(po, nodes, order, 2) == [1];
    assert Candidates(po, nodes, order, 3) == [1, 2];
  }

  // ----- when nobody is offered

  ghost function AsSet(p: seq<nat>): (e: set<nat>)
    ensures forall x :: x in e <==> x in p
  {
    if p == [] then {} else AsSet(p[..|p| - 1]) + {p[|p| - 1]}
  }

  lemma {:induction false} DistinctSize(p: seq<nat>)
    requires AllDistinct(p)
    ensures |AsSet(p)| == |p|
  {
    if p != [] {
      var n := |p| - 1;
      DistinctSize(p[..n]);
      assert p[n] !in p[..n];
    }
  }

  /** A permutation leaves no position out. */
  lemma {:induction false} WithoutOne(p: seq<nat>, n: nat, x: nat)
    requires IsPermutation(p, n) && x < n && x !in p
    ensures AsSet(p) <= Interval(0, n) - {x}
  {
    hide AsSet;
  }

  lemma {:induction false} PermutationCovers(p: seq<nat>, n: nat, x: nat)
    requires IsPermutation(p, n) && x < n
    ensures x in p
  {
    assert AllDistinct(p) && |p| == n;
    hide *;
    DistinctSize(p);
    if x !in p {
      WithoutOne(p, n, x);
      SubsetSize(AsSet(p), Interval(0, n) - {x});
    }
  }

  /** Nobody is offered if and only if every node is ignored or there is none. */
  lemma {:induction false} NobodyIff<N>(po: Option<Options<N>>, nodes: seq<N>, order: seq<nat>, ask: nat,
                                        chan: seq<N>, positions: seq<nat>)
    requires IsPermutation(order, |nodes|) && (nodes != [] ==> ask > 0)
    requires Offered(po, nodes, order, ask, chan, positions)
    ensures chan == [] <==> forall i :: 0 <= i < |nodes| ==> !Allowed(po, nodes[i])
  {
    CandidatesMore(po, nodes, order, 0, |order|);
    hide Candidates, IsPermutation;
    assert chan == [] <==> AllIgnored(po, nodes, order, 0, |order|);
    if AllIgnored(po, nodes, order, 0, |order|) {
      forall i | 0 <= i < |nodes| ensures !Allowed(po, nodes[i]) {
        PermutationCovers(order, |nodes|, i);
        var k: nat :| k < |order| && order[k] == i;
        assert IgnoredAt(po, nodes, order, k);
      }
    }
  }
}
