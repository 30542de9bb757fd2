/**
 The pattern behind Count and CloseAll, over an arbitrary tree: a prepare message
 goes down, and every node reports to its parent once, after it has a report from
 every child. Messages travel in bags: any order of delivery, and any loss.
 */
module Convergecast {
  import opened Arith
  import opened Arena
  import opened Keys
  import opened Aggregation

  datatype Report = Report(from: nat, value: int)

  /**
   - prepared: the nodes that handled the prepare message
   - sent: the nodes that reported, and what they reported
   - preps, reports: messages in flight; a prepare message is named by its receiver
   - queue: reports a node still holds back
   - ready: batches a node has not handled yet
   - lost: whether a message was ever lost
   */
  datatype Cast = Cast(prepared: set<nat>, sent: map<nat, int>, preps: multiset<nat>, reports: multiset<Report>,
                       queue: seq<seq<Report>>, ready: seq<seq<seq<Report>>>, lost: bool)

  datatype Event =
    | Prepare(node: nat)
    | Deliver(report: Report)
    | Handle(node: nat, value: int)
    | LosePrep(node: nat)
    | LoseReport(report: Report)

  function Start(t: seq<Node>): Cast {
    Cast({}, map[], multiset{}, multiset{}, seq(|t|, _ => []), seq(|t|, _ => []), false)
  }

  predicate Sized(t: seq<Node>, s: Cast) {
    |s.queue| == |t| && |s.ready| == |t|
  }

  /** Which events can happen; the root prepares when the protocol is started. */
  predicate Enabled(t: seq<Node>, s: Cast, e: Event) {
    Sized(t, s) &&
    match e
    case Prepare(v) => v < |t| && v !in s.sent && if v == 0 then 0 !in s.prepared else v in s.preps
    case Deliver(r) =>
      r in s.reports && 0 < r.from < |t| && 0 <= t[r.from].parent < |t| && t[r.from].parent !in s.sent
    case Handle(v, _) => v < |t| && v !in s.sent && s.ready[v] != []
    case LosePrep(v) => v in s.preps
    case LoseReport(r) => r in s.reports
  }

  /** A node passes the prepare message on; a leaf has nothing to wait for. */
  function DoPrepare(t: seq<Node>, s: Cast, v: nat): Cast
    requires Enabled(t, s, Prepare(v))
  {
    s.(prepared := s.prepared + {v},
       preps := s.preps - multiset{v} + multiset(t[v].children),
       ready := if t[v].children == [] then s.ready[v := s.ready[v] + [[]]] else s.ready)
  }

  function DoDeliver(t: seq<Node>, s: Cast, r: Report): Cast
    requires Enabled(t, s, Deliver(r))
  {
    var p: nat := t[r.from].parent;
    var (rest, batch) := Join(|t[p].children|, s.queue[p], r);
    s.(reports := s.reports - multiset{r},
       queue := s.queue[p := rest],
       ready := if batch.Some? then s.ready[p := s.ready[p] + [batch.value]] else s.ready)
  }

  /** A node handles its first batch and reports; the root has nobody to report to. */
  function DoHandle(t: seq<Node>, s: Cast, v: nat, value: int): Cast
    requires Enabled(t, s, Handle(v, value))
  {
    s.(sent := s.sent[v := value],
       ready := s.ready[v := s.ready[v][1..]],
       reports := if v == 0 then s.reports else s.reports + multiset{Report(v, value)})
  }

  /** An event that is not possible changes nothing. */
  function Step(t: seq<Node>, s: Cast, e: Event): Cast {
    if !Enabled(t, s, e) then s
    else
      match e
      case Prepare(v) => DoPrepare(t, s, v)
      case Deliver(r) => DoDeliver(t, s, r)
      case Handle(v, value) => DoHandle(t, s, v, value)
      case LosePrep(v) => s.(preps := s.preps - multiset{v}, lost := true)
      case LoseReport(r) => s.(reports := s.reports - multiset{r}, lost := true)
  }

  // ----- the invariant

  /** A prepare message is sent to `v` once, by a parent that is prepared. */
  ghost predicate PrepOnce(t: seq<Node>, s: Cast, v: nat)
    requires IsTree(t) && 0 < v < |t|
  {
    var given := if t[v].parent in s.prepared then 1 else 0;
    var seen := s.preps[v] + if v in s.prepared then 1 else 0;
    seen <= given && (!s.lost ==> seen == given)
  }

  ghost predicate PrepsOnce(t: seq<Node>, s: Cast)
    requires IsTree(t)
  {
    && s.preps[0] == 0
    && (forall v :: v in s.prepared || v in s.preps ==> v < |t|)
    && (forall v: nat :: 0 < v < |t| ==> PrepOnce(t, s, v))
  }

  /** `r` is what a child of `p` reported. */
  predicate FromChild(t: seq<Node>, sent: map<nat, int>, p: int, r: Report) {
    0 < r.from < |t| && t[r.from].parent == p && r.from in sent && r.value == sent[r.from]
  }

  predicate AllFromChildren(t: seq<Node>, sent: map<nat, int>, p: int, rs: seq<Report>) {
    forall i :: 0 <= i < |rs| ==> FromChild(t, sent, p, rs[i])
  }

  function Flat(bs: seq<seq<Report>>): seq<Report> {
    if bs == [] then [] else bs[0] + Flat(bs[1..])
  }

  /** How many copies of what `v` reported are in flight or at its parent. */
  ghost function Copies(t: seq<Node>, s: Cast, v: nat): nat
    requires IsTree(t) && Sized(t, s) && 0 < v < |t| && v in s.sent
  {
    var p := t[v].parent;
    var r := Report(v, s.sent[v]);
    s.reports[r] + multiset(s.queue[p])[r] + multiset(Flat(s.ready[p]))[r]
  }

  /** Every report in flight or at a node is what a child of the receiver reported. */
  ghost predicate ReportsTrue(t: seq<Node>, s: Cast) {
    && Sized(t, s)
    && (forall r :: r in s.reports ==> 0 < r.from < |t| && FromChild(t, s.sent, t[r.from].parent, r))
    && (forall p :: 0 <= p < |t| ==> AllFromChildren(t, s.sent, p, s.queue[p]))
    && (forall p :: 0 <= p < |t| ==> AllFromChildren(t, s.sent, p, Flat(s.ready[p])))
  }

  ghost predicate ReportsOnce(t: seq<Node>, s: Cast)
    requires IsTree(t) && Sized(t, s)
  {
    forall v: nat :: 0 < v < |t| && v in s.sent ==>
      Copies(t, s, v) <= 1 && (!s.lost && t[v].parent !in s.sent ==> Copies(t, s, v) == 1)
  }

  /** Every batch holds one report for each child. */
  ghost predicate AllWhole(t: seq<Node>, ready: seq<seq<seq<Report>>>) {
    && |ready| == |t|
    && forall p, i :: 0 <= p < |t| && 0 <= i < |ready[p]| ==> |ready[p][i]| == |t[p].children|
  }

  /** Batches are whole, queues are not, and a leaf is ready once it is prepared. */
  ghost predicate BatchesWhole(t: seq<Node>, s: Cast) {
    && Sized(t, s)
    && AllWhole(t, s.ready)
    && (forall p :: 0 <= p < |t| && t[p].children != [] ==> |s.queue[p]| < |t[p].children|)
    && (forall p: nat :: p < |t| && t[p].children == [] ==>
         s.queue[p] == [] && (p !in s.sent ==> (s.ready[p] != [] <==> p in s.prepared)))
  }

  /** A node that reported is prepared, and all its children reported. */
  ghost predicate SentBottomUp(t: seq<Node>, s: Cast) {
    forall v :: v in s.sent ==>
      && v < |t|
      && v in s.prepared
      && (forall a :: 0 <= a < |t[v].children| ==> t[v].children[a] in s.sent)
  }

  ghost predicate Inv(t: seq<Node>, s: Cast)
    requires IsTree(t)
  {
    PrepsOnce(t, s) && ReportsTrue(t, s) && ReportsOnce(t, s) && BatchesWhole(t, s) && SentBottomUp(t, s)
  }

  lemma {:induction false} StartInv(t: seq<Node>)
    requires IsTree(t)
    ensures Inv(t, Start(t))
  {
    hide LinksBack, Increasing;
    var s := Start(t);
    assert forall p :: 0 <= p < |t| ==> s.queue[p] == [] && s.ready[p] == [] && Flat(s.ready[p]) == [];
  }

  lemma {:induction false} FlatAppend(bs: seq<seq<Report>>, b: seq<Report>)
    ensures Flat(bs + [b]) == Flat(bs) + b
  {
    if bs == [] {
      assert [b][1..] == [];
    } else {
      FlatAppend(bs[1..], b);
      assert (bs + [b])[1..] == bs[1..] + [b];
    }
  }

  /** A list of children names exactly the nodes with that parent, each once. */
  lemma {:induction false} ChildOccurs(t: seq<Node>, v: nat, w: nat)
    requires IsTree(t) && v < |t|
    ensures multiset(t[v].children)[w] == if 0 < w < |t| && t[w].parent == v then 1 else 0
  {
    DistinctAtMostOnce(t[v].children, w);
    if w in t[v].children {
      var a :| 0 <= a < |t[v].children| && t[v].children[a] == w;
    }
  }

  lemma {:induction false} PrepareCounts(t: seq<Node>, s: Cast, v: nat, w: nat)
    requires IsTree(t) && Enabled(t, s, Prepare(v)) && s.preps[0] == 0
    ensures DoPrepare(t, s, v).preps[w] == s.preps[w] - (if w == v && v > 0 then 1 else 0)
                                           + (if 0 < w < |t| && t[w].parent == v then 1 else 0)
  {
    ChildOccurs(t, v, w);
  }

  lemma {:induction false} PreparePrep(t: seq<Node>, s: Cast, v: nat, w: nat)
    requires IsTree(t) && PrepsOnce(t, s) && Enabled(t, s, Prepare(v)) && 0 < w < |t|
    ensures PrepOnce(t, DoPrepare(t, s, v), w)
  {
    PrepareCounts(t, s, v, w);
    assert PrepOnce(t, s, w);
    if v > 0 {
      assert PrepOnce(t, s, v);
    }
  }

  lemma {:induction false} PreparePreps(t: seq<Node>, s: Cast, v: nat)
    requires IsTree(t) && PrepsOnce(t, s) && Enabled(t, s, Prepare(v))
    ensures PrepsOnce(t, DoPrepare(t, s, v))
  {
    var s' := DoPrepare(t, s, v);
    PrepareCounts(t, s, v, 0);
    forall w | w in s'.prepared || w in s'.preps
      ensures w < |t|
    {
      PrepareCounts(t, s, v, w);
    }
    forall w: nat | 0 < w < |t|
      ensures PrepOnce(t, s', w)
    {
      PreparePrep(t, s, v, w);
    }
  }

  /** A leaf that gets ready adds an empty batch, which holds no report. */
  lemma {:induction false} PrepareFlat(t: seq<Node>, s: Cast, v: nat)
    requires Enabled(t, s, Prepare(v))
    ensures forall p :: 0 <= p < |t| ==> Flat(DoPrepare(t, s, v).ready[p]) == Flat(s.ready[p])
  {
    FlatAppend(s.ready[v], []);
    hide Flat;
  }

  lemma {:induction false} PrepareTrue(t: seq<Node>, s: Cast, v: nat)
    requires ReportsTrue(t, s) && Enabled(t, s, Prepare(v))
    ensures ReportsTrue(t, DoPrepare(t, s, v))
    ensures forall p :: 0 <= p < |t| ==> Flat(DoPrepare(t, s, v).ready[p]) == Flat(s.ready[p])
  {
    PrepareFlat(t, s, v);
    hide Flat, AllFromChildren, FromChild;
  }

  lemma {:induction false} PrepareOnce(t: seq<Node>, s: Cast, v: nat)
    requires IsTree(t) && ReportsTrue(t, s) && ReportsOnce(t, s) && Enabled(t, s, Prepare(v))
    ensures ReportsOnce(t, DoPrepare(t, s, v))
  {
    PrepareTrue(t, s, v);
    hide LinksBack, Flat, ReportsTrue;
    var s' := DoPrepare(t, s, v);
    forall w: nat | 0 < w < |t| && w in s.sent
      ensures Copies(t, s', w) == Copies(t, s, w)
    {
      assert Flat(s'.ready[t[w].parent]) == Flat(s.ready[t[w].parent]);
    }
    hide Copies;
  }

  lemma {:induction false} PrepareBatches(t: seq<Node>, s: Cast, v: nat)
    requires BatchesWhole(t, s) && Enabled(t, s, Prepare(v))
    ensures BatchesWhole(t, DoPrepare(t, s, v))
  {
    var s' := DoPrepare(t, s, v);
    forall p, i | 0 <= p < |t| && 0 <= i < |s'.ready[p]|
      ensures |s'.ready[p][i]| == |t[p].children|
    {
    }
  }

  lemma {:induction false} PrepareInv(t: seq<Node>, s: Cast, v: nat)
    requires IsTree(t) && Inv(t, s) && Enabled(t, s, Prepare(v))
    ensures Inv(t, DoPrepare(t, s, v))
  {
    hide IsTree, PrepsOnce, ReportsTrue, ReportsOnce, BatchesWhole;
    PreparePreps(t, s, v);
    PrepareTrue(t, s, v);
    PrepareOnce(t, s, v);
    PrepareBatches(t, s, v);
  }

  lemma {:induction false} PrepsFrame(t: seq<Node>, s: Cast, s': Cast)
    requires IsTree(t) && PrepsOnce(t, s)
    requires s'.prepared == s.prepared && s'.preps == s.preps && s'.lost == s.lost
    ensures PrepsOnce(t, s')
  {
    forall v: nat | 0 < v < |t|
      ensures PrepOnce(t, s', v)
    {
      assert PrepOnce(t, s, v);
    }
  }

  /** A delivery moves one report from the bag to its receiver. */
  lemma {:induction false} DeliverHeld(t: seq<Node>, s: Cast, r: Report, p: nat)
    requires Enabled(t, s, Deliver(r)) && p < |t|
    ensures var s' := DoDeliver(t, s, r);
            multiset(s'.queue[p]) + multiset(Flat(s'.ready[p])) ==
            multiset(s.queue[p]) + multiset(Flat(s.ready[p])) +
            if p == t[r.from].parent then multiset{r} else multiset{}
  {
    FlatAppend(s.ready[p], s.queue[p] + [r]);
  }

  lemma {:induction false} DeliverCopies(t: seq<Node>, s: Cast, r: Report, w: nat)
    requires IsTree(t) && ReportsTrue(t, s) && Enabled(t, s, Deliver(r)) && 0 < w < |t| && w in s.sent
    ensures Copies(t, DoDeliver(t, s, r), w) == Copies(t, s, w)
  {
    var s', p, m := DoDeliver(t, s, r), t[w].parent, Report(w, s.sent[w]);
    DeliverHeld(t, s, r, p);
    hide Flat, LinksBack;
    assert FromChild(t, s.sent, t[r.from].parent, r);
    assert multiset(s'.queue[p])[m] + multiset(Flat(s'.ready[p]))[m] ==
           (multiset(s'.queue[p]) + multiset(Flat(s'.ready[p])))[m];
  }

  lemma {:induction false} DeliverTrue(t: seq<Node>, s: Cast, r: Report)
    requires ReportsTrue(t, s) && Enabled(t, s, Deliver(r))
    ensures ReportsTrue(t, DoDeliver(t, s, r))
  {
    var s', p := DoDeliver(t, s, r), t[r.from].parent;
    FlatAppend(s.ready[p], s.queue[p] + [r]);
    hide Flat;
    assert AllFromChildren(t, s.sent, p, s.queue[p] + [r]);
    forall q | 0 <= q < |t|
      ensures AllFromChildren(t, s.sent, q, s'.queue[q]) && AllFromChildren(t, s.sent, q, Flat(s'.ready[q]))
    {
      assert AllFromChildren(t, s.sent, q, s.queue[q]) && AllFromChildren(t, s.sent, q, Flat(s.ready[q]));
    }
  }

  lemma {:induction false} DeliverOnce(t: seq<Node>, s: Cast, r: Report)
    requires IsTree(t) && ReportsTrue(t, s) && ReportsOnce(t, s) && Enabled(t, s, Deliver(r))
    ensures ReportsOnce(t, DoDeliver(t, s, r))
  {
    var s' := DoDeliver(t, s, r);
    forall w: nat | 0 < w < |t| && w in s.sent
      ensures Copies(t, s', w) == Copies(t, s, w)
    {
      DeliverCopies(t, s, r, w);
    }
    hide ReportsTrue, Copies, IsTree;
  }

  lemma {:induction false} OneMoreBatch(t: seq<Node>, ready: seq<seq<seq<Report>>>, p: nat, batch: seq<Report>)
    requires AllWhole(t, ready) && p < |t| && |batch| == |t[p].children|
    ensures AllWhole(t, ready[p := ready[p] + [batch]])
  {
  }

  lemma {:induction false} DeliverBatches(t: seq<Node>, s: Cast, r: Report)
    requires IsTree(t) && BatchesWhole(t, s) && Enabled(t, s, Deliver(r))
    ensures BatchesWhole(t, DoDeliver(t, s, r))
  {
    var p: nat := t[r.from].parent;
    assert t[p].children != [];
    hide IsTree, AllWhole;
    var (rest, batch) := Join(|t[p].children|, s.queue[p], r);
    assert |rest| < |t[p].children| && (batch.Some? ==> |batch.value| == |t[p].children|);
    hide Join;
    var s' := DoDeliver(t, s, r);
    assert s'.queue == s.queue[p := rest] && s'.sent == s.sent && s'.prepared == s.prepared;
    assert s'.ready == if batch.Some? then s.ready[p := s.ready[p] + [batch.value]] else s.ready;
    hide DoDeliver, Enabled;
    if batch.Some? {
      OneMoreBatch(t, s.ready, p, batch.value);
    }
  }

  lemma {:induction false} DeliverInv(t: seq<Node>, s: Cast, r: Report)
    requires IsTree(t) && Inv(t, s) && Enabled(t, s, Deliver(r))
    ensures Inv(t, DoDeliver(t, s, r))
  {
    hide IsTree, PrepsOnce, ReportsTrue, ReportsOnce, BatchesWhole;
    DeliverTrue(t, s, r);
    DeliverOnce(t, s, r);
    DeliverBatches(t, s, r);
    PrepsFrame(t, s, DoDeliver(t, s, r));
  }

  // ----- a whole batch has one report from every child

  function Senders(b: seq<Report>): seq<nat> {
    seq(|b|, i requires 0 <= i < |b| => b[i].from)
  }

  lemma {:induction false} TwiceInMultiset(b: seq<Report>, i: nat, j: nat)
    requires i < j < |b| && b[i] == b[j]
    ensures multiset(b)[b[i]] >= 2
  {
    assert b == b[..j] + ([b[j]] + b[j + 1..]);
    assert b[i] in b[..j];
  }

  lemma {:induction false} FirstBatch(bs: seq<seq<Report>>, i: nat)
    requires bs != [] && i < |bs[0]|
    ensures i < |Flat(bs)| && Flat(bs)[i] == bs[0][i]
  {
  }

  lemma {:induction false} NoTwoAlike(t: seq<Node>, s: Cast, v: nat, i: nat, j: nat)
    requires IsTree(t) && Inv(t, s) && v < |t| && i < j < |Flat(s.ready[v])|
    ensures Flat(s.ready[v])[i].from != Flat(s.ready[v])[j].from
  {
    var all := Flat(s.ready[v]);
    hide Flat, IsTree, PrepsOnce, BatchesWhole, SentBottomUp;
    assert FromChild(t, s.sent, v, all[i]) && FromChild(t, s.sent, v, all[j]);
    assert Copies(t, s, all[i].from) <= 1;
    if all[i].from == all[j].from {
      assert all[i] == all[j];
      TwiceInMultiset(all, i, j);
    }
  }

  lemma {:induction false} InBatch(t: seq<Node>, s: Cast, v: nat, i: nat)
    requires IsTree(t) && Inv(t, s) && v < |t| && s.ready[v] != [] && i < |s.ready[v][0]|
    ensures FromChild(t, s.sent, v, s.ready[v][0][i]) && s.ready[v][0][i].from in t[v].children
  {
    hide LinksBack, PrepsOnce, ReportsOnce, BatchesWhole, SentBottomUp, Flat;
    FirstBatch(s.ready[v], i);
    assert FromChild(t, s.sent, v, Flat(s.ready[v])[i]);
  }

  lemma {:induction false} BatchComplete(t: seq<Node>, s: Cast, v: nat)
    requires IsTree(t) && Inv(t, s) && v < |t| && s.ready[v] != []
    ensures multiset(Senders(s.ready[v][0])) == multiset(t[v].children)
    ensures forall i :: 0 <= i < |s.ready[v][0]| ==> FromChild(t, s.sent, v, s.ready[v][0][i])
  {
    var b := s.ready[v][0];
    assert |b| == |t[v].children|;
    hide Inv, Flat, FromChild, IsTree;
    forall i | 0 <= i < |b|
      ensures FromChild(t, s.sent, v, b[i]) && b[i].from in t[v].children
    {
      InBatch(t, s, v, i);
    }
    forall i, j | 0 <= i < j < |b|
      ensures Senders(b)[i] != Senders(b)[j]
    {
      FirstBatch(s.ready[v], i);
      FirstBatch(s.ready[v], j);
      NoTwoAlike(t, s, v, i, j);
    }
    DistinctFills(Senders(b), t[v].children);
  }

  /** A node with a batch is prepared, and all its children reported. */
  lemma {:induction false} ReadyMeans(t: seq<Node>, s: Cast, v: nat)
    requires IsTree(t) && Inv(t, s) && v < |t| && v !in s.sent && s.ready[v] != []
    ensures v in s.prepared
    ensures forall a :: 0 <= a < |t[v].children| ==> t[v].children[a] in s.sent
  {
    BatchComplete(t, s, v);
    var b := s.ready[v][0];
    forall a | 0 <= a < |t[v].children|
      ensures t[v].children[a] in s.sent
    {
      assert t[v].children[a] in multiset(Senders(b));
      var i :| 0 <= i < |b| && Senders(b)[i] == t[v].children[a];
    }
    if t[v].children != [] {
      var c := t[v].children[0];
      assert PrepOnce(t, s, c);
    }
  }

  lemma {:induction false} HandleSent(t: seq<Node>, s: Cast, v: nat, value: int)
    requires IsTree(t) && Inv(t, s) && Enabled(t, s, Handle(v, value))
    ensures SentBottomUp(t, DoHandle(t, s, v, value))
  {
    hide IsTree, PrepsOnce, ReportsTrue, ReportsOnce, BatchesWhole;
    ReadyMeans(t, s, v);
  }

  /** What was true stays true when another node reports, and of fewer reports. */
  lemma {:induction false} StillFromChildren(t: seq<Node>, sent: map<nat, int>, v: nat, value: int, p: int,
                                             rs: seq<Report>, k: nat)
    requires AllFromChildren(t, sent, p, rs) && v !in sent && k <= |rs|
    ensures AllFromChildren(t, sent[v := value], p, rs[k..])
  {
    assert forall i :: 0 <= i < |rs[k..]| ==> rs[k..][i] == rs[i + k];
  }

  lemma {:induction false} HandleFlat(t: seq<Node>, s: Cast, v: nat, value: int, q: nat)
    requires Enabled(t, s, Handle(v, value)) && q < |t|
    ensures var k := if q == v then |s.ready[v][0]| else 0;
            k <= |Flat(s.ready[q])| && Flat(DoHandle(t, s, v, value).ready[q]) == Flat(s.ready[q])[k..]
  {
  }

  lemma {:induction false} HandleTrue(t: seq<Node>, s: Cast, v: nat, value: int)
    requires ReportsTrue(t, s) && Enabled(t, s, Handle(v, value))
    requires v > 0 ==> 0 <= t[v].parent < |t|
    ensures ReportsTrue(t, DoHandle(t, s, v, value))
  {
    var s' := DoHandle(t, s, v, value);
    hide Flat, AllFromChildren;
    forall q | 0 <= q < |t|
      ensures AllFromChildren(t, s'.sent, q, s'.queue[q]) && AllFromChildren(t, s'.sent, q, Flat(s'.ready[q]))
    {
      HandleFlat(t, s, v, value, q);
      StillFromChildren(t, s.sent, v, value, q, s.queue[q], 0);
      StillFromChildren(t, s.sent, v, value, q, Flat(s.ready[q]), if q == v then |s.ready[v][0]| else 0);
      assert s.queue[q][0..] == s.queue[q];
    }
  }

  lemma {:induction false} NoStrayCopies(t: seq<Node>, s: Cast, v: nat, r: Report, p: nat)
    requires ReportsTrue(t, s) && v !in s.sent && r.from == v && p < |t|
    ensures s.reports[r] == 0 && multiset(s.queue[p])[r] == 0 && multiset(Flat(s.ready[p]))[r] == 0
  {
    assert AllFromChildren(t, s.sent, p, s.queue[p]) && AllFromChildren(t, s.sent, p, Flat(s.ready[p]));
    hide Flat;
    assert r !in s.queue[p] && r !in Flat(s.ready[p]);
  }

  lemma {:induction false} HandleCopies(t: seq<Node>, s: Cast, v: nat, value: int, w: nat)
    requires IsTree(t) && ReportsTrue(t, s) && Enabled(t, s, Handle(v, value)) && 0 < w < |t|
    requires w == v || w in s.sent
    ensures w == v ==> Copies(t, DoHandle(t, s, v, value), w) == 1
    ensures w != v ==> Copies(t, DoHandle(t, s, v, value), w) <= Copies(t, s, w)
    ensures w != v && t[w].parent != v ==> Copies(t, DoHandle(t, s, v, value), w) == Copies(t, s, w)
  {
    var s', p := DoHandle(t, s, v, value), t[w].parent;
    assert multiset(Flat(s.ready[v])) == multiset(s.ready[v][0]) + multiset(Flat(s.ready[v][1..])) by {
      assert Flat(s.ready[v]) == s.ready[v][0] + Flat(s.ready[v][1..]);
    }
    hide Flat, LinksBack;
    if w == v {
      NoStrayCopies(t, s, v, Report(v, value), p);
    }
    hide ReportsTrue;
  }

  lemma {:induction false} HandleOnce(t: seq<Node>, s: Cast, v: nat, value: int)
    requires IsTree(t) && ReportsTrue(t, s) && ReportsOnce(t, s) && Enabled(t, s, Handle(v, value))
    ensures ReportsOnce(t, DoHandle(t, s, v, value))
  {
    hide ReportsTrue, Copies, IsTree;
    var s' := DoHandle(t, s, v, value);
    forall w: nat | 0 < w < |t| && w in s'.sent
      ensures Copies(t, s', w) <= 1 && (!s'.lost && t[w].parent !in s'.sent ==> Copies(t, s', w) == 1)
    {
      HandleCopies(t, s, v, value, w);
    }
  }

  lemma {:induction false} HandleBatches(t: seq<Node>, s: Cast, v: nat, value: int)
    requires BatchesWhole(t, s) && Enabled(t, s, Handle(v, value))
    ensures BatchesWhole(t, DoHandle(t, s, v, value))
  {
    var s' := DoHandle(t, s, v, value);
    forall q, i | 0 <= q < |t| && 0 <= i < |s'.ready[q]|
      ensures |s'.ready[q][i]| == |t[q].children|
    {
      if q == v {
        assert s'.ready[q][i] == s.ready[q][i + 1];
      }
    }
  }

  lemma {:induction false} HandleInv(t: seq<Node>, s: Cast, v: nat, value: int)
    requires IsTree(t) && Inv(t, s) && Enabled(t, s, Handle(v, value))
    ensures Inv(t, DoHandle(t, s, v, value))
  {
    assert v > 0 ==> 0 <= t[v].parent < |t|;
    hide IsTree, PrepsOnce, ReportsTrue, ReportsOnce, BatchesWhole, SentBottomUp;
    HandleSent(t, s, v, value);
    HandleTrue(t, s, v, value);
    HandleOnce(t, s, v, value);
    HandleBatches(t, s, v, value);
    PrepsFrame(t, s, DoHandle(t, s, v, value));
  }

  /** What is left when messages are lost. */
  ghost predicate Fewer(s: Cast, s': Cast) {
    s' == s.(preps := s'.preps, reports := s'.reports, lost := true) && s'.preps <= s.preps && s'.reports <= s.reports
  }

  lemma {:induction false} LosePreps(t: seq<Node>, s: Cast, s': Cast)
    requires IsTree(t) && PrepsOnce(t, s) && Fewer(s, s')
    ensures PrepsOnce(t, s')
  {
    forall w: nat | 0 < w < |t|
      ensures PrepOnce(t, s', w)
    {
      assert PrepOnce(t, s, w);
    }
  }

  lemma {:induction false} LoseReports(t: seq<Node>, s: Cast, s': Cast)
    requires IsTree(t) && ReportsTrue(t, s) && ReportsOnce(t, s) && Fewer(s, s')
    ensures ReportsTrue(t, s') && ReportsOnce(t, s')
  {
    hide Flat, AllFromChildren, LinksBack;
    forall w: nat | 0 < w < |t| && w in s.sent
      ensures Copies(t, s', w) <= Copies(t, s, w)
    {
    }
  }

  lemma {:induction false} LoseInv(t: seq<Node>, s: Cast, s': Cast)
    requires IsTree(t) && Inv(t, s) && Fewer(s, s')
    ensures Inv(t, s')
  {
    hide IsTree, PrepsOnce, ReportsTrue, ReportsOnce;
    LosePreps(t, s, s');
    LoseReports(t, s, s');
  }

  /** Every event keeps the invariant. */
  lemma {:induction false} StepInv(t: seq<Node>, s: Cast, e: Event)
    requires IsTree(t) && Inv(t, s)
    ensures Inv(t, Step(t, s, e))
  {
    hide IsTree, Inv;
    if Enabled(t, s, e) {
      match e
      case Prepare(v) => PrepareInv(t, s, v);
      case Deliver(r) => DeliverInv(t, s, r);
      case Handle(v, value) => HandleInv(t, s, v, value);
      case LosePrep(_) => LoseInv(t, s, Step(t, s, e));
      case LoseReport(_) => LoseInv(t, s, Step(t, s, e));
    }
  }

  /** If the root has reported, every node has been prepared and has reported. */
  lemma {:induction false} RootSentMeansAll(t: seq<Node>, s: Cast, w: nat)
    requires IsTree(t) && SentBottomUp(t, s) && 0 in s.sent && w < |t|
    ensures w in s.sent && w in s.prepared
    decreases w
  {
    if w > 0 {
      RootSentMeansAll(t, s, t[w].parent);
      assert w in t[t[w].parent].children;
    }
  }

  // ----- without loss the protocol cannot stop early

  /** Nothing can happen any more, except a loss. */
  ghost predicate Quiet(t: seq<Node>, s: Cast) {
    forall e :: Enabled(t, s, e) ==> e.LosePrep? || e.LoseReport?
  }

  lemma {:induction false} QuietAllPrepared(t: seq<Node>, s: Cast, v: nat)
    requires IsTree(t) && Inv(t, s) && !s.lost && Quiet(t, s) && v < |t|
    ensures v in s.prepared
    decreases v
  {
    assert Sized(t, s);
    hide ReportsTrue, ReportsOnce, BatchesWhole, LinksBack;
    assert !Enabled(t, s, Prepare(v));
    if v > 0 {
      QuietAllPrepared(t, s, t[v].parent);
      assert PrepOnce(t, s, v);
    }
  }

  /** With nothing in flight, the report of a child is in the queue of its parent. */
  lemma {:induction false} QuietQueued(t: seq<Node>, s: Cast, v: nat, c: nat)
    requires IsTree(t) && Inv(t, s) && !s.lost && Quiet(t, s)
    requires 0 < c < |t| && t[c].parent == v && v !in s.sent && c in s.sent && s.ready[v] == []
    ensures Report(c, s.sent[c]) in s.queue[v]
  {
    hide PrepsOnce, BatchesWhole, LinksBack, SentBottomUp;
    var r := Report(c, s.sent[c]);
    assert !Enabled(t, s, Deliver(r));
    assert Copies(t, s, c) == 1;
    assert Flat(s.ready[v]) == [];
  }

  lemma {:induction false} AllQueued(kids: seq<nat>, sent: map<nat, int>, q: seq<Report>)
    requires Increasing(kids)
    requires forall a :: 0 <= a < |kids| ==> kids[a] in sent && Report(kids[a], sent[kids[a]]) in q
    ensures |kids| <= |q|
  {
    var froms := Senders(q);
    forall x: nat
      ensures multiset(kids)[x] <= multiset(froms)[x]
    {
      DistinctAtMostOnce(kids, x);
      if x in kids {
        var i :| 0 <= i < |q| && q[i] == Report(x, sent[x]);
        assert froms[i] == x;
      }
    }
    assert multiset(kids) <= multiset(froms);
    assert multiset(froms) == multiset(kids) + (multiset(froms) - multiset(kids));
    assert |multiset(froms)| == |froms| && |multiset(kids)| == |kids|;
  }

  lemma {:induction false} QuietAllSent(t: seq<Node>, s: Cast, v: nat)
    requires IsTree(t) && Inv(t, s) && !s.lost && Quiet(t, s) && v < |t|
    ensures v in s.sent
    decreases |t| - v
  {
    if v !in s.sent {
      QuietAllPrepared(t, s, v);
      assert !Enabled(t, s, Handle(v, 0));
      var kids := t[v].children;
      forall a | 0 <= a < |kids|
        ensures kids[a] in s.sent && Report(kids[a], s.sent[kids[a]]) in s.queue[v]
      {
        QuietAllSent(t, s, kids[a]);
        QuietQueued(t, s, v, kids[a]);
      }
      AllQueued(kids, s.sent, s.queue[v]);
    }
  }

  // ----- every run ends

  /** Work left: nodes to prepare, prepare messages and reports in flight, nodes to report. */
  function Work(t: seq<Node>, s: Cast): int {
    Weigh(|t|, |s.prepared|, |s.preps|, |s.sent|, |s.reports|)
  }

  function Weigh(n: nat, prepared: nat, preps: nat, sent: nat, reports: nat): int {
    (n + 1) * (n - prepared) + preps + 2 * (n - sent) + reports
  }

  lemma {:induction false} WeighPositive(n: nat, prepared: nat, preps: nat, sent: nat, reports: nat)
    requires prepared <= n && sent <= n
    ensures Weigh(n, prepared, preps, sent, reports) >= 0
  {
    MulMonotone(n + 1, 0, n - prepared);
  }

  lemma {:induction false} OneMorePrepared(n: nat, prepared: nat, preps: nat, preps': nat, sent: nat, reports: nat)
    requires preps' <= preps + n
    ensures Weigh(n, prepared + 1, preps', sent, reports) < Weigh(n, prepared, preps, sent, reports)
  {
    Distribute(n + 1, n - prepared - 1, 1);
  }

  lemma {:induction false} WithinTree(t: seq<Node>, vs: set<nat>)
    requires forall v :: v in vs ==> v < |t|
    ensures |vs| <= |t|
  {
    SubsetSize(vs, Interval(0, |t|));
  }

  lemma {:induction false} WorkPositive(t: seq<Node>, s: Cast)
    requires IsTree(t) && Inv(t, s)
    ensures Work(t, s) >= 0
  {
    hide IsTree, PrepOnce, ReportsTrue, ReportsOnce, BatchesWhole, Weigh;
    WithinTree(t, s.prepared);
    WithinTree(t, s.sent.Keys);
    assert |s.sent| == |s.sent.Keys|;
    WeighPositive(|t|, |s.prepared|, |s.preps|, |s.sent|, |s.reports|);
  }

  /** A node is prepared once. */
  lemma {:induction false} PreparedAnew(t: seq<Node>, s: Cast, v: nat)
    requires IsTree(t) && Inv(t, s) && Enabled(t, s, Prepare(v))
    ensures v !in s.prepared
  {
    hide ReportsTrue, ReportsOnce, BatchesWhole, LinksBack, SentBottomUp;
    if v > 0 {
      assert PrepOnce(t, s, v);
    }
  }

  lemma {:induction false} IncreasingGrows(kids: seq<nat>, a: nat)
    requires Increasing(kids) && a < |kids|
    ensures kids[a] >= a
  {
    if a > 0 {
      IncreasingGrows(kids, a - 1);
    }
  }

  lemma {:induction false} FewChildren(t: seq<Node>, v: nat)
    requires IsTree(t) && v < |t|
    ensures |t[v].children| <= |t|
  {
    var kids := t[v].children;
    if kids != [] {
      IncreasingGrows(kids, |kids| - 1);
      assert t[v].children[|kids| - 1] < |t|;
    }
  }

  lemma {:induction false} PrepsMore(preps: multiset<nat>, v: nat, kids: seq<nat>, n: nat)
    requires |kids| <= n
    ensures |preps - multiset{v} + multiset(kids)| <= |preps| + n
  {
  }

  lemma {:induction false} WorkDrops(t: seq<Node>, s: Cast, s': Cast)
    requires |s'.prepared| == |s.prepared| + 1 && |s'.sent| == |s.sent| && |s'.reports| == |s.reports|
    requires |s'.preps| <= |s.preps| + |t|
    ensures Work(t, s') < Work(t, s)
  {
    hide Weigh;
    OneMorePrepared(|t|, |s.prepared|, |s.preps|, |s'.preps|, |s.sent|, |s.reports|);
  }

  lemma {:induction false} PrepareShrinks(t: seq<Node>, s: Cast, v: nat)
    requires IsTree(t) && Inv(t, s) && Enabled(t, s, Prepare(v))
    ensures Work(t, DoPrepare(t, s, v)) < Work(t, s)
  {
    hide IsTree, Inv, Work;
    PreparedAnew(t, s, v);
    FewChildren(t, v);
    PrepsMore(s.preps, v, t[v].children, |t|);
    WorkDrops(t, s, DoPrepare(t, s, v));
  }

  lemma {:induction false} OtherShrinks(t: seq<Node>, s: Cast, e: Event)
    requires Enabled(t, s, e) && !e.Prepare?
    ensures Work(t, Step(t, s, e)) < Work(t, s)
  {
    hide Join;
    if e.Handle? {
      assert |s.sent[e.node := e.value]| == |s.sent| + 1;
    }
  }

  /** Every event that is possible leaves less work. */
  lemma {:induction false} StepShrinks(t: seq<Node>, s: Cast, e: Event)
    requires IsTree(t) && Inv(t, s) && Enabled(t, s, e)
    ensures 0 <= Work(t, Step(t, s, e)) < Work(t, s)
  {
    hide IsTree, Inv, Work;
    StepInv(t, s, e);
    WorkPositive(t, Step(t, s, e));
    if e.Prepare? {
      PrepareShrinks(t, s, e.node);
    } else {
      OtherShrinks(t, s, e);
    }
  }
}
