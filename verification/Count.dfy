/**
 The Count protocol: PrepareCount goes down the tree, every node answers with
 NodeIsUp, which is passed on to the root, and sends its Count when all its
 children have. The root gives up after a timeout and then returns the number of
 NodeIsUp messages it saw.
 */
module Count {
  import opened Arith
  import opened Arena
  import opened Keys
  import opened Generated
  import opened Convergecast

  const TWO32: int := 0x1_0000_0000
  const TWO31: int := 0x8000_0000

  /** Conversion to a 32-bit signed integer. */
  function Int32(x: int): int {
    (x + TWO31) % TWO32 - TWO31
  }

  /** The values of a batch, added up. */
  function Total(b: seq<Report>): int {
    if b == [] then 0 else Total(b[..|b| - 1]) + b[|b| - 1].value
  }

  /** ups: NodeIsUp messages in flight, named by their receiver; emitted: what the root returned. */
  datatype State = State(cast: Cast, ups: multiset<nat>, replies: nat, timedOut: bool, emitted: seq<int>)

  datatype CountEvent =
    | PrepareCount(node: nat)
    | CountArrives(report: Report)
    | HandleCounts(node: nat)
    | NodeIsUp(node: nat)
    | Timeout
    | LoseCast(event: Event)
    | LoseUp(node: nat)

  function Begin(t: seq<Node>): State {
    State(Start(t), multiset{}, 0, false, [])
  }

  /** What a node reports for a batch: the root an int, the others an int32. */
  function ReportValue(v: nat, batch: seq<Report>): int {
    if v == 0 then 1 + Total(batch) else Int32(1 + Total(batch))
  }

  /** FuncC at node v: it adds up itself and what its children report. */
  method FuncC(v: nat, batch: seq<Report>) returns (value: int)
    ensures value == ReportValue(v, batch)
  {
    var count := 1;
    for i := 0 to |batch|
      invariant count == 1 + Total(batch[..i])
    {
      assert batch[..i + 1][..i] == batch[..i];
      count := count + batch[i].value;
    }
    assert batch[..|batch|] == batch;
    value := if v == 0 then count else Int32(count);
  }

  predicate Possible(t: seq<Node>, s: State, e: CountEvent) {
    match e
    case PrepareCount(v) => Enabled(t, s.cast, Prepare(v)) && (v > 0 ==> t[v].parent >= 0)
    case CountArrives(r) => Enabled(t, s.cast, Deliver(r)) && (t[r.from].parent == 0 ==> !s.timedOut)
    case HandleCounts(v) => Enabled(t, s.cast, Handle(v, 0)) && (v == 0 ==> !s.timedOut)
    case NodeIsUp(v) => v in s.ups && v < |t| && v !in s.cast.sent && if v == 0 then !s.timedOut else t[v].parent >= 0
    case Timeout => !s.timedOut && 0 !in s.cast.sent
    case LoseCast(e) => Enabled(t, s.cast, e) && (e.LosePrep? || e.LoseReport?)
    case LoseUp(v) => v in s.ups
  }

  /** An event that is not possible changes nothing. */
  function Next(t: seq<Node>, s: State, e: CountEvent): State {
    if !Possible(t, s, e) then s
    else
      match e
      case PrepareCount(v) =>
        s.(cast := DoPrepare(t, s.cast, v),
           ups := if v == 0 then s.ups else s.ups + multiset{t[v].parent as nat})
      case CountArrives(r) => s.(cast := DoDeliver(t, s.cast, r))
      case HandleCounts(v) =>
        var value := ReportValue(v, s.cast.ready[v][0]);
        s.(cast := DoHandle(t, s.cast, v, value), emitted := if v == 0 then s.emitted + [value] else s.emitted)
      case NodeIsUp(v) =>
        if v == 0 then s.(ups := s.ups - multiset{v}, replies := s.replies + 1)
        else s.(ups := s.ups - multiset{v} + multiset{t[v].parent as nat})
      case Timeout => s.(timedOut := true, emitted := s.emitted + [s.replies])
      case LoseCast(e) => s.(cast := Step(t, s.cast, e))
      case LoseUp(v) => s.(ups := s.ups - multiset{v})
  }

  function After(t: seq<Node>, events: seq<CountEvent>): State {
    if events == [] then Begin(t) else Next(t, After(t, events[..|events| - 1]), events[|events| - 1])
  }

  // ----- what is reported

  /** Equal as 32-bit integers. */
  predicate Same32(x: int, y: int) {
    (x - y) % TWO32 == 0
  }

  lemma {:induction false} Int32Same(x: int)
    ensures Same32(Int32(x), x)
    ensures -TWO31 <= x < TWO31 ==> Int32(x) == x
  {
  }

  lemma {:induction false} Same32Add(a: int, b: int, c: int, d: int)
    requires Same32(a, b) && Same32(c, d)
    ensures Same32(a + c, b + d)
  {
  }

  lemma {:induction false} WholeTurns(x: int, k: int)
    ensures (x + k * TWO32) % TWO32 == x % TWO32
  {
  }

  lemma {:induction false} Int32Unique(x: int, y: int)
    requires Same32(x, y)
    ensures Int32(x) == Int32(y)
  {
    var k := (x - y) / TWO32;
    assert x - y == k * TWO32;
    WholeTurns(y + TWO31, k);
  }

  /** What `v` must report: the size of its subtree, as far as the type allows. */
  predicate Truthful(t: seq<Node>, v: nat, value: int)
    requires LinksBack(t) && v < |t|
  {
    if v == 0 then Same32(value, SubtreeSize(t, v)) && (|t| <= TWO31 ==> value == SubtreeSize(t, v))
    else value == Int32(SubtreeSize(t, v))
  }

  function IntGroup(): Group<int> {
    Group(0, (a: int, b: int) => a + b)
  }

  /** What every node reported, by position. */
  function Values(n: nat, sent: map<nat, int>): seq<int> {
    seq(n, v requires 0 <= v < n => if v in sent then sent[v] else 0)
  }

  lemma {:induction false} TotalIsSum(b: seq<Report>, vals: seq<int>)
    requires forall i :: 0 <= i < |b| ==> b[i].from < |vals| && b[i].value == vals[b[i].from]
    ensures Within(Senders(b), |vals|)
    ensures Total(b) == Sum(IntGroup(), Select(vals, Senders(b)))
  {
    if b != [] {
      var b' := b[..|b| - 1];
      TotalIsSum(b', vals);
      assert Select(vals, Senders(b))[..|b| - 1] == Select(vals, Senders(b'));
    }
  }

  lemma {:induction false} PartOfSum(t: seq<Node>, kids: seq<nat>, i: nat, a: nat)
    requires LinksBack(t) && Below(t, kids, i) && a < |kids|
    ensures SubtreeSize(t, kids[a]) <= SizeSum(t, kids, i)
  {
    if a > 0 {
      PartOfSum(t, kids[1..], i, a - 1);
    }
  }

  lemma {:induction false} SubtreeFits(t: seq<Node>, v: nat)
    requires IsTree(t) && v < |t|
    ensures SubtreeSize(t, v) + (if v == 0 then 0 else 1) <= |t|
    decreases v
  {
    if v == 0 {
      RootSize(t);
    } else {
      var p := t[v].parent;
      SubtreeFits(t, p);
      var a :| 0 <= a < |t[p].children| && t[p].children[a] == v;
      PartOfSum(t, t[p].children, p, a);
    }
  }

  lemma {:induction false} SumFirst(vals: seq<int>, kids: seq<nat>)
    requires Within(kids, |vals|) && kids != []
    ensures Sum(IntGroup(), Select(vals, kids)) == vals[kids[0]] + Sum(IntGroup(), Select(vals, kids[1..]))
  {
    assert Select(vals, kids) == [vals[kids[0]]] + Select(vals, kids[1..]);
    SumAppend(IntGroup(), [vals[kids[0]]], Select(vals, kids[1..]));
    SumOne(IntGroup(), vals[kids[0]]);
  }

  /** `vals` holds the size of every kid, as a 32-bit integer. */
  predicate HoldsSizes(t: seq<Node>, kids: seq<nat>, vals: seq<int>)
    requires LinksBack(t) && |vals| == |t|
  {
    forall a {:trigger kids[a]} :: 0 <= a < |kids| ==>
      kids[a] < |t| && vals[kids[a]] == Int32(SubtreeSize(t, kids[a]))
  }

  lemma {:induction false} KidsSum(t: seq<Node>, kids: seq<nat>, i: nat, vals: seq<int>)
    requires LinksBack(t) && Below(t, kids, i) && |vals| == |t| && HoldsSizes(t, kids, vals)
    ensures Within(kids, |vals|)
    ensures Same32(Sum(IntGroup(), Select(vals, kids)), SizeSum(t, kids, i))
    decreases |kids|
  {
    assert Same32(0, 0);
    hide LinksBack, Int32, Same32;
    if kids != [] {
      hide Select, Sum;
      var rest := kids[1..];
      KidsSum(t, rest, i, vals);
      SumFirst(vals, kids);
      Int32Same(SubtreeSize(t, kids[0]));
      Same32Add(vals[kids[0]], SubtreeSize(t, kids[0]), Sum(IntGroup(), Select(vals, rest)), SizeSum(t, rest, i));
    } else {
      assert Select(vals, kids) == [];
    }
  }

  lemma {:induction false} KidsSumExact(t: seq<Node>, kids: seq<nat>, i: nat, vals: seq<int>)
    requires LinksBack(t) && Below(t, kids, i) && |vals| == |t| && HoldsSizes(t, kids, vals)
    requires forall a {:trigger kids[a]} :: 0 <= a < |kids| ==> SubtreeSize(t, kids[a]) < TWO31
    ensures Within(kids, |vals|)
    ensures Sum(IntGroup(), Select(vals, kids)) == SizeSum(t, kids, i)
    decreases |kids|
  {
    hide LinksBack, Int32;
    if kids != [] {
      hide Select, Sum;
      var rest := kids[1..];
      KidsSumExact(t, rest, i, vals);
      SumFirst(vals, kids);
      Int32Same(SubtreeSize(t, kids[0]));
    } else {
      assert Select(vals, kids) == [];
    }
  }

  ghost predicate AllTruthful(t: seq<Node>, sent: map<nat, int>)
    requires LinksBack(t)
  {
    forall v :: v in sent && v < |t| ==> Truthful(t, v, sent[v])
  }

  /** The children of a node with a batch reported truthfully. */
  lemma {:induction false} KidsTruthful(t: seq<Node>, s: Cast, v: nat)
    requires IsTree(t) && Inv(t, s) && AllTruthful(t, s.sent) && v < |t| && v !in s.sent && s.ready[v] != []
    ensures Below(t, t[v].children, v) && HoldsSizes(t, t[v].children, Values(|t|, s.sent))
  {
    hide Inv, Int32, Same32, SubtreeSize;
    ReadyMeans(t, s, v);
    forall a {:trigger t[v].children[a]} | 0 <= a < |t[v].children|
      ensures v < t[v].children[a] < |t|
      ensures Values(|t|, s.sent)[t[v].children[a]] == Int32(SubtreeSize(t, t[v].children[a]))
    {
      assert Truthful(t, t[v].children[a], s.sent[t[v].children[a]]);
    }
    hide IsTree, AllTruthful, Values;
  }

  lemma {:induction false} KidsFit(t: seq<Node>, v: nat)
    requires IsTree(t) && v < |t| && |t| <= TWO31
    ensures forall a {:trigger t[v].children[a]} :: 0 <= a < |t[v].children| ==>
              SubtreeSize(t, t[v].children[a]) < TWO31
  {
    forall a | 0 <= a < |t[v].children|
      ensures SubtreeSize(t, t[v].children[a]) < TWO31
    {
      SubtreeFits(t, t[v].children[a]);
    }
  }

  /** A batch adds up to what a walk over the children would. */
  lemma {:induction false} BatchIsKids(t: seq<Node>, s: Cast, v: nat)
    requires IsTree(t) && Inv(t, s) && v < |t| && v !in s.sent && s.ready[v] != []
    ensures Within(t[v].children, |t|)
    ensures Total(s.ready[v][0]) == Sum(IntGroup(), Select(Values(|t|, s.sent), t[v].children))
  {
    var b, vals, kids := s.ready[v][0], Values(|t|, s.sent), t[v].children;
    BatchComplete(t, s, v);
    hide Inv, Sum, Select;
    TotalIsSum(b, vals);
    SumPermuted(IntGroup(), vals, Senders(b), kids);
  }

  lemma {:induction false} BatchTotal(t: seq<Node>, s: Cast, v: nat)
    requires IsTree(t) && Inv(t, s) && AllTruthful(t, s.sent) && v < |t| && v !in s.sent && s.ready[v] != []
    ensures Same32(Total(s.ready[v][0]), SizeSum(t, t[v].children, v))
    ensures |t| <= TWO31 ==> Total(s.ready[v][0]) == SizeSum(t, t[v].children, v)
  {
    assert LinksBack(t);
    hide Inv, IsTree, LinksBack, HoldsSizes, Sum, Select, Int32, Same32, Values;
    var vals, kids := Values(|t|, s.sent), t[v].children;
    KidsTruthful(t, s, v);
    BatchIsKids(t, s, v);
    KidsSum(t, kids, v, vals);
    if |t| <= TWO31 {
      KidsFit(t, v);
      KidsSumExact(t, kids, v, vals);
    }
  }

  lemma {:induction false} OneMore32(a: int, b: int)
    requires Same32(a, b)
    ensures Same32(1 + a, 1 + b) && Int32(1 + a) == Int32(1 + b)
  {
    hide Int32;
    Same32Add(1, 1, a, b);
    Int32Unique(1 + a, 1 + b);
  }

  lemma {:induction false} TotalTruthful(t: seq<Node>, b: seq<Report>, v: nat)
    requires LinksBack(t) && v < |t| && Same32(Total(b), SizeSum(t, t[v].children, v))
    requires |t| <= TWO31 ==> Total(b) == SizeSum(t, t[v].children, v)
    ensures Truthful(t, v, ReportValue(v, b))
  {
    hide Total, Same32, Int32, SizeSum;
    OneMore32(Total(b), SizeSum(t, t[v].children, v));
  }

  /** A complete batch of truthful reports makes a truthful report. */
  lemma {:induction false} BatchTruthful(t: seq<Node>, s: Cast, v: nat)
    requires IsTree(t) && Inv(t, s) && AllTruthful(t, s.sent) && v < |t| && v !in s.sent && s.ready[v] != []
    ensures Truthful(t, v, ReportValue(v, s.ready[v][0]))
  {
    assert LinksBack(t);
    hide IsTree, LinksBack, AllTruthful, ReportsTrue, ReportsOnce, SentBottomUp, AllWhole, Truthful, ReportValue;
    BatchTotal(t, s, v);
    TotalTruthful(t, s.ready[v][0], v);
  }

  // ----- whole runs

  /** NodeIsUp messages are sent once by every prepared node below the root, and only passed on. */
  ghost predicate UpsBounded(s: State) {
    |s.ups| + s.replies <= |s.cast.prepared - {0}|
  }

  /** The root returns once: its own count, or the replies seen before the timeout. */
  ghost predicate EmittedOnce(s: State) {
    && (s.timedOut ==> 0 !in s.cast.sent && |s.emitted| == 1 && s.emitted[0] <= |s.cast.prepared - {0}|)
    && (0 in s.cast.sent ==> s.emitted == [s.cast.sent[0]])
    && (!s.timedOut && 0 !in s.cast.sent ==> s.emitted == [])
  }

  ghost predicate CountInv(t: seq<Node>, s: State)
    requires IsTree(t)
  {
    Inv(t, s.cast) && AllTruthful(t, s.cast.sent) && UpsBounded(s) && EmittedOnce(s)
  }

  lemma {:induction false} PreparedGrows(t: seq<Node>, s: Cast, v: nat)
    requires IsTree(t) && Inv(t, s) && Enabled(t, s, Prepare(v))
    ensures v !in s.prepared
    ensures |DoPrepare(t, s, v).prepared - {0}| == |s.prepared - {0}| + if v == 0 then 0 else 1
  {
    hide ReportsTrue, ReportsOnce, BatchesWhole, SentBottomUp, LinksBack;
    if v > 0 {
      assert PrepOnce(t, s, v);
      assert (s.prepared + {v}) - {0} == (s.prepared - {0}) + {v};
    } else {
      assert (s.prepared + {v}) - {0} == s.prepared - {0};
    }
  }

  lemma {:induction false} BatchKeepsTruth(t: seq<Node>, s: Cast, v: nat)
    requires IsTree(t) && Inv(t, s) && AllTruthful(t, s.sent) && v < |t| && v !in s.sent && s.ready[v] != []
    ensures AllTruthful(t, s.sent[v := ReportValue(v, s.ready[v][0])])
  {
    hide IsTree, Inv, Truthful, ReportValue;
    BatchTruthful(t, s, v);
  }

  lemma {:induction false} HandleStep(t: seq<Node>, s: State, v: nat)
    requires IsTree(t) && CountInv(t, s) && Possible(t, s, HandleCounts(v))
    ensures CountInv(t, Next(t, s, HandleCounts(v)))
  {
    hide IsTree, Inv, Truthful, AllTruthful, ReportValue;
    var s', value := Next(t, s, HandleCounts(v)), ReportValue(v, s.cast.ready[v][0]);
    assert s' == s.(cast := s'.cast, emitted := if v == 0 then s.emitted + [value] else s.emitted);
    assert s'.cast == DoHandle(t, s.cast, v, value) && s'.cast.sent == s.cast.sent[v := value];
    assert s'.cast.prepared == s.cast.prepared && v !in s.cast.sent;
    hide Next, DoHandle;
    BatchKeepsTruth(t, s.cast, v);
    HandleInv(t, s.cast, v, value);
  }

  lemma {:induction false} PrepareStep(t: seq<Node>, s: State, v: nat)
    requires IsTree(t) && CountInv(t, s) && Possible(t, s, PrepareCount(v))
    ensures CountInv(t, Next(t, s, PrepareCount(v)))
  {
    assert LinksBack(t);
    hide IsTree, LinksBack, Inv, Truthful, AllTruthful;
    PrepareInv(t, s.cast, v);
    PreparedGrows(t, s.cast, v);
  }

  /** The remaining events change only the messages in flight, the replies or the timeout. */
  lemma {:induction false} UpsSize(ups: multiset<nat>, v: nat, p: nat)
    requires v in ups
    ensures |ups - multiset{v}| == |ups| - 1 && |ups - multiset{v} + multiset{p}| == |ups|
  {
  }

  lemma {:induction false} UpStep(t: seq<Node>, s: State, e: CountEvent)
    requires IsTree(t) && CountInv(t, s) && Possible(t, s, e) && (e.NodeIsUp? || e.LoseUp?)
    ensures CountInv(t, Next(t, s, e))
  {
    hide IsTree, Inv, AllTruthful, Enabled, Step, DoPrepare, DoDeliver, DoHandle, ReportValue;
    UpsSize(s.ups, e.node, if e.NodeIsUp? && e.node > 0 then t[e.node].parent else 0);
  }

  lemma {:induction false} TimeoutStep(t: seq<Node>, s: State)
    requires IsTree(t) && CountInv(t, s) && Possible(t, s, Timeout)
    ensures CountInv(t, Next(t, s, Timeout))
  {
    hide IsTree, Inv, AllTruthful, Enabled, Step, DoPrepare, DoDeliver, DoHandle, ReportValue;
  }

  /** A step of the cast that neither prepares nor reports keeps what is counted. */
  lemma {:induction false} QuietStep(t: seq<Node>, s: State, l: Event)
    requires IsTree(t) && CountInv(t, s)
    requires Step(t, s.cast, l).sent == s.cast.sent && Step(t, s.cast, l).prepared == s.cast.prepared
    ensures CountInv(t, s.(cast := Step(t, s.cast, l)))
  {
    hide IsTree, Inv, AllTruthful, Step;
    StepInv(t, s.cast, l);
  }

  lemma {:induction false} ArriveStep(t: seq<Node>, s: State, r: Report)
    requires IsTree(t) && CountInv(t, s) && Possible(t, s, CountArrives(r))
    ensures CountInv(t, Next(t, s, CountArrives(r)))
  {
    hide IsTree, CountInv, DoPrepare, DoHandle;
    QuietStep(t, s, Deliver(r));
  }

  lemma {:induction false} LoseStep(t: seq<Node>, s: State, l: Event)
    requires IsTree(t) && CountInv(t, s) && Possible(t, s, LoseCast(l))
    ensures CountInv(t, Next(t, s, LoseCast(l)))
  {
    hide IsTree, CountInv, DoPrepare, DoHandle, DoDeliver;
    QuietStep(t, s, l);
  }

  lemma {:induction false} NextInv(t: seq<Node>, s: State, e: CountEvent)
    requires IsTree(t) && CountInv(t, s)
    ensures CountInv(t, Next(t, s, e))
  {
    hide IsTree, CountInv;
    if Possible(t, s, e) {
      match e
      case PrepareCount(v) => PrepareStep(t, s, v);
      case HandleCounts(v) => HandleStep(t, s, v);
      case CountArrives(r) => ArriveStep(t, s, r);
      case LoseCast(l) => LoseStep(t, s, l);
      case Timeout => TimeoutStep(t, s);
      case _ => UpStep(t, s, e);
    }
  }

  lemma {:induction false} AfterInv(t: seq<Node>, events: seq<CountEvent>)
    requires IsTree(t)
    ensures CountInv(t, After(t, events))
  {
    if events == [] {
      StartInv(t);
    } else {
      AfterInv(t, events[..|events| - 1]);
      NextInv(t, After(t, events[..|events| - 1]), events[|events| - 1]);
    }
  }

  lemma {:induction false} PreparedBelowRoot(t: seq<Node>, s: Cast)
    requires IsTree(t) && Inv(t, s)
    ensures |s.prepared - {0}| <= |t| - 1
  {
    assert forall v :: v in s.prepared ==> v < |t|;
    hide IsTree, Inv;
    SubsetSize(s.prepared - {0}, Interval(1, |t|));
  }

  /** In every run, every Count message on its way carries the size of its sender's subtree. */
  lemma {:induction false} CountsAreSubtreeSizes(t: seq<Node>, events: seq<CountEvent>, r: Report)
    requires IsTree(t) && r in After(t, events).cast.reports
    ensures 0 < r.from < |t| && r.value == Int32(SubtreeSize(t, r.from))
  {
    AfterInv(t, events);
    hide PrepsOnce, ReportsOnce, BatchesWhole, SentBottomUp;
  }

  /**
   In every run the root returns at most one value. After a timeout it is smaller
   than the size of the tree; otherwise it is the size of the tree.
   */
  lemma {:induction false} RootReturnsOnce(t: seq<Node>, events: seq<CountEvent>)
    requires IsTree(t)
    ensures |After(t, events).emitted| <= 1
    ensures After(t, events).timedOut ==> |After(t, events).emitted| == 1 && After(t, events).emitted[0] <= |t| - 1
    ensures After(t, events).emitted != [] && !After(t, events).timedOut ==>
              && Same32(After(t, events).emitted[0], |t|)
              && (|t| <= TWO31 ==> After(t, events).emitted[0] == |t|)
  {
    AfterInv(t, events);
    RootSize(t);
    PreparedBelowRoot(t, After(t, events).cast);
  }

  /** The caller's test: a returned value equal to the size means every node was reached and counted. */
  lemma {:induction false} FullCountMeansAllUp(t: seq<Node>, events: seq<CountEvent>, v: nat)
    requires IsTree(t) && After(t, events).emitted == [|t|] && v < |t|
    ensures v in After(t, events).cast.prepared && v in After(t, events).cast.sent
  {
    var s := After(t, events);
    AfterInv(t, events);
    RootReturnsOnce(t, events);
    RootSentMeansAll(t, s.cast, v);
  }

  /** Without loss and timeout, a run that cannot go on has returned the size of the tree. */
  lemma {:induction false} QuietRunHasCounted(t: seq<Node>, events: seq<CountEvent>)
    requires IsTree(t) && |t| <= TWO31
    requires !After(t, events).cast.lost && !After(t, events).timedOut && Quiet(t, After(t, events).cast)
    ensures After(t, events).emitted == [|t|]
  {
    AfterInv(t, events);
    QuietAllSent(t, After(t, events).cast, 0);
    RootReturnsOnce(t, events);
  }

  // ----- every run ends

  /** NodeIsUp messages weigh the more the further they may have to go. */
  function UpWeight(n: nat, ups: multiset<nat>): nat {
    if n == 0 then 0 else UpWeight(n - 1, ups) + n * ups[n - 1]
  }

  lemma {:induction false} UpWeightMore(n: nat, ups: multiset<nat>, v: nat)
    ensures UpWeight(n, ups + multiset{v}) == UpWeight(n, ups) + if v < n then v + 1 else 0
  {
    if n > 0 {
      UpWeightMore(n - 1, ups, v);
      if v == n - 1 {
        assert (ups + multiset{v})[v] == ups[v] + 1;
        Distribute(n, ups[v], 1);
      } else {
        assert (ups + multiset{v})[n - 1] == ups[n - 1];
      }
    }
  }

  lemma {:induction false} UpWeightLess(n: nat, ups: multiset<nat>, v: nat)
    requires v in ups
    ensures UpWeight(n, ups - multiset{v}) == UpWeight(n, ups) - if v < n then v + 1 else 0
  {
    UpWeightMore(n, ups - multiset{v}, v);
    assert ups - multiset{v} + multiset{v} == ups;
  }

  function CountWork(t: seq<Node>, s: State): int {
    Work(t, s.cast) + ToPrepare(|t|, |s.cast.prepared|) + UpWeight(|t|, s.ups) + |s.ups| + if s.timedOut then 0 else 1
  }

  function ToPrepare(n: nat, prepared: nat): int {
    (n + 2) * (n - prepared)
  }

  lemma {:induction false} ToPrepareFacts(n: nat, prepared: nat)
    ensures prepared <= n ==> ToPrepare(n, prepared) >= 0
    ensures ToPrepare(n, prepared + 1) + n + 2 == ToPrepare(n, prepared)
  {
    if prepared <= n {
      MulMonotone(n + 2, 0, n - prepared);
    }
    Distribute(n + 2, n - prepared - 1, 1);
  }

  lemma {:induction false} CountWorkPositive(t: seq<Node>, s: State)
    requires IsTree(t) && Inv(t, s.cast)
    ensures CountWork(t, s) >= 0
  {
    hide IsTree, PrepOnce, ReportsTrue, ReportsOnce, BatchesWhole, SentBottomUp, Work, ToPrepare;
    WorkPositive(t, s.cast);
    WithinTree(t, s.cast.prepared);
    ToPrepareFacts(|t|, |s.cast.prepared|);
  }

  lemma {:induction false} UpsAfter(t: seq<Node>, s: State, v: nat)
    requires IsTree(t) && Possible(t, s, PrepareCount(v))
    ensures var ups := Next(t, s, PrepareCount(v)).ups;
            |ups| <= |s.ups| + 1 && UpWeight(|t|, ups) <= UpWeight(|t|, s.ups) + |t|
  {
    if v > 0 {
      assert t[v].parent < |t|;
      UpWeightMore(|t|, s.ups, t[v].parent);
    }
    hide IsTree, UpWeight;
  }

  lemma {:induction false} CountWorkIs(t: seq<Node>, s: State)
    ensures CountWork(t, s) == Work(t, s.cast) + ToPrepare(|t|, |s.cast.prepared|) + UpWeight(|t|, s.ups) + |s.ups|
                               + if s.timedOut then 0 else 1
  {
    hide Work, ToPrepare, UpWeight;
  }

  lemma {:induction false} PrepareLess(t: seq<Node>, s: State, v: nat)
    requires IsTree(t) && Inv(t, s.cast) && Possible(t, s, PrepareCount(v))
    ensures CountWork(t, Next(t, s, PrepareCount(v))) < CountWork(t, s)
  {
    hide IsTree, Inv, Work, CountWork, UpWeight, ToPrepare;
    PreparedAnew(t, s.cast, v);
    PrepareShrinks(t, s.cast, v);
    UpsAfter(t, s, v);
    var s' := Next(t, s, PrepareCount(v));
    assert s'.cast == DoPrepare(t, s.cast, v) && s'.timedOut == s.timedOut;
    assert s'.cast.prepared == s.cast.prepared + {v};
    assert |s.cast.prepared + {v}| == |s.cast.prepared| + 1;
    ToPrepareFacts(|t|, |s.cast.prepared|);
    CountWorkIs(t, s);
    CountWorkIs(t, s');
  }

  lemma {:induction false} UpLess(t: seq<Node>, s: State, e: CountEvent)
    requires IsTree(t) && Possible(t, s, e) && (e.NodeIsUp? || e.LoseUp?)
    ensures CountWork(t, Next(t, s, e)) < CountWork(t, s)
  {
    var v := e.node;
    var rest := s.ups - multiset{v};
    UpWeightLess(|t|, s.ups, v);
    assert |rest| == |s.ups| - 1;
    if e.NodeIsUp? && v > 0 {
      assert t[v].parent < v;
      UpWeightMore(|t|, rest, t[v].parent);
    }
    assert Next(t, s, e).cast == s.cast && Next(t, s, e).timedOut == s.timedOut;
    hide IsTree, Work, UpWeight, ToPrepare;
  }

  lemma {:induction false} OtherLess(t: seq<Node>, s: State, e: CountEvent)
    requires IsTree(t) && Inv(t, s.cast) && Possible(t, s, e)
    requires e.CountArrives? || e.HandleCounts? || e.LoseCast? || e.Timeout?
    ensures CountWork(t, Next(t, s, e)) < CountWork(t, s)
  {
    hide IsTree, Inv, Work, UpWeight, ToPrepare;
    if !e.Timeout? {
      var c := if e.CountArrives? then Deliver(e.report)
               else if e.LoseCast? then e.event else Handle(e.node, ReportValue(e.node, s.cast.ready[e.node][0]));
      StepShrinks(t, s.cast, c);
      assert Next(t, s, e).cast == Step(t, s.cast, c);
      assert Step(t, s.cast, c).prepared == s.cast.prepared;
    }
  }

  /** Every event that is possible, timeout and loss included, leaves less to do. */
  lemma {:induction false} NextShrinks(t: seq<Node>, s: State, e: CountEvent)
    requires IsTree(t) && CountInv(t, s) && Possible(t, s, e)
    ensures 0 <= CountWork(t, Next(t, s, e)) < CountWork(t, s)
  {
    NextInv(t, s, e);
    hide IsTree, Inv, CountWork, Possible, Next;
    CountWorkPositive(t, Next(t, s, e));
    match e
    case PrepareCount(v) => PrepareLess(t, s, v);
    case NodeIsUp(_) => UpLess(t, s, e);
    case LoseUp(_) => UpLess(t, s, e);
    case _ => OtherLess(t, s, e);
  }

  ghost predicate AllPossible(t: seq<Node>, events: seq<CountEvent>) {
    forall k :: 0 <= k < |events| ==> Possible(t, After(t, events[..k]), events[k])
  }

  /** A run of events that are possible is no longer than the work at its start. */
  lemma {:induction false} RunsEnd(t: seq<Node>, events: seq<CountEvent>)
    requires IsTree(t) && AllPossible(t, events)
    ensures 0 <= CountWork(t, After(t, events)) <= CountWork(t, Begin(t)) - |events|
  {
    hide IsTree, CountInv, CountWork, Possible, Next;
    if events == [] {
      StartInv(t);
      CountWorkPositive(t, Begin(t));
    } else {
      var n := |events| - 1;
      assert AllPossible(t, events[..n]) by {
        assert forall k :: 0 <= k < n ==> events[..n][..k] == events[..k];
      }
      RunsEnd(t, events[..n]);
      AfterInv(t, events[..n]);
      NextShrinks(t, After(t, events[..n]), events[n]);
    }
  }
}
