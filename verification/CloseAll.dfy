/**
 The CloseAll protocol: PrepareClose goes down, and every node that has a Close
 from all its children sends its own Close. It then sleeps, closes its host and, at
 the root, signals Done. Close carries no value.
 */
module CloseAll {
  import opened Arena
  import opened Convergecast
  import opened Generated

  /** FuncClose runs up to the sleep; CloseHost and SignalDone are what it does afterwards. */
  datatype CloseEvent =
    | FuncPrepareClose(node: nat)
    | CloseArrives(from: nat)
    | FuncClose(node: nat)
    | CloseHost(node: nat)
    | SignalDone
    | LosePrepareClose(node: nat)
    | LoseClose(from: nat)

  /** A Close is a report without a value. */
  function AsCast(e: CloseEvent): Event
    requires !e.CloseHost? && !e.SignalDone?
  {
    match e
    case FuncPrepareClose(v) => Prepare(v)
    case CloseArrives(v) => Deliver(Report(v, 0))
    case FuncClose(v) => Handle(v, 0)
    case LosePrepareClose(v) => LosePrep(v)
    case LoseClose(v) => LoseReport(Report(v, 0))
  }

  /** closed: the hosts that were shut down; done: whether the root signalled Done. */
  datatype State = State(cast: Cast, closed: set<nat>, done: bool)

  function Begin(t: seq<Node>): State {
    State(Start(t), {}, false)
  }

  predicate Possible(t: seq<Node>, s: State, e: CloseEvent) {
    match e
    case CloseHost(v) => v in s.cast.sent && v !in s.closed
    case SignalDone => 0 in s.closed && !s.done
    case _ => Enabled(t, s.cast, AsCast(e))
  }

  /** An event that is not possible changes nothing. */
  function Next(t: seq<Node>, s: State, e: CloseEvent): State {
    if !Possible(t, s, e) then s
    else
      match e
      case CloseHost(v) => s.(closed := s.closed + {v})
      case SignalDone => s.(done := true)
      case _ => s.(cast := Step(t, s.cast, AsCast(e)))
  }

  function After(t: seq<Node>, events: seq<CloseEvent>): State {
    if events == [] then Begin(t) else Next(t, After(t, events[..|events| - 1]), events[|events| - 1])
  }

  // ----- every run

  ghost predicate CloseInv(t: seq<Node>, s: State)
    requires IsTree(t)
  {
    && Inv(t, s.cast)
    && (forall v :: v in s.closed ==> v in s.cast.sent)
    && (forall v :: v in s.cast.sent ==> s.cast.sent[v] == 0)
    && (s.done ==> 0 in s.closed)
  }

  lemma {:induction false} NextInv(t: seq<Node>, s: State, e: CloseEvent)
    requires IsTree(t) && CloseInv(t, s)
    ensures CloseInv(t, Next(t, s, e))
  {
    hide IsTree, Inv;
    if !e.CloseHost? && !e.SignalDone? {
      StepInv(t, s.cast, AsCast(e));
    }
  }

  lemma {:induction false} AfterInv(t: seq<Node>, events: seq<CloseEvent>)
    requires IsTree(t)
    ensures CloseInv(t, After(t, events))
  {
    if events == [] {
      StartInv(t);
    } else {
      hide CloseInv, Next;
      AfterInv(t, events[..|events| - 1]);
      NextInv(t, After(t, events[..|events| - 1]), events[|events| - 1]);
    }
  }

  /** In every run, when the root signals Done every node has run FuncClose up to its Close. */
  lemma {:induction false} DoneMeansAllSent(t: seq<Node>, events: seq<CloseEvent>, v: nat)
    requires IsTree(t) && After(t, events).done && v < |t|
    ensures v in After(t, events).cast.prepared && v in After(t, events).cast.sent
  {
    AfterInv(t, events);
    RootSentMeansAll(t, After(t, events).cast, v);
  }

  lemma {:induction false} SentBelow(t: seq<Node>, s: Cast, v: nat, w: nat)
    requires IsTree(t) && SentBottomUp(t, s) && v in s.sent && w < |t| && IsAncestor(t, v, w)
    ensures w in s.sent
    decreases w
  {
    if w != v {
      SentBelow(t, s, v, t[w].parent);
      assert w in t[t[w].parent].children;
    }
  }

  /** In every run a host closes only after every node below it has sent its Close. */
  lemma {:induction false} ClosesAfterBelow(t: seq<Node>, events: seq<CloseEvent>, v: nat, w: nat)
    requires IsTree(t) && v in After(t, events).closed && w < |t| && IsAncestor(t, v, w)
    ensures w in After(t, events).cast.sent
  {
    AfterInv(t, events);
    SentBelow(t, After(t, events).cast, v, w);
  }

  // ----- every run ends

  function CloseWork(t: seq<Node>, s: State): int {
    Work(t, s.cast) + |t| - |s.closed| + if s.done then 0 else 1
  }

  lemma {:induction false} ClosedWithin(t: seq<Node>, s: State)
    requires IsTree(t) && CloseInv(t, s)
    ensures |s.closed| <= |t|
  {
    assert SentBottomUp(t, s.cast);
    WithinTree(t, s.closed);
  }

  lemma {:induction false} CloseWorkPositive(t: seq<Node>, s: State)
    requires IsTree(t) && CloseInv(t, s)
    ensures CloseWork(t, s) >= 0
  {
    ClosedWithin(t, s);
    WorkPositive(t, s.cast);
  }

  lemma {:induction false} NextLess(t: seq<Node>, s: State, e: CloseEvent)
    requires IsTree(t) && Inv(t, s.cast) && Possible(t, s, e)
    ensures CloseWork(t, Next(t, s, e)) < CloseWork(t, s)
  {
    hide IsTree, Inv, Work, Enabled, Step;
    if e.CloseHost? {
      assert |s.closed + {e.node}| == |s.closed| + 1;
    } else if !e.SignalDone? {
      StepShrinks(t, s.cast, AsCast(e));
    }
  }

  /** Every event that is possible leaves less to do. */
  lemma {:induction false} NextShrinks(t: seq<Node>, s: State, e: CloseEvent)
    requires IsTree(t) && CloseInv(t, s) && Possible(t, s, e)
    ensures 0 <= CloseWork(t, Next(t, s, e)) < CloseWork(t, s)
  {
    hide IsTree, Inv, CloseWork, Possible, Next;
    NextLess(t, s, e);
    NextInv(t, s, e);
    CloseWorkPositive(t, Next(t, s, e));
  }

  ghost predicate AllPossible(t: seq<Node>, events: seq<CloseEvent>) {
    forall k :: 0 <= k < |events| ==> Possible(t, After(t, events[..k]), events[k])
  }

  /** A run of events that are possible is no longer than the work at its start. */
  lemma {:induction false} RunsEnd(t: seq<Node>, events: seq<CloseEvent>)
    requires IsTree(t) && AllPossible(t, events)
    ensures 0 <= CloseWork(t, After(t, events)) <= CloseWork(t, Begin(t)) - |events|
  {
    hide IsTree, CloseInv, CloseWork, Possible, Next;
    if events == [] {
      AfterInv(t, []);
      CloseWorkPositive(t, Begin(t));
    } else {
      var n := |events| - 1;
      assert AllPossible(t, events[..n]) by {
        assert forall k :: 0 <= k < n ==> events[..n][..k] == events[..k];
      }
      RunsEnd(t, events[..n]);
      AfterInv(t, events[..n]);
      NextShrinks(t, After(t, events[..n]), events[n]);
    }
  }

  predicate IsLoss(e: CloseEvent) {
    e.LosePrepareClose? || e.LoseClose?
  }

  ghost predicate Ended(t: seq<Node>, s: State) {
    forall e :: Possible(t, s, e) ==> IsLoss(e)
  }

  /** The event of this protocol for one of the convergecast. */
  function AsClose(e: Event): CloseEvent {
    match e
    case Prepare(v) => FuncPrepareClose(v)
    case Deliver(r) => CloseArrives(r.from)
    case Handle(v, _) => FuncClose(v)
    case LosePrep(v) => LosePrepareClose(v)
    case LoseReport(r) => LoseClose(r.from)
  }

  lemma {:induction false} CastMoves(t: seq<Node>, s: State, e: Event)
    requires IsTree(t) && CloseInv(t, s) && Enabled(t, s.cast, e)
    ensures Possible(t, s, AsClose(e))
  {
    if e.Deliver? {
      assert FromChild(t, s.cast.sent, t[e.report.from].parent, e.report);
      assert e.report == Report(e.report.from, 0);
    } else if e.LoseReport? {
      assert FromChild(t, s.cast.sent, t[e.report.from].parent, e.report);
      assert e.report == Report(e.report.from, 0);
    }
  }

  lemma {:induction false} EndedIsQuiet(t: seq<Node>, s: State)
    requires IsTree(t) && CloseInv(t, s) && Ended(t, s)
    ensures Quiet(t, s.cast)
  {
    hide IsTree, CloseInv, Enabled;
    forall e | Enabled(t, s.cast, e) ensures e.LosePrep? || e.LoseReport? {
      CastMoves(t, s, e);
    }
  }

  lemma {:induction false} EndedHasClosed(t: seq<Node>, s: State, v: nat)
    requires Ended(t, s) && v in s.cast.sent
    ensures v in s.closed && (0 in s.closed ==> s.done)
  {
    hide Enabled;
    assert !Possible(t, s, CloseHost(v)) && !Possible(t, s, SignalDone);
  }

  /** Without loss, a run that cannot go on has closed every host and signalled Done. */
  lemma {:induction false} EndedRunIsDone(t: seq<Node>, events: seq<CloseEvent>, v: nat)
    requires IsTree(t) && !After(t, events).cast.lost && Ended(t, After(t, events)) && v < |t|
    ensures After(t, events).done && v in After(t, events).closed
  {
    var s := After(t, events);
    assert 0 < |t|;
    AfterInv(t, events);
    hide IsTree, Inv, Ended, After, Quiet;
    EndedIsQuiet(t, s);
    QuietAllSent(t, s.cast, 0);
    QuietAllSent(t, s.cast, v);
    EndedHasClosed(t, s, 0);
    EndedHasClosed(t, s, v);
  }

  // ----- a host may close after Done

  ghost predicate AllClosed(t: seq<Node>, s: State) {
    forall v: nat :: v < |t| ==> v in s.closed
  }

  /** The nodes that have sent their Close and are still asleep. */
  function Asleep(s: State): set<nat> {
    s.cast.sent.Keys - s.closed
  }

  /** At Done, every host is closed if and only if no node is still asleep. */
  lemma {:induction false} AllClosedIffNoneAsleep(t: seq<Node>, events: seq<CloseEvent>)
    requires IsTree(t) && After(t, events).done
    ensures AllClosed(t, After(t, events)) <==> Asleep(After(t, events)) == {}
  {
    var s := After(t, events);
    AfterInv(t, events);
    assert SentBottomUp(t, s.cast);
    if Asleep(s) == {} {
      forall v: nat | v < |t| ensures v in s.closed {
        DoneMeansAllSent(t, events, v);
        assert v !in Asleep(s);
      }
    }
  }

  lemma {:induction false} NotQuiet(t: seq<Node>, s: Cast) returns (e: Event)
    requires !Quiet(t, s)
    ensures Enabled(t, s, e) && !e.LosePrep? && !e.LoseReport?
  {
    hide Enabled;
    e :| Enabled(t, s, e) && !e.LosePrep? && !e.LoseReport?;
  }

  /** A step of the convergecast, as a step of this protocol. */
  lemma {:induction false} CastNext(t: seq<Node>, s: State, e: Event)
    requires IsTree(t) && CloseInv(t, s) && Enabled(t, s.cast, e) && !e.LosePrep? && !e.LoseReport?
    ensures var s' := Next(t, s, AsClose(e));
            && s'.closed == s.closed && s'.done == s.done && (!s.cast.lost ==> !s'.cast.lost)
            && 0 <= Work(t, s'.cast) < Work(t, s.cast)
  {
    CastMoves(t, s, e);
    assert Inv(t, s.cast);
    hide IsTree, CloseInv, Inv, Work, Enabled;
    StepShrinks(t, s.cast, AsCast(AsClose(e)));
    StaysWhole(t, s.cast, AsCast(AsClose(e)));
    hide Step;
  }

  /** A run without loss in which no host closes can go on until the root has sent. */
  lemma {:induction false} RootSends(t: seq<Node>, events: seq<CloseEvent>) returns (more: seq<CloseEvent>)
    requires IsTree(t) && !After(t, events).cast.lost && After(t, events).closed == {} && !After(t, events).done
    ensures After(t, more).closed == {} && !After(t, more).done && 0 in After(t, more).cast.sent
    decreases Work(t, After(t, events).cast)
  {
    var s := After(t, events);
    assert 0 < |t|;
    AfterInv(t, events);
    hide IsTree, Inv, Quiet, Work, Next;
    if Quiet(t, s.cast) {
      QuietAllSent(t, s.cast, 0);
      return events;
    }
    hide CloseInv, Enabled;
    var e := NotQuiet(t, s.cast);
    CastNext(t, s, e);
    OneMore(t, events, AsClose(e));
    hide After;
    more := RootSends(t, events + [AsClose(e)]);
  }

  lemma {:induction false} StaysWhole(t: seq<Node>, s: Cast, e: Event)
    requires !e.LosePrep? && !e.LoseReport?
    ensures Step(t, s, e).lost == s.lost
  {
  }

  lemma {:induction false} OneMore(t: seq<Node>, events: seq<CloseEvent>, e: CloseEvent)
    ensures After(t, events + [e]) == Next(t, After(t, events), e)
  {
    assert (events + [e])[..|events + [e]| - 1] == events;
  }

  /** In every tree there is a run in which Done comes while only the root's host is closed. */
  lemma {:induction false} DoneTooEarly(t: seq<Node>) returns (events: seq<CloseEvent>)
    requires IsTree(t)
    ensures After(t, events).done && After(t, events).closed == {0}
  {
    var sent := RootSends(t, []);
    OneMore(t, sent, CloseHost(0));
    OneMore(t, sent + [CloseHost(0)], SignalDone);
    events := sent + [CloseHost(0)] + [SignalDone];
  }

  /** Such a run for a root and one leaf: the leaf sleeps through all of it. */
  lemma {:induction false} LeafSleeps(t: seq<Node>, events: seq<CloseEvent>)
    requires t == [Node(0, NO_PARENT, [1]), Node(1, 0, [])]
    requires events == [FuncPrepareClose(0), FuncPrepareClose(1), FuncClose(1), CloseArrives(1),
                        FuncClose(0), CloseHost(0), SignalDone]
    ensures After(t, events).done && 1 in After(t, events).cast.sent && 1 !in After(t, events).closed
  {
    hide After, Next, Begin;
    FirstThree(t, events);
    LeafSends(t);
    LastFour(t, events);
    RootFollows(t, After(t, events[..3]));
  }

  lemma {:induction false} FirstThree(t: seq<Node>, es: seq<CloseEvent>)
    requires |es| >= 3
    ensures After(t, es[..3]) == Next(t, Next(t, Next(t, Begin(t), es[0]), es[1]), es[2])
  {
    hide Next;
    AfterFirst(t, es, 0);
    AfterFirst(t, es, 1);
    AfterFirst(t, es, 2);
    assert es[..0] == [];
  }

  lemma {:induction false} LastFour(t: seq<Node>, es: seq<CloseEvent>)
    requires |es| == 7
    ensures After(t, es) == Next(t, Next(t, Next(t, Next(t, After(t, es[..3]), es[3]), es[4]), es[5]), es[6])
  {
    hide Next;
    AfterFirst(t, es, 3);
    AfterFirst(t, es, 4);
    AfterFirst(t, es, 5);
    AfterFirst(t, es, 6);
    assert es[..7] == es;
  }

  lemma {:induction false} AfterFirst(t: seq<Node>, es: seq<CloseEvent>, k: nat)
    requires k < |es|
    ensures After(t, es[..k + 1]) == Next(t, After(t, es[..k]), es[k])
  {
    assert es[..k + 1][..k] == es[..k];
  }

  lemma {:induction false} BothPrepared(t: seq<Node>)
    requires t == [Node(0, NO_PARENT, [1]), Node(1, 0, [])]
    ensures Next(t, Next(t, Begin(t), FuncPrepareClose(0)), FuncPrepareClose(1)) ==
            State(Cast({0, 1}, map[], multiset{}, multiset{}, [[], []], [[], [[]]], false), {}, false)
  {
    var s0 := Begin(t);
    var s1 := Next(t, s0, FuncPrepareClose(0));
    assert s1.cast == s0.cast.(prepared := {0}, preps := multiset{1});
    var s2 := Next(t, s1, FuncPrepareClose(1));
    assert Enabled(t, s1.cast, Prepare(1)) && t[1].children == [];
    var leaf: seq<Report> := [];
    assert [] + [leaf] == [leaf] && s1.cast.ready == [[], []] && s1.cast.queue == [[], []];
    assert s2.cast.ready == s1.cast.ready[1 := [leaf]];
    assert multiset(t[1].children) == multiset{};
    assert s2.cast == s1.cast.(prepared := {0, 1}, preps := multiset{}, ready := [[], [[]]]);
  }

  lemma {:induction false} LeafSends(t: seq<Node>)
    requires t == [Node(0, NO_PARENT, [1]), Node(1, 0, [])]
    ensures Next(t, Next(t, Next(t, Begin(t), FuncPrepareClose(0)), FuncPrepareClose(1)), FuncClose(1)) ==
            State(Cast({0, 1}, map[1 := 0], multiset{}, multiset{Report(1, 0)}, [[], []], [[], []], false), {}, false)
  {
    BothPrepared(t);
    hide Begin;
    var s2 := Next(t, Next(t, Begin(t), FuncPrepareClose(0)), FuncPrepareClose(1));
    var s3 := Next(t, s2, FuncClose(1));
    var leaf: seq<Report> := [];
    assert Enabled(t, s2.cast, Handle(1, 0)) && [leaf][1..] == [];
    assert s3.cast.ready == [[], []] && s3.cast.sent == map[1 := 0];
    assert s3.cast.reports == multiset{Report(1, 0)};
  }

  lemma {:induction false} RootFollows(t: seq<Node>, s: State)
    requires t == [Node(0, NO_PARENT, [1]), Node(1, 0, [])]
    requires s == State(Cast({0, 1}, map[1 := 0], multiset{}, multiset{Report(1, 0)}, [[], []], [[], []], false),
                        {}, false)
    ensures var e := Next(t, Next(t, Next(t, Next(t, s, CloseArrives(1)), FuncClose(0)), CloseHost(0)), SignalDone);
            e.done && 1 in e.cast.sent && 1 !in e.closed
  {
    var s1 := Next(t, s, CloseArrives(1));
    var r := Report(1, 0);
    assert Enabled(t, s.cast, Deliver(r)) && |t[0].children| == 1;
    assert [] + [r] == [r] && [] + [[r]] == [[r]];
    assert s1.cast.ready[0] == [[Report(1, 0)]] && 0 !in s1.cast.sent;
    var s2 := Next(t, s1, FuncClose(0));
    assert 0 in s2.cast.sent && 1 in s2.cast.sent && s2.closed == {};
  }

  /** Done means that every host is closed, in every run, if and only if the root is the only node. */
  lemma {:induction false} DoneMeansAllClosedIff(t: seq<Node>)
    requires IsTree(t)
    ensures (forall events :: After(t, events).done ==> AllClosed(t, After(t, events))) <==> |t| == 1
  {
    if |t| == 1 {
      forall events | After(t, events).done ensures AllClosed(t, After(t, events)) {
        AfterInv(t, events);
      }
    } else {
      var events := DoneTooEarly(t);
      assert 1 !in After(t, events).closed;
    }
  }
}
