/**
 Drained messages get on: whatever the state of a run, the drains and the holder of the
 transmit lock can go on by themselves until every drained message is settled.
 */
module OverlayProgress {
  import opened TreeStorage
  import opened OverlayState
  import opened OverlayMessages
  import opened OverlayRuns
  import opened OverlayOrder

  // ----- the drains of a run are of one tree each

  ghost predicate DrainsOfOneTree(ds: seq<seq<Msg>>) {
    forall l :: 0 <= l < |ds| ==> OneTree(ds[l])
  }

  lemma {:induction false} RegisterTreeDrains(s: State, t: Tree)
    requires DrainsOfOneTree(s.drains)
    ensures DrainsOfOneTree(RegisterTree(s, t).drains)
  {
    FilterWithin(s.pending, t.id);
    hide Matching, NotMatching;
  }

  lemma {:induction false} TailOfOneTree(ds: seq<seq<Msg>>, l: nat)
    requires DrainsOfOneTree(ds) && l < |ds| && ds[l] != []
    ensures DrainsOfOneTree(ds[l := ds[l][1..]])
  {
    var d := ds[l];
    assert OneTree(d);
    assert forall i :: 0 <= i < |d| - 1 ==> d[1..][i] == d[i + 1];
  }

  lemma {:induction false} StepDrains(s: State, e: Event)
    requires DrainsOfOneTree(s.drains)
    ensures DrainsOfOneTree(Step(s, e).drains)
  {
    hide Transmit, RegisterTree, DeleteAll, OneTree;
    if Possible(s, e) {
      match e
      case Receive(m, o) => TransmitPending(s.(received := s.received + multiset{m}), m, o);
      case Drain(l, o) =>
        TailOfOneTree(s.drains, l);
        TransmitPending(s.(drains := s.drains[l := s.drains[l][1..]]), s.drains[l][0], o);
      case NewInstance(t, tok) =>
        RegisterTreeDrains(s.(reg := List(s.reg, tok), creating := s.creating[s.reg.nextInst := tok]), t);
      case Response(t) => RegisterTreeDrains(s, t);
      case LocalTree(t) => RegisterTreeDrains(s, t);
      case Shutdown(order) => DeleteAllPlaces(s, order);
      case _ =>
    }
  }

  lemma {:induction false} RunDrains(es: seq<Event>)
    ensures DrainsOfOneTree(Run(es).drains)
  {
    if es != [] {
      hide Step, DrainsOfOneTree;
      RunDrains(es[..|es| - 1]);
      StepDrains(Run(es[..|es| - 1]), es[|es| - 1]);
    }
  }

  // ----- the events that bring messages to their instances

  predicate IsDelivery(e: Event) {
    e.Drain? || e.RegisterPI? || e.Hand?
  }

  function StageWeight(stage: Stage): nat {
    match stage
    case Idle => 0
    case Chosen(_, _) => 1
    case Created(_, _) => 2
  }

  /** Steps left at most: three for every drained message, and those of the message in transmission. */
  function ToDeliver(s: State): nat {
    3 * |Held(s.drains)| + StageWeight(s.stage)
  }

  lemma {:induction false} TransmitStage(s: State, m: Msg, o: Outcome)
    requires CanTransmit(s, m)
    ensures StageWeight(Transmit(s, m, o).stage) <= StageWeight(s.stage) + 2
  {
  }

  lemma {:induction false} HeldShrinks(ds: seq<seq<Msg>>, l: nat)
    requires l < |ds| && ds[l] != []
    ensures |Held(ds[l := ds[l][1..]])| == |Held(ds)| - 1
  {
    HeldTake(ds, l);
    assert |Held(ds[l := ds[l][1..]]) + multiset{ds[l][0]}| == |Held(ds[l := ds[l][1..]])| + 1;
  }

  /** Every such event leaves fewer of them to come. */
  lemma {:induction false} DeliveryShrinks(s: State, e: Event)
    requires IsDelivery(e) && Possible(s, e)
    ensures ToDeliver(Step(s, e)) < ToDeliver(s)
  {
    hide Held, Transmit;
    if e.Drain? {
      var s1 := s.(drains := s.drains[e.list := s.drains[e.list][1..]]);
      HeldShrinks(s.drains, e.list);
      TransmitStage(s1, s.drains[e.list][0], e.outcome);
      TransmitPending(s1, s.drains[e.list][0], e.outcome);
    }
  }

  ghost predicate NoDelivery(s: State) {
    forall e :: Possible(s, e) ==> !IsDelivery(e)
  }

  /** When none of them is possible, no message is drained and none is in transmission. */
  lemma {:induction false} StuckIsEmpty(s: State)
    requires NoDelivery(s)
    ensures s.stage == Idle && Held(s.drains) == multiset{}
  {
    var o := Outcome(true, true, ProtoOk);
    assert !Possible(s, RegisterPI) && !Possible(s, Hand);
    forall l: nat | l < |s.drains| ensures s.drains[l] == [] {
      assert !Possible(s, Drain(l, o));
    }
    HeldNothing(s.drains);
  }

  lemma {:induction false} HeldNothing(ds: seq<seq<Msg>>)
    requires forall l: nat :: l < |ds| ==> ds[l] == []
    ensures Held(ds) == multiset{}
  {
    if ds != [] {
      HeldNothing(ds[..|ds| - 1]);
    }
  }

  // ----- continuations of a run

  /** `more` are events that are possible one after the other. */
  ghost predicate Continues(es: seq<Event>, more: seq<Event>) {
    forall k :: 0 <= k < |more| ==> Possible(Run(es + more[..k]), more[k])
  }

  predicate AllDelivery(more: seq<Event>) {
    forall k :: 0 <= k < |more| ==> IsDelivery(more[k])
  }

  lemma {:induction false} RunMore(es: seq<Event>, e: Event)
    ensures Run(es + [e]) == Step(Run(es), e)
  {
    assert (es + [e])[..|es + [e]| - 1] == es;
  }

  lemma {:induction false} ContinuesLess(es: seq<Event>, more: seq<Event>)
    requires more != [] && Continues(es, more)
    ensures var n := |more| - 1;
            && Continues(es, more[..n]) && Possible(Run(es + more[..n]), more[n])
            && es + more == es + more[..n] + [more[n]]
  {
    var n := |more| - 1;
    hide Run, Possible;
    assert forall k :: 0 <= k < n ==> more[..n][..k] == more[..k];
  }

  /** No continuation by these events is longer than the steps left. */
  lemma {:induction false} DeliveryEnds(es: seq<Event>, more: seq<Event>)
    requires Continues(es, more) && AllDelivery(more)
    ensures |more| + ToDeliver(Run(es + more)) <= ToDeliver(Run(es))
  {
    hide Run, Step, Possible, ToDeliver;
    if more == [] {
      assert es + more == es;
    } else {
      var n := |more| - 1;
      ContinuesLess(es, more);
      DeliveryEnds(es, more[..n]);
      RunMore(es + more[..n], more[n]);
      DeliveryShrinks(Run(es + more[..n]), more[n]);
    }
  }

  lemma {:induction false} ReadyStep(s: State, e: Event)
    requires DrainsReady(s) && IsDelivery(e) && Possible(s, e)
    ensures DrainsReady(Step(s, e)) && Step(s, e).pending == s.pending && Step(s, e).received == s.received
  {
    StepReady(s, e);
    StepReceived(s, e);
    if e.Drain? {
      assert Available(s.storage, s.drains[e.list][0].to.tree);
      TransmitPending(s.(drains := s.drains[e.list := s.drains[e.list][1..]]), s.drains[e.list][0], e.outcome);
      hide Transmit;
    }
  }

  lemma {:induction false} StaysReady(es: seq<Event>, more: seq<Event>)
    requires DrainsReady(Run(es)) && Continues(es, more) && AllDelivery(more)
    ensures DrainsReady(Run(es + more))
    ensures Run(es + more).pending == Run(es).pending && Run(es + more).received == Run(es).received
  {
    hide Run, Step, Possible, DrainsReady;
    if more == [] {
      assert es + more == es;
    } else {
      var n := |more| - 1;
      ContinuesLess(es, more);
      StaysReady(es, more[..n]);
      RunMore(es + more[..n], more[n]);
      ReadyStep(Run(es + more[..n]), more[n]);
    }
  }

  /**
   When the drains and the transmission have gone on for as long as they can, every
   drained message and the one in transmission were queued, dropped or refused, and no
   other, provided that the trees of the drains are there.
   */
  lemma {:induction false} StuckHasSettled(es: seq<Event>, more: seq<Event>)
    requires DrainsReady(Run(es)) && Continues(es, more) && AllDelivery(more) && NoDelivery(Run(es + more))
    ensures Settled(Run(es + more).log) == Settled(Run(es).log) + Held(Run(es).drains) + InStage(Run(es).stage)
  {
    StaysReady(es, more);
    hide Run, Continues, DrainsReady, NoDelivery;
    MessagesConserved(es);
    MessagesConserved(es + more);
    StuckIsEmpty(Run(es + more));
    hide Settled, Held;
    SettledRest(Run(es), Run(es + more));
  }

  lemma {:induction false} SettledRest(s: State, s': State)
    requires Everywhere(s) == Everywhere(s') && s'.pending == s.pending
    requires s'.stage == Idle && Held(s'.drains) == multiset{}
    ensures Settled(s'.log) == Settled(s.log) + Held(s.drains) + InStage(s.stage)
  {
    hide Settled, Held, Everywhere;
    SettledOf(s, s', Held(s.drains));
  }

  // ----- one drain

  /** The next event for list l: the message in transmission first, then the next of the list. */
  function NextFor(s: State, l: nat, o: Outcome): Event
    requires l < |s.drains|
  {
    match s.stage
    case Created(_, _) => RegisterPI
    case Chosen(_, _) => Hand
    case Idle => Drain(l, o)
  }

  /** The tree of a list is there as long as the list is not empty. */
  ghost predicate ListReady(s: State, l: nat) {
    l < |s.drains| && (s.drains[l] != [] ==> Available(s.storage, s.drains[l][0].to.tree))
  }

  lemma {:induction false} ListStep(s: State, l: nat, o: Outcome)
    requires DrainsOfOneTree(s.drains) && ListReady(s, l) && (s.stage != Idle || s.drains[l] != [])
    ensures var e := NextFor(s, l, o);
            var s' := Step(s, e);
            && Possible(s, e) && IsDelivery(e) && ListReady(s', l)
            && s'.drains == s.drains[l := s'.drains[l]] && s'.pending == s.pending && s'.received == s.received
  {
    var e := NextFor(s, l, o);
    assert Possible(s, e);
    StepReceived(s, e);
    if s.drains[l] != [] {
      AvailableStays(s, e, s.drains[l][0].to.tree);
    }
    if e.Drain? {
      assert OneTree(s.drains[l]);
      TransmitPending(s.(drains := s.drains[l := s.drains[l][1..]]), s.drains[l][0], o);
      hide Transmit;
    }
  }

  lemma {:induction false} ContinuesMore(es: seq<Event>, e: Event, more: seq<Event>)
    requires Possible(Run(es), e) && Continues(es + [e], more)
    ensures Continues(es, [e] + more) && es + ([e] + more) == es + [e] + more
  {
    hide Run, Possible;
    var all := [e] + more;
    assert es + all[..0] == es;
    forall k | 0 <= k < |all| ensures Possible(Run(es + all[..k]), all[k]) {
      if k > 0 {
        assert es + all[..k] == es + [e] + more[..k - 1];
      }
    }
  }

  /** A drain whose tree is there can empty itself, whatever the outcomes, and moves no other message. */
  lemma {:induction false} ListEmpties(es: seq<Event>, l: nat, o: Outcome) returns (more: seq<Event>)
    requires ListReady(Run(es), l)
    ensures Continues(es, more) && AllDelivery(more)
    ensures forall k :: 0 <= k < |more| ==> more[k].Drain? ==> more[k].list == l
    ensures Run(es + more).drains == Run(es).drains[l := []] && Run(es + more).stage == Idle
    ensures Run(es + more).pending == Run(es).pending && Run(es + more).received == Run(es).received
    decreases ToDeliver(Run(es))
  {
    var s := Run(es);
    RunDrains(es);
    hide Run, Step, Possible, ToDeliver, DrainsOfOneTree;
    if s.stage == Idle && s.drains[l] == [] {
      more := [];
      assert es + more == es && s.drains[l := []] == s.drains;
    } else {
      var e := NextFor(s, l, o);
      ListStep(s, l, o);
      RunMore(es, e);
      DeliveryShrinks(s, e);
      var rest := ListEmpties(es + [e], l, o);
      more := [e] + rest;
      ContinuesMore(es, e, rest);
    }
  }

  /** In every run, a drain whose tree is there can go on until all its messages are queued, dropped or refused. */
  lemma {:induction false} DrainDelivers(es: seq<Event>, l: nat, o: Outcome) returns (more: seq<Event>)
    requires ListReady(Run(es), l)
    ensures Continues(es, more) && AllDelivery(more)
    ensures forall k :: 0 <= k < |more| ==> more[k].Drain? ==> more[k].list == l
    ensures Run(es + more).drains == Run(es).drains[l := []]
    ensures Settled(Run(es + more).log) == Settled(Run(es).log) + multiset(Run(es).drains[l]) + InStage(Run(es).stage)
  {
    more := ListEmpties(es, l, o);
    MessagesConserved(es);
    MessagesConserved(es + more);
    var s, s' := Run(es), Run(es + more);
    hide Run, Settled, Continues;
    HeldUpdate(s.drains, l, []);
    SettledOf(s, s', multiset(s.drains[l]));
  }

  lemma {:induction false} SameRest(x: multiset<Msg>, a: multiset<Msg>, b: multiset<Msg>)
    requires x + a == x + b
    ensures a == b
  {
    assert a == (x + a) - x && b == (x + b) - x;
  }

  lemma {:induction false} SettledOf(s: State, s': State, d: multiset<Msg>)
    requires Everywhere(s) == Everywhere(s') && s'.pending == s.pending
    requires s'.stage == Idle && Held(s'.drains) + d == Held(s.drains)
    ensures Settled(s'.log) == Settled(s.log) + d + InStage(s.stage)
  {
    hide Settled, Held;
    var x := multiset(s.pending) + Held(s'.drains);
    var a, b := Settled(s'.log), Settled(s.log) + d + InStage(s.stage);
    assert x + a == Everywhere(s');
    assert x + b == Everywhere(s);
    SameRest(x, a, b);
  }

  // ----- an answer

  lemma {:induction false} ResponseStep(s: State, t: Tree)
    requires IsRegistered(s.storage, t.id)
    ensures var s' := Step(s, Response(t));
            && Possible(s, Response(t)) && s'.drains == s.drains + [Matching(s.pending, t.id)]
            && s'.stage == s.stage && s'.log == s.log && Available(s'.storage, t.id)
  {
    hide Matching, NotMatching;
  }

  /**
   In every run, once the answer to a request is there, all messages that wait for the
   tree can be queued, dropped or refused, with no further message received.
   */
  lemma {:induction false} AnswerDelivers(es: seq<Event>, t: Tree, o: Outcome) returns (more: seq<Event>)
    requires IsRegistered(Run(es).storage, t.id)
    ensures Continues(es, [Response(t)] + more) && AllDelivery(more)
    ensures Settled(Run(es + ([Response(t)] + more)).log) ==
            Settled(Run(es).log) + multiset(Matching(Run(es).pending, t.id)) + InStage(Run(es).stage)
  {
    var s := Run(es);
    ResponseStep(s, t);
    FilterWithin(s.pending, t.id);
    RunMore(es, Response(t));
    hide Run, Step, Possible, Matching, Settled;
    var l := |s.drains|;
    assert ListReady(Run(es + [Response(t)]), l);
    more := DrainDelivers(es + [Response(t)], l, o);
    ContinuesMore(es, Response(t), more);
  }

  lemma {:induction false} MatchingHas(ms: seq<Msg>, tree: nat, m: Msg)
    requires m in ms && m.to.tree == tree
    ensures m in Matching(ms, tree)
  {
    var n := |ms| - 1;
    if m != ms[n] {
      assert m in ms[..n];
      MatchingHas(ms[..n], tree, m);
    }
  }

  /** A message whose tree is not there waits for it; its id is registered if the request could be sent. */
  lemma {:induction false} RequestStep(s: State, m: Msg, o: Outcome)
    requires Possible(s, Receive(m, o)) && !Available(s.storage, m.to.tree)
    ensures Step(s, Receive(m, o)).pending == s.pending + [m]
    ensures o.wrapOk && o.sendOk ==> IsRegistered(Step(s, Receive(m, o)).storage, m.to.tree)
  {
  }

  /**
   In every run, a message that is pending, for whatever reason, can be settled after one
   more message for its tree that gets its request out, and the answer to it.
   */
  lemma {:induction false} PendingDelivers(es: seq<Event>, m: Msg, again: Msg, o: Outcome, t: Tree)
    returns (more: seq<Event>)
    requires m in Run(es).pending && again.to.tree == m.to.tree == t.id
    requires Possible(Run(es), Receive(again, o)) && o.wrapOk && o.sendOk
    ensures var all := [Receive(again, o)] + ([Response(t)] + more);
            && Continues(es, all) && AllDelivery(more)
            && m in Settled(Run(es + all).log) && again in Settled(Run(es + all).log)
  {
    hide Run, Step, Possible, Matching, Settled, Continues, InStage;
    var s, e := Run(es), Receive(again, o);
    var i :| 0 <= i < |s.pending| && s.pending[i] == m;
    PendingLacksTree(es, i);
    RequestStep(s, again, o);
    RunMore(es, e);
    more := AnswerDelivers(es + [e], t, o);
    ContinuesMore(es, e, [Response(t)] + more);
    var pending := Run(es + [e]).pending;
    assert pending == s.pending + [again];
    MatchingHas(pending, t.id, m);
    MatchingHas(pending, t.id, again);
  }

  /**
   A message whose request could not be sent is not lost: after the next message for its
   tree and the answer it can be queued, dropped or refused.
   */
  lemma {:induction false} FailedSendDelivers(es: seq<Event>, m: Msg, failed: Outcome, again: Msg, o: Outcome, t: Tree)
    returns (more: seq<Event>)
    requires Possible(Run(es), Receive(m, failed)) && failed.wrapOk && !failed.sendOk
    requires !IsRegistered(Run(es).storage, m.to.tree) && again.to.tree == m.to.tree == t.id
    requires Possible(Run(es + [Receive(m, failed)]), Receive(again, o)) && o.wrapOk && o.sendOk
    ensures var all := [Receive(m, failed)] + ([Receive(again, o)] + ([Response(t)] + more));
            Continues(es, all) && AllDelivery(more) && m in Settled(Run(es + all).log)
  {
    var e := Receive(m, failed);
    FailedSend(Run(es), m, failed);
    RunMore(es, e);
    hide Run, Step, Possible, Settled, Continues;
    more := PendingDelivers(es + [e], m, again, o, t);
    ContinuesMore(es, e, [Receive(again, o)] + ([Response(t)] + more));
  }
}
