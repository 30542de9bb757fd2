/**
 The overlay as an object: the handlers update its maps and lists in place. Every
 handler is proved to be an event of OverlayState, so that at all times the object is in
 the state of a run, and what is proved of all runs holds for all sequences of calls.
 */
module OverlayHandlers {
  import opened TreeStorage
  import opened OverlayState
  import opened OverlayRuns

  lemma {:induction false} RunMore(es: seq<Event>, e: Event)
    ensures Run(es + [e]) == Step(Run(es), e) && Inv(Run(es + [e]))
  {
    assert (es + [e])[..|es + [e]| - 1] == es;
    RunInv(es + [e]);
    hide Step, Inv;
  }

  class Overlay {
    const treeStorage: Store<Tree>
    var instances: map<Token, nat>
    var instancesInfo: map<Token, bool>
    var protocolInstances: map<Token, nat>
    var pendingMsg: seq<Msg>
    /** State of the instances themselves: whether bound, whether closing. */
    var bound: set<nat>
    var closing: set<nat>
    var nextInst: nat
    /** Running goroutines: the drains and the holder of the transmit lock. */
    var drains: seq<seq<Msg>>
    var stage: Stage
    var creating: map<nat, Token>
    ghost var received: multiset<Msg>
    ghost var log: seq<Entry>
    /** All that has happened. */
    ghost var events: seq<Event>

    /** Only tokens that are done are marked. */
    ghost predicate Marked()
      reads this
    {
      forall tok :: tok in instancesInfo ==> instancesInfo[tok]
    }

    ghost function Model(): State
      reads this, treeStorage
    {
      State(treeStorage.Model(),
            Registry(instances, protocolInstances, bound, closing, instancesInfo.Keys, nextInst),
            pendingMsg, drains, stage, creating, received, log)
    }

    /** The object is where the events have brought it, and so every theorem about runs holds of it. */
    ghost predicate Valid()
      reads this, treeStorage
    {
      Marked() && Model() == Run(events) && Inv(Model())
    }

    constructor ()
      ensures Valid() && events == [] && fresh(treeStorage)
    {
      treeStorage := new Store<Tree>();
      instances, instancesInfo, protocolInstances := map[], map[], map[];
      pendingMsg, drains, stage, creating := [], [], Idle, map[];
      bound, closing, nextInst := {}, {}, 0;
      received, log, events := multiset{}, [], [];
      new;
      BeginInv();
    }

    // ----- the parts of the handlers

    /** cleanTreeStorage: plans the removal of the tree unless another instance uses it. */
    method CleanTreeStorage(token: Token)
      modifies treeStorage
      ensures treeStorage.Model() ==
              if InUse(instances, token.tree) then old(treeStorage.Model())
              else Remove(old(treeStorage.Model()), token.tree)
    {
      var notUsed := true;
      var rest := instances.Keys;
      while rest != {}
        invariant rest <= instances.Keys
        invariant !notUsed <==> exists tok :: tok in instances && tok !in rest && tok.tree == token.tree
        decreases |rest|
      {
        var inst :| inst in rest;
        if inst.tree == token.tree {
          notUsed := false;
        }
        rest := rest - {inst};
      }
      if notUsed {
        treeStorage.RemoveTree(token.tree, 0);
      }
    }

    method Unlisting(token: Token)
      requires Marked() && token in instances
      modifies this`closing, this`log, this`protocolInstances, this`instances
      ensures Marked() && Model() ==
              Note(old(Model()).(reg := Unlist(old(Model()).reg, token).(finished := old(Model()).reg.finished)),
                   Closed(old(instances[token])))
    {
      var inst := instances[token];
      closing, log := closing + {inst}, log + [Closed(inst)];
      protocolInstances, instances := protocolInstances - {token}, instances - {token};
    }

    method MarkDone(token: Token)
      requires Marked()
      modifies this`instancesInfo
      ensures Marked()
      ensures Model() == old(Model()).(reg := old(Model()).reg.(finished := old(Model()).reg.finished + {token}))
    {
      instancesInfo := instancesInfo[token := true];
      assert instancesInfo.Keys == old(instancesInfo.Keys) + {token};
    }

    method NodeDelete(token: Token)
      requires Marked()
      modifies this`closing, this`log, this`protocolInstances, this`instances, this`instancesInfo, treeStorage
      ensures Marked() && Model() == OverlayState.NodeDelete(old(Model()), token)
      ensures instances == old(instances) - {token}
      ensures token in old(instances) ==> token in instancesInfo
    {
      if token !in instances {
        return;
      }
      hide Remove, InUse;
      ghost var storage := treeStorage.Model();
      Unlisting(token);
      CleanTreeStorage(token);
      assert treeStorage.Model() ==
             if InUse(instances, token.tree) then storage else Remove(storage, token.tree);
      MarkDone(token);
      hide Store.Model;
    }

    method RequestTree(m: Msg, o: Outcome)
      requires Marked()
      modifies this`pendingMsg, this`log, treeStorage
      ensures Marked() && Model() == OverlayState.RequestTree(old(Model()), m, o)
    {
      pendingMsg := pendingMsg + [m];
      if !o.wrapOk {
        return;
      }
      if m.to.tree in treeStorage.trees {
        return;
      }
      treeStorage.RegisterId(m.to.tree);
      log := log + [Requested(m.to.tree)];
      if !o.sendOk {
        treeStorage.UnregisterId(m.to.tree);
        log := log + [Forgotten(m.to.tree)];
      }
    }

    /** newTreeNodeInstanceFromToken: the instance is listed under its token. */
    method ListInstance(tok: Token) returns (inst: nat)
      requires Marked()
      modifies this`nextInst, this`instances
      ensures Marked() && inst == old(nextInst) && instances == old(instances)[tok := inst]
      ensures Model() == old(Model()).(reg := List(old(Model()).reg, tok))
    {
      inst := nextInst;
      nextInst, instances := nextInst + 1, instances[tok := inst];
    }

    /** newTreeNodeInstanceFromToken, then the creation of the protocol instance. */
    method CreateInstance(m: Msg, proto: Proto)
      requires Marked()
      modifies this, treeStorage
      ensures Marked() && Model() == Create(old(Model()), m, proto) && events == old(events)
      ensures proto.ProtoError? ==> m.to !in instances && m.to in instancesInfo && stage == old(stage)
      ensures proto.ProtoNil? ==>
                && instances == old(instances)[m.to := old(nextInst)]
                && instancesInfo == old(instancesInfo) && stage == old(stage)
      ensures proto.ProtoOk? ==>
                instances == old(instances)[m.to := old(nextInst)] && stage == Created(m, old(nextInst))
    {
      hide OverlayState.NodeDelete, Store.Model, List;
      var inst := ListInstance(m.to);
      match proto
      case ProtoError =>
        NodeDelete(m.to);
        log := log + [Refused(m)];
      case ProtoNil =>
        log := log + [Refused(m)];
      case ProtoOk =>
        stage := Created(m, inst);
    }

    method TransmitMsg(m: Msg, o: Outcome)
      requires Marked() && CanTransmit(Model(), m)
      modifies this, treeStorage
      ensures Marked() && Model() == Transmit(old(Model()), m, o) && events == old(events)
    {
      var tree := treeStorage.GetAndRefresh(m.to.tree);
      if tree.None? {
        RequestTree(m, o);
        return;
      }
      var done := m.to in instancesInfo && instancesInfo[m.to];
      if done {
        log := log + [Dropped(m)];
        return;
      }
      if m.to in protocolInstances {
        stage := Chosen(m, protocolInstances[m.to]);
        return;
      }
      if m.to.node !in tree.value.nodes {
        log := log + [Refused(m)];
        return;
      }
      CreateInstance(m, o.proto);
    }

    /** RegisterProtocolInstance for the protocol instance made for `inst`. */
    method RegisterProtocolInstance(tok: Token, inst: nat) returns (ok: bool)
      requires Marked()
      modifies this`bound, this`protocolInstances
      ensures Marked() && ok == CanBind(old(Model()).reg, tok)
      ensures Model() == old(Model()).(reg := Bind(old(Model()).reg, tok, inst))
    {
      if tok !in instances {
        return false;
      }
      var tni := instances[tok];
      if tni in bound {
        return false;
      }
      bound := bound + {tni};
      protocolInstances := protocolInstances[tok := inst];
      return true;
    }

    /** The loop of checkPendingMessages that splits the pending list. */
    method TakePending(id: nat) returns (remaining: seq<Msg>)
      modifies this`pendingMsg
      ensures remaining == Matching(old(pendingMsg), id)
      ensures pendingMsg == NotMatching(old(pendingMsg), id)
    {
      var newPending: seq<Msg> := [];
      remaining := [];
      for i := 0 to |pendingMsg|
        invariant pendingMsg == old(pendingMsg)
        invariant remaining == Matching(pendingMsg[..i], id)
        invariant newPending == NotMatching(pendingMsg[..i], id)
      {
        var msg := pendingMsg[i];
        assert pendingMsg[..i + 1][..i] == pendingMsg[..i];
        if id == msg.to.tree {
          remaining := remaining + [msg];
        } else {
          newPending := newPending + [msg];
        }
      }
      assert pendingMsg[..|pendingMsg|] == pendingMsg;
      pendingMsg := newPending;
    }

    method SetAndDrain(t: Tree)
      requires Marked()
      modifies this`pendingMsg, this`drains, treeStorage
      ensures Marked() && Model() == OverlayState.RegisterTree(old(Model()), t)
    {
      treeStorage.SetTree(t.id, t);
      var remaining := TakePending(t.id);
      drains := drains + [remaining];
    }

    // ----- the handlers: each is one event of a run

    /** A message comes in from the network. */
    method Process(m: Msg, o: Outcome)
      requires Valid() && Possible(Model(), Receive(m, o))
      modifies this, treeStorage
      ensures Valid() && events == old(events) + [Receive(m, o)]
    {
      RunMore(events, Receive(m, o));
      hide Run, Inv, Transmit;
      received := received + multiset{m};
      TransmitMsg(m, o);
      events := events + [Receive(m, o)];
    }

    /** A drain goes on with its next message. */
    method DrainNext(l: nat, o: Outcome)
      requires Valid() && Possible(Model(), Drain(l, o))
      modifies this, treeStorage
      ensures Valid() && events == old(events) + [Drain(l, o)]
    {
      RunMore(events, Drain(l, o));
      hide Run, Inv, Transmit;
      var m := drains[l][0];
      drains := drains[l := drains[l][1..]];
      TransmitMsg(m, o);
      events := events + [Drain(l, o)];
    }

    /** The protocol made for a message is registered, or the message is refused. */
    method RegisterCreated()
      requires Valid() && stage.Created?
      modifies this
      ensures Valid() && events == old(events) + [RegisterPI]
    {
      RunMore(events, RegisterPI);
      hide Run, Inv, Bind;
      var m, inst := stage.msg, stage.inst;
      var ok := RegisterProtocolInstance(m.to, inst);
      if ok {
        stage := Chosen(m, inst);
      } else {
        stage := Idle;
        log := log + [Refused(m)];
        BindNothing(old(Model()).reg, m.to, inst);
      }
      events := events + [RegisterPI];
    }

    /** The end of TransmitMsg: the instance refuses messages once it is closing. */
    method ProcessProtocolMsg()
      requires Valid() && stage.Chosen?
      modifies this
      ensures Valid() && events == old(events) + [Hand]
    {
      RunMore(events, Hand);
      hide Run, Inv;
      events := events + [Hand];
      var m, inst := stage.msg, stage.inst;
      stage := Idle;
      if inst in closing {
        log := log + [Dropped(m)];
        return;
      }
      log := log + [Queued(m, inst)];
    }

    /** NewTreeNodeInstanceFromService: a local protocol, under a fresh token. */
    method NewTreeNodeInstance(t: Tree, tok: Token)
      requires Valid() && Possible(Model(), NewInstance(t, tok))
      modifies this, treeStorage
      ensures Valid() && events == old(events) + [NewInstance(t, tok)]
    {
      hide Run, Inv, Step, OverlayState.RegisterTree;
      RunMore(events, NewInstance(t, tok));
      NewInstanceIs(Model(), t, tok);
      ghost var s := Model();
      instances, creating, nextInst := instances[tok := nextInst], creating[nextInst := tok], nextInst + 1;
      assert Model() == s.(reg := List(s.reg, tok), creating := s.creating[s.reg.nextInst := tok]);
      hide List, Possible;
      SetAndDrain(t);
      events := events + [NewInstance(t, tok)];
    }

    /** The protocol instance of a local protocol is registered. */
    method RegisterLocalInstance(i: nat)
      requires Valid() && i in creating
      modifies this
      ensures Valid() && events == old(events) + [RegisterLocal(i)]
    {
      RunMore(events, RegisterLocal(i));
      hide Run, Inv, Bind;
      var ok := RegisterProtocolInstance(creating[i], i);
      creating := creating - {i};
      events := events + [RegisterLocal(i)];
    }

    /** A tree is made known locally. */
    method RegisterTree(t: Tree)
      requires Valid()
      modifies this, treeStorage
      ensures Valid() && events == old(events) + [LocalTree(t)]
    {
      RunMore(events, LocalTree(t));
      hide Run, Inv, Matching, NotMatching;
      SetAndDrain(t);
      events := events + [LocalTree(t)];
    }

    /** Only a tree whose id is registered is accepted from a peer. */
    method HandleSendTree(t: Tree)
      requires Valid()
      modifies this, treeStorage
      ensures Valid() && events == old(events) + [Response(t)]
    {
      RunMore(events, Response(t));
      hide Run, Inv, Matching, NotMatching;
      events := events + [Response(t)];
      if t.id !in treeStorage.trees {
        return;
      }
      SetAndDrain(t);
    }

    /** An instance is done. */
    method NodeDone(tok: Token)
      requires Valid()
      modifies this, treeStorage
      ensures Valid() && events == old(events) + [Done(tok)]
    {
      hide Run, Inv, OverlayState.NodeDelete, Step;
      RunMore(events, Done(tok));
      DoneIs(Model(), tok);
      NodeDelete(tok);
      events := events + [Done(tok)];
    }

    /** The timer of a planned removal expires. */
    method TimerExpires(id: nat)
      requires Valid() && id in treeStorage.cancellations
      modifies this, treeStorage
      ensures Valid() && events == old(events) + [Expired(id)]
    {
      RunMore(events, Expired(id));
      hide Run, Inv, Expire;
      treeStorage.TimerExpires(id);
      log := log + [Forgotten(id)];
      events := events + [Expired(id)];
    }

    /** Deletes every instance, in any order, and stops the removal timers. */
    method Close() returns (ghost order: seq<Token>)
      requires Valid()
      modifies this, treeStorage
      ensures Valid() && instances == map[] && events == old(events) + [Shutdown(order)]
    {
      hide Run, Inv, DeleteAll, Step;
      order := DeleteInstances();
      RunMore(old(events), Shutdown(order));
      ShutdownIs(old(Model()), order);
      ghost var s := Model();
      treeStorage.Shutdown();
      assert Model() == s.(storage := TreeStorage.Close(s.storage));
      events := old(events) + [Shutdown(order)];
    }

    method DeleteInstances() returns (ghost order: seq<Token>)
      requires Marked()
      modifies this, treeStorage
      ensures Marked() && instances == map[] && events == old(events)
      ensures Model() == DeleteAll(old(Model()), order)
      ensures forall tok :: tok in old(instances) ==> tok in order
    {
      hide OverlayState.NodeDelete, Unlist;
      order := [];
      while instances != map[]
        invariant Marked() && Model() == DeleteAll(old(Model()), order) && events == old(events)
        invariant forall tok :: tok in old(instances) ==> tok in order || tok in instances
        decreases |instances|
      {
        var tok :| tok in instances;
        DeleteAllAppend(old(Model()), order, tok);
        NodeDelete(tok);
        order := order + [tok];
      }
    }
  }

  lemma {:induction false} NewInstanceIs(s: State, t: Tree, tok: Token)
    requires Possible(s, NewInstance(t, tok))
    ensures Step(s, NewInstance(t, tok)) ==
            RegisterTree(s.(reg := List(s.reg, tok), creating := s.creating[s.reg.nextInst := tok]), t)
  {
  }

  lemma {:induction false} DoneIs(s: State, tok: Token)
    ensures Step(s, Done(tok)) == NodeDelete(s, tok)
  {
  }

  lemma {:induction false} ShutdownIs(s: State, order: seq<Token>)
    requires forall tok :: tok in s.reg.instances ==> tok in order
    ensures var e := DeleteAll(s, order); Step(s, Shutdown(order)) == e.(storage := TreeStorage.Close(e.storage))
  {
    hide DeleteAll;
  }

  lemma {:induction false} BindNothing(r: Registry, tok: Token, inst: nat)
    requires !CanBind(r, tok)
    ensures Bind(r, tok, inst) == r
  {
  }
}
