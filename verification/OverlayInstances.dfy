/** What every step keeps true of the instances of an overlay. */
module OverlayInstances {
  import opened TreeStorage
  import opened OverlayState

  /** Live instances are open, distinct, and not finished; registered means bound. */
  ghost predicate RegInv(r: Registry) {
    && (forall tok :: tok in r.instances ==>
         r.instances[tok] < r.nextInst && r.instances[tok] !in r.closing && tok !in r.finished)
    && (forall a, b :: a in r.instances && b in r.instances && a != b ==> r.instances[a] != r.instances[b])
    && (forall i :: i in r.closing || i in r.bound ==> i < r.nextInst)
    && (forall tok :: tok in r.protocolInstances ==>
         tok in r.instances && r.protocolInstances[tok] == r.instances[tok] && r.instances[tok] in r.bound)
    && (forall tok :: tok in r.instances && r.instances[tok] in r.bound ==> tok in r.protocolInstances)
  }

  /** `i` was made for `tok`, is not bound, and is still the one listed unless `tok` is finished. */
  ghost predicate Owns(r: Registry, tok: Token, i: nat) {
    i < r.nextInst && i !in r.bound && if tok in r.instances then r.instances[tok] == i else tok in r.finished
  }

  /** `i` is the live instance of `tok`, or it is closed. */
  ghost predicate LiveOrClosed(r: Registry, tok: Token, i: nat) {
    i < r.nextInst && (i in r.closing || (tok in r.instances && r.instances[tok] == i))
  }

  ghost predicate StageInv(r: Registry, stage: Stage, creating: map<nat, Token>, received: multiset<Msg>) {
    match stage
    case Idle => true
    case Created(m, i) => m in received && i !in creating && Owns(r, m.to, i)
    case Chosen(m, i) => m in received && LiveOrClosed(r, m.to, i)
  }

  ghost predicate CreatingInv(r: Registry, creating: map<nat, Token>, received: multiset<Msg>) {
    && (forall i :: i in creating ==> Owns(r, creating[i], i))
    && (forall i, j :: i in creating && j in creating && i != j ==> creating[i] != creating[j])
    && (forall i, m :: i in creating && m in received ==> creating[i] != m.to)
  }

  ghost predicate InstInv(s: State) {
    && RegInv(s.reg)
    && StageInv(s.reg, s.stage, s.creating, s.received)
    && CreatingInv(s.reg, s.creating, s.received)
  }

  // ----- the three changes of the registry

  lemma {:induction false} UnlistInv(r: Registry, tok: Token)
    requires RegInv(r) && tok in r.instances
    ensures RegInv(Unlist(r, tok))
  {
  }

  lemma {:induction false} UnlistOwns(r: Registry, tok: Token, other: Token, i: nat)
    requires RegInv(r) && tok in r.instances
    ensures Owns(r, other, i) ==> Owns(Unlist(r, tok), other, i)
    ensures LiveOrClosed(r, other, i) ==> LiveOrClosed(Unlist(r, tok), other, i)
  {
  }

  lemma {:induction false} ListInv(r: Registry, tok: Token)
    requires RegInv(r) && tok !in r.finished && tok !in r.protocolInstances
    ensures RegInv(List(r, tok)) && Owns(List(r, tok), tok, r.nextInst)
  {
  }

  lemma {:induction false} ListOwns(r: Registry, tok: Token, other: Token, i: nat)
    requires tok != other && Owns(r, other, i)
    ensures Owns(List(r, tok), other, i)
  {
  }

  lemma {:induction false} BindInv(r: Registry, tok: Token, i: nat)
    requires RegInv(r) && (tok in r.instances ==> r.instances[tok] == i)
    ensures RegInv(Bind(r, tok, i))
  {
  }

  lemma {:induction false} BindOwns(r: Registry, tok: Token, i: nat, other: Token, j: nat)
    requires i != j && (tok in r.instances ==> r.instances[tok] == i)
    ensures Owns(r, other, j) ==> Owns(Bind(r, tok, i), other, j)
    ensures LiveOrClosed(r, other, j) ==> LiveOrClosed(Bind(r, tok, i), other, j)
  {
  }

  // ----- the steps

  lemma {:induction false} DeleteInst(s: State, tok: Token)
    requires InstInv(s)
    ensures InstInv(NodeDelete(s, tok))
  {
    if tok in s.reg.instances {
      var s' := NodeDelete(s, tok);
      assert s'.reg == Unlist(s.reg, tok) && s'.creating == s.creating && s'.stage == s.stage;
      hide NodeDelete, RegInv, Unlist, Owns, LiveOrClosed;
      UnlistInv(s.reg, tok);
      forall i | i in s.creating
        ensures Owns(s'.reg, s.creating[i], i)
      {
        UnlistOwns(s.reg, tok, s.creating[i], i);
      }
      if !s.stage.Idle? {
        UnlistOwns(s.reg, tok, s.stage.msg.to, s.stage.inst);
      }
    }
  }

  /** A new instance is listed under a token that no local protocol waits for. */
  lemma {:induction false} ListCreating(s: State, tok: Token)
    requires InstInv(s) && tok !in s.reg.finished && tok !in s.reg.protocolInstances
    requires forall i :: i in s.creating ==> s.creating[i] != tok
    ensures RegInv(List(s.reg, tok)) && Owns(List(s.reg, tok), tok, s.reg.nextInst)
    ensures CreatingInv(List(s.reg, tok), s.creating, s.received) && s.reg.nextInst !in s.creating
  {
    hide RegInv, List;
    assert forall i :: i in s.creating ==> i < s.reg.nextInst;
    hide Owns;
    ListInv(s.reg, tok);
    forall i | i in s.creating
      ensures Owns(List(s.reg, tok), s.creating[i], i)
    {
      ListOwns(s.reg, tok, s.creating[i], i);
    }
  }

  lemma {:induction false} CreateInst(s: State, m: Msg, proto: Proto)
    requires InstInv(s) && s.stage.Idle? && m in s.received
    requires m.to !in s.reg.finished && m.to !in s.reg.protocolInstances
    ensures InstInv(Create(s, m, proto))
  {
    ListCreating(s, m.to);
    hide RegInv, Owns, List, NodeDelete, CreatingInv;
    match proto
    case ProtoError => DeleteInst(s.(reg := List(s.reg, m.to)), m.to);
    case ProtoNil =>
    case ProtoOk =>
  }

  lemma {:induction false} TransmitInst(s: State, m: Msg, o: Outcome)
    requires InstInv(s) && CanTransmit(s, m) && m in s.received
    ensures InstInv(Transmit(s, m, o))
  {
    var s0 := s.(storage := CancelDeletion(s.storage, m.to.tree));
    if Available(s0.storage, m.to.tree) && m.to !in s.reg.finished && m.to !in s.reg.protocolInstances {
      CreateInst(s0, m, o.proto);
    }
    assert m.to in s.reg.protocolInstances ==> LiveOrClosed(s.reg, m.to, s.reg.protocolInstances[m.to]);
    hide RegInv, Owns, Create, CreatingInv, LiveOrClosed;
  }

  /** Registration takes an instance that is owned and not bound. */
  lemma {:induction false} BindCreating(s: State, tok: Token, i: nat)
    requires InstInv(s) && Owns(s.reg, tok, i)
    ensures RegInv(Bind(s.reg, tok, i))
    ensures CreatingInv(Bind(s.reg, tok, i), s.creating - {i}, s.received)
  {
    BindInv(s.reg, tok, i);
    assert tok in s.reg.instances ==> s.reg.instances[tok] == i;
    hide RegInv, Bind, Owns;
    forall j | j in s.creating - {i}
      ensures Owns(Bind(s.reg, tok, i), s.creating[j], j)
    {
      BindOwns(s.reg, tok, i, s.creating[j], j);
    }
  }

  lemma {:induction false} RegisterPIInst(s: State)
    requires InstInv(s) && s.stage.Created?
    ensures InstInv(Step(s, RegisterPI))
  {
    var m, i := s.stage.msg, s.stage.inst;
    BindCreating(s, m.to, i);
    assert s.creating - {i} == s.creating;
    hide RegInv, CreatingInv;
  }

  lemma {:induction false} RegisterLocalInst(s: State, i: nat)
    requires InstInv(s) && i in s.creating
    ensures InstInv(Step(s, RegisterLocal(i)))
  {
    BindCreating(s, s.creating[i], i);
    if !s.stage.Idle? && s.stage.inst != i {
      BindOwns(s.reg, s.creating[i], i, s.stage.msg.to, s.stage.inst);
    }
    hide RegInv, CreatingInv;
  }

  lemma {:induction false} NewInstanceParts(s: State, t: Tree, tok: Token)
    requires Possible(s, NewInstance(t, tok))
    ensures var s' := Step(s, NewInstance(t, tok));
            && s'.reg == List(s.reg, tok) && s'.creating == s.creating[s.reg.nextInst := tok]
            && s'.stage == s.stage && s'.received == s.received
  {
  }

  lemma {:induction false} NewCreating(s: State, tok: Token)
    requires Owns(List(s.reg, tok), tok, s.reg.nextInst) && CreatingInv(List(s.reg, tok), s.creating, s.received)
    requires forall i :: i in s.creating ==> s.creating[i] != tok
    requires forall m :: m in s.received ==> m.to != tok
    ensures CreatingInv(List(s.reg, tok), s.creating[s.reg.nextInst := tok], s.received)
  {
    hide Owns, List;
  }

  lemma {:induction false} NewStage(s: State, tok: Token)
    requires InstInv(s) && tok !in s.reg.finished && tok !in s.reg.protocolInstances
    requires forall m :: m in s.received ==> m.to != tok
    ensures StageInv(List(s.reg, tok), s.stage, s.creating[s.reg.nextInst := tok], s.received)
  {
    if !s.stage.Idle? {
      assert s.stage.msg.to != tok && s.stage.inst < s.reg.nextInst;
      if s.stage.Created? {
        ListOwns(s.reg, tok, s.stage.msg.to, s.stage.inst);
      }
    }
    hide RegInv, CreatingInv;
  }

  lemma {:induction false} NewInstanceInst(s: State, t: Tree, tok: Token)
    requires InstInv(s) && Possible(s, NewInstance(t, tok))
    ensures InstInv(Step(s, NewInstance(t, tok)))
  {
    hide Step;
    assert tok !in s.reg.protocolInstances;
    NewInstanceParts(s, t, tok);
    hide RegInv, StageInv, CreatingInv, Owns;
    NewStage(s, tok);
    ListCreating(s, tok);
    NewCreating(s, tok);
  }
}
