/**
 What becomes of a message that is transmitted, received or drained, on the fields of
 the state: it waits for its tree, is dropped, handed on, refused, or makes an instance,
 and the ways in which making the protocol of an instance can end.
 */
module OverlayOutcomes {
  import opened Wrappers
  import opened TreeStorage
  import opened OverlayState

  /** Event e transmits message m. */
  ghost predicate Transmits(s: State, e: Event, m: Msg) {
    && Possible(s, e)
    && ((e.Receive? && e.msg == m) || (e.Drain? && s.drains[e.list][0] == m))
  }

  /** The message has left the place it came from, and everything that is not about it is as it was. */
  ghost predicate Taken(s: State, e: Event, m: Msg, s': State)
    requires Transmits(s, e, m)
  {
    && s'.received == (if e.Receive? then s.received + multiset{m} else s.received)
    && s'.drains == (if e.Drain? then s.drains[e.list := s.drains[e.list][1..]] else s.drains)
    && s'.creating == s.creating
    && s'.storage.closed == s.storage.closed
    && (forall id :: id != m.to.tree ==> (id in s'.storage.planned <==> id in s.storage.planned))
    && (forall id :: id != m.to.tree ==> Get(s'.storage, id) == Get(s.storage, id))
    && (forall id :: id != m.to.tree ==> (id in s'.storage.trees <==> id in s.storage.trees))
  }

  /** The tree of the message is stored. */
  ghost predicate HasTree(s: State, m: Msg) {
    m.to.tree in s.storage.trees && s.storage.trees[m.to.tree].Some?
  }

  /** Nothing is queued, and the removal of the tree that was planned is not any more. */
  ghost predicate TreeKept(s: State, m: Msg, s': State) {
    s'.pending == s.pending && s'.storage.trees == s.storage.trees && m.to.tree !in s'.storage.planned
  }

  /** The tree is there, its node too, and the token has neither a protocol instance nor is it done. */
  ghost predicate NeedsInstance(s: State, e: Event, m: Msg) {
    && Transmits(s, e, m) && HasTree(s, m)
    && m.to.node in s.storage.trees[m.to.tree].value.nodes
    && m.to !in s.reg.finished && m.to !in s.reg.protocolInstances
  }

  /** The state with the message taken from where it was, and no removal of its tree planned. */
  ghost function Base(s: State, e: Event, m: Msg): State
    requires Transmits(s, e, m)
  {
    s.(received := if e.Receive? then s.received + multiset{m} else s.received,
       drains := if e.Drain? then s.drains[e.list := s.drains[e.list][1..]] else s.drains,
       storage := s.storage.(planned := s.storage.planned - {m.to.tree}))
  }

  lemma {:induction false} TransmitIs(s: State, e: Event, m: Msg)
    requires Transmits(s, e, m)
    ensures !HasTree(s, m) ==> Step(s, e) == RequestTree(Base(s, e, m), m, e.outcome)
    ensures NeedsInstance(s, e, m) ==> Step(s, e) == Create(Base(s, e, m), m, e.outcome.proto)
  {
    hide Create, RequestTree;
  }

  // ----- no instance is needed

  /** Without its tree the message waits; the tree is requested unless it was, and forgotten if that fails. */
  lemma {:induction false} WaitsForTree(s: State, e: Event, m: Msg)
    requires Transmits(s, e, m) && !HasTree(s, m)
    ensures var s' := Step(s, e);
            var asks := e.outcome.wrapOk && m.to.tree !in s.storage.trees;
            && Taken(s, e, m, s') && s'.pending == s.pending + [m]
            && s'.reg == s.reg && s'.stage == s.stage
            && (m.to.tree in s'.storage.trees <==> m.to.tree in s.storage.trees || (asks && e.outcome.sendOk))
            && !HasTree(s', m) && m.to.tree !in s'.storage.planned
            && s'.log == s.log + (if !asks then []
                                  else if e.outcome.sendOk then [Requested(m.to.tree)]
                                  else [Requested(m.to.tree), Forgotten(m.to.tree)])
  {
    TransmitIs(s, e, m);
    hide Step, Possible;
    assert s.log + [] == s.log;
    assert s.log + [Requested(m.to.tree)] + [Forgotten(m.to.tree)] ==
           s.log + [Requested(m.to.tree), Forgotten(m.to.tree)];
  }

  /** A message for a token that is done is dropped. */
  lemma {:induction false} DroppedIfDone(s: State, e: Event, m: Msg)
    requires Transmits(s, e, m) && HasTree(s, m) && m.to in s.reg.finished
    ensures var s' := Step(s, e);
            && Taken(s, e, m, s') && TreeKept(s, m, s') && s'.reg == s.reg && s'.stage == Idle
            && s'.log == s.log + [Dropped(m)]
  {
  }

  /** A message for a registered protocol instance is handed to it next. */
  lemma {:induction false} ChosenIfRegistered(s: State, e: Event, m: Msg)
    requires Transmits(s, e, m) && HasTree(s, m) && m.to !in s.reg.finished && m.to in s.reg.protocolInstances
    ensures var s' := Step(s, e);
            && Taken(s, e, m, s') && TreeKept(s, m, s') && s'.reg == s.reg && s'.log == s.log
            && s'.stage == Chosen(m, s.reg.protocolInstances[m.to])
  {
  }

  /** A message for a node that its tree does not have is refused, and no instance is made for it. */
  lemma {:induction false} RefusedIfNoNode(s: State, e: Event, m: Msg)
    requires Transmits(s, e, m) && HasTree(s, m) && m.to !in s.reg.finished && m.to !in s.reg.protocolInstances
    requires m.to.node !in s.storage.trees[m.to.tree].value.nodes
    ensures var s' := Step(s, e);
            && Taken(s, e, m, s') && TreeKept(s, m, s') && s'.reg == s.reg && s'.stage == Idle
            && s'.log == s.log + [Refused(m)]
  {
  }

  // ----- an instance is made

  /**
   When making the protocol fails, the new instance is closed and not listed, the token
   is done, and the removal of the tree is planned unless another instance uses it.
   */
  lemma {:induction false} ProtocolFails(s: State, e: Event, m: Msg)
    requires NeedsInstance(s, e, m) && e.outcome.proto == ProtoError
    ensures var s' := Step(s, e);
            && Taken(s, e, m, s') && s'.pending == s.pending && s'.stage == Idle
            && s'.reg.nextInst == s.reg.nextInst + 1
            && s'.reg.instances == s.reg.instances - {m.to} && s'.reg.finished == s.reg.finished + {m.to}
            && s'.reg.closing == s.reg.closing + {s.reg.nextInst}
            && s'.reg.protocolInstances == s.reg.protocolInstances && s'.reg.bound == s.reg.bound
            && s'.log == s.log + [Closed(s.reg.nextInst), Refused(m)]
            && s'.storage.trees == s.storage.trees
            && (m.to.tree in s'.storage.planned <==>
                 !s.storage.closed && forall tok :: tok in s.reg.instances && tok.tree == m.to.tree ==> tok == m.to)
  {
    TransmitIs(s, e, m);
    hide Step, Possible;
    var made := List(s.reg, m.to);
    assert made.instances - {m.to} == s.reg.instances - {m.to};
    assert s.reg.protocolInstances - {m.to} == s.reg.protocolInstances;
    assert s.log + [Closed(s.reg.nextInst)] + [Refused(m)] == s.log + [Closed(s.reg.nextInst), Refused(m)];
    assert InUse(s.reg.instances - {m.to}, m.to.tree) <==>
           exists tok :: tok in s.reg.instances && tok != m.to && tok.tree == m.to.tree;
  }

  /** When the service makes no protocol, the new instance stays listed and open, and the token is not done. */
  lemma {:induction false} NoProtocol(s: State, e: Event, m: Msg)
    requires NeedsInstance(s, e, m) && e.outcome.proto == ProtoNil
    ensures var s' := Step(s, e);
            && Taken(s, e, m, s') && TreeKept(s, m, s') && s'.stage == Idle
            && s'.reg.nextInst == s.reg.nextInst + 1
            && s'.reg.instances == s.reg.instances[m.to := s.reg.nextInst] && s'.reg.finished == s.reg.finished
            && s'.reg.closing == s.reg.closing
            && s'.reg.protocolInstances == s.reg.protocolInstances && s'.reg.bound == s.reg.bound
            && s'.log == s.log + [Refused(m)]
  {
    TransmitIs(s, e, m);
    hide Step, Possible, NodeDelete;
  }

  /** When the protocol is made, the new instance is listed and waits to be registered. */
  lemma {:induction false} ProtocolMade(s: State, e: Event, m: Msg)
    requires NeedsInstance(s, e, m) && e.outcome.proto == ProtoOk
    ensures var s' := Step(s, e);
            && Taken(s, e, m, s') && TreeKept(s, m, s') && s'.stage == Created(m, s.reg.nextInst)
            && s'.reg.nextInst == s.reg.nextInst + 1
            && s'.reg.instances == s.reg.instances[m.to := s.reg.nextInst] && s'.reg.finished == s.reg.finished
            && s'.reg.closing == s.reg.closing
            && s'.reg.protocolInstances == s.reg.protocolInstances && s'.reg.bound == s.reg.bound
            && s'.log == s.log
  {
    TransmitIs(s, e, m);
    hide Step, Possible, NodeDelete;
  }

  /** After no protocol was made, the next message for the token asks the service again, under a new instance. */
  lemma {:induction false} AsksAgain(s: State, e: Event, m: Msg, e': Event, m': Msg)
    requires NeedsInstance(s, e, m) && e.outcome.proto == ProtoNil
    requires Transmits(Step(s, e), e', m') && m'.to == m.to
    ensures NeedsInstance(Step(s, e), e', m')
    ensures e'.outcome.proto == ProtoOk ==> Step(Step(s, e), e').stage == Created(m', s.reg.nextInst + 1)
  {
    NoProtocol(s, e, m);
    hide Step, Possible;
    if e'.outcome.proto == ProtoOk {
      ProtocolMade(Step(s, e), e', m');
    }
  }

  /** After making a protocol failed, every later message for the token that finds its tree is dropped. */
  lemma {:induction false} DroppedAfterFailure(s: State, e: Event, m: Msg, e': Event, m': Msg)
    requires NeedsInstance(s, e, m) && e.outcome.proto == ProtoError
    requires Transmits(Step(s, e), e', m') && m'.to == m.to
    ensures HasTree(Step(s, e), m') && Step(Step(s, e), e').log == Step(s, e).log + [Dropped(m')]
  {
    ProtocolFails(s, e, m);
    hide Step, Possible;
    DroppedIfDone(Step(s, e), e', m');
  }

  // ----- the two later parts of a transmission

  /** Registration succeeds if and only if the instance is still listed and not bound. */
  lemma {:induction false} RegisteredIff(s: State, m: Msg, i: nat)
    requires s.stage == Created(m, i)
    ensures var s' := Step(s, RegisterPI);
            if m.to in s.reg.instances && s.reg.instances[m.to] !in s.reg.bound then
              && s'.stage == Chosen(m, i) && s'.log == s.log
              && s'.reg.protocolInstances == s.reg.protocolInstances[m.to := i]
              && s'.reg.bound == s.reg.bound + {s.reg.instances[m.to]}
            else
              s'.stage == Idle && s'.log == s.log + [Refused(m)] && s'.reg == s.reg
  {
  }

  /** The message is queued to the chosen instance if and only if that is not closing. */
  lemma {:induction false} QueuedIff(s: State, m: Msg, i: nat)
    requires s.stage == Chosen(m, i)
    ensures var s' := Step(s, Hand);
            && s'.stage == Idle && s'.reg == s.reg && s'.pending == s.pending && s'.drains == s.drains
            && s'.log == s.log + [if i in s.reg.closing then Dropped(m) else Queued(m, i)]
  {
  }

  // ----- the other events

  /** A local protocol is registered if and only if its instance is still listed and not bound. */
  lemma {:induction false} LocalRegisteredIff(s: State, i: nat)
    requires i in s.creating
    ensures var s' := Step(s, RegisterLocal(i));
            var tok := s.creating[i];
            && s'.creating == s.creating - {i} && s'.log == s.log && s'.stage == s.stage
            && if tok in s.reg.instances && s.reg.instances[tok] !in s.reg.bound then
                 && s'.reg.protocolInstances == s.reg.protocolInstances[tok := i]
                 && s'.reg.bound == s.reg.bound + {s.reg.instances[tok]}
               else s'.reg == s.reg
  {
  }

  /** An instance that is done is closed and unlisted; its tree is planned for removal unless another one uses it. */
  lemma {:induction false} DoneCleansUp(s: State, tok: Token)
    requires tok in s.reg.instances
    ensures var s' := Step(s, Done(tok));
            && s'.log == s.log + [Closed(s.reg.instances[tok])]
            && s'.reg.closing == s.reg.closing + {s.reg.instances[tok]} && s'.reg.finished == s.reg.finished + {tok}
            && s'.reg.instances == s.reg.instances - {tok}
            && s'.reg.protocolInstances == s.reg.protocolInstances - {tok}
            && s'.storage.trees == s.storage.trees
            && (forall id :: id in s'.storage.planned <==>
                 || id in s.storage.planned
                 || (id == tok.tree && !s.storage.closed
                     && forall other :: other in s.reg.instances && other.tree == id ==> other == tok))
  {
    assert InUse(s.reg.instances - {tok}, tok.tree) <==>
           exists other :: other in s.reg.instances && other != tok && other.tree == tok.tree;
  }

  /** A tree that is set is the one stored, is not planned for removal any more, and no other is touched. */
  lemma {:induction false} TreeIsSet(s: State, e: Event)
    requires Possible(s, e) && (e.Response? || e.LocalTree? || e.NewInstance?)
    ensures Step(s, e).storage == s.storage.(trees := s.storage.trees[e.tree.id := Some(e.tree)],
                                             planned := s.storage.planned - {e.tree.id})
    ensures Step(s, e).log == s.log && Step(s, e).stage == s.stage
  {
    hide Matching, NotMatching;
  }

  /** An expired tree is gone and forgotten, and no other is touched. */
  lemma {:induction false} ExpiredIsGone(s: State, id: nat)
    requires id in s.storage.planned
    ensures var s' := Step(s, Expired(id));
            && s'.storage.trees == s.storage.trees - {id} && s'.storage.planned == s.storage.planned - {id}
            && s'.log == s.log + [Forgotten(id)] && s'.reg == s.reg
  {
  }

  lemma {:induction false} DeleteAllCloses(s: State, toks: seq<Token>, tok: Token)
    requires tok in s.reg.instances && tok in toks
    ensures s.reg.instances[tok] in DeleteAll(s, toks).reg.closing
    decreases toks
  {
    var s' := NodeDelete(s, toks[0]);
    if tok == toks[0] {
      DeleteAllKeeps(s', toks[1..], s.reg.instances[tok]);
    } else {
      DeleteAllCloses(s', toks[1..], tok);
    }
  }

  lemma {:induction false} DeleteAllKeeps(s: State, toks: seq<Token>, i: nat)
    requires i in s.reg.closing
    ensures i in DeleteAll(s, toks).reg.closing
    decreases toks
  {
    if toks != [] {
      DeleteAllKeeps(NodeDelete(s, toks[0]), toks[1..], i);
    }
  }

  lemma {:induction false} DeleteAllStorage(s: State, toks: seq<Token>)
    ensures DeleteAll(s, toks).storage.trees == s.storage.trees
    decreases toks
  {
    if toks != [] {
      DeleteAllStorage(NodeDelete(s, toks[0]), toks[1..]);
    }
  }

  /** Closing the overlay closes and unlists every instance; no removal is planned, and none will be. */
  lemma {:induction false} ShutdownEndsAll(s: State, order: seq<Token>)
    requires Possible(s, Shutdown(order))
    ensures var s' := Step(s, Shutdown(order));
            && s'.reg.instances == map[]
            && (forall tok :: tok in s.reg.instances ==>
                 s.reg.instances[tok] in s'.reg.closing && tok in s'.reg.finished)
            && s'.storage == Storage(s.storage.trees, {}, true)
  {
    forall tok ensures tok !in DeleteAll(s, order).reg.instances {
      DeleteAllReg(s, order, tok);
    }
    forall tok | tok in s.reg.instances
      ensures s.reg.instances[tok] in DeleteAll(s, order).reg.closing && tok in DeleteAll(s, order).reg.finished
    {
      DeleteAllReg(s, order, tok);
      DeleteAllCloses(s, order, tok);
    }
    DeleteAllStorage(s, order);
    hide DeleteAll;
  }

  // ----- which tokens are done, by what happened

  /** Event e ends token tok: its protocol says so, it cannot be made, or the overlay is closed. */
  ghost predicate Ends(s: State, e: Event, tok: Token) {
    || (e == Done(tok) && tok in s.reg.instances)
    || (e.Shutdown? && Possible(s, e) && tok in s.reg.instances)
    || (exists m: Msg :: m.to == tok && NeedsInstance(s, e, m) && e.outcome.proto == ProtoError)
  }

  /** Event e makes an instance for token tok that stays. */
  ghost predicate Makes(s: State, e: Event, tok: Token) {
    || (e.NewInstance? && Possible(s, e) && e.tok == tok)
    || (exists m: Msg :: m.to == tok && NeedsInstance(s, e, m) && e.outcome.proto != ProtoError)
  }

  lemma {:induction false} DeleteAllReg(s: State, toks: seq<Token>, tok: Token)
    ensures var r := DeleteAll(s, toks).reg;
            && (tok in r.instances <==> tok in s.reg.instances && tok !in toks)
            && (tok in r.finished <==> tok in s.reg.finished || (tok in s.reg.instances && tok in toks))
    decreases toks
  {
    if toks != [] {
      DeleteAllReg(NodeDelete(s, toks[0]), toks[1..], tok);
      assert tok in toks <==> tok == toks[0] || tok in toks[1..];
      hide DeleteAll;
    }
  }

  lemma {:induction false} TransmitEnds(s: State, e: Event, m: Msg, tok: Token)
    requires Transmits(s, e, m)
    ensures tok in Step(s, e).reg.finished <==>
            tok in s.reg.finished || (tok == m.to && NeedsInstance(s, e, m) && e.outcome.proto == ProtoError)
    ensures tok in Step(s, e).reg.instances <==>
            if tok == m.to && NeedsInstance(s, e, m) then e.outcome.proto != ProtoError else tok in s.reg.instances
  {
    hide Step, Possible, Taken, TreeKept;
    if !HasTree(s, m) {
      WaitsForTree(s, e, m);
    } else if m.to in s.reg.finished {
      DroppedIfDone(s, e, m);
    } else if m.to in s.reg.protocolInstances {
      ChosenIfRegistered(s, e, m);
    } else if m.to.node !in s.storage.trees[m.to.tree].value.nodes {
      RefusedIfNoNode(s, e, m);
    } else {
      match e.outcome.proto
      case ProtoError => ProtocolFails(s, e, m);
      case ProtoNil => NoProtocol(s, e, m);
      case ProtoOk => ProtocolMade(s, e, m);
    }
  }

  ghost function MsgOf(s: State, e: Event): Msg
    requires Possible(s, e) && (e.Receive? || e.Drain?)
  {
    if e.Receive? then e.msg else s.drains[e.list][0]
  }

  lemma {:induction false} OtherEnds(s: State, e: Event, tok: Token)
    requires Possible(s, e) && !e.Receive? && !e.Drain?
    ensures tok in Step(s, e).reg.finished <==> tok in s.reg.finished || Ends(s, e, tok)
    ensures tok in Step(s, e).reg.instances <==>
            !Ends(s, e, tok) && (tok in s.reg.instances || Makes(s, e, tok))
  {
    if e.Shutdown? {
      DeleteAllReg(s, e.order, tok);
      hide DeleteAll;
    }
    hide Matching, NotMatching;
  }

  /** A token is done after an event if and only if it was or the event ends it. */
  lemma {:induction false} StepEnds(s: State, e: Event, tok: Token)
    requires Possible(s, e)
    ensures tok in Step(s, e).reg.finished <==> tok in s.reg.finished || Ends(s, e, tok)
    ensures tok in Step(s, e).reg.instances <==>
            !Ends(s, e, tok) && (tok in s.reg.instances || Makes(s, e, tok))
  {
    if e.Receive? || e.Drain? {
      var m := MsgOf(s, e);
      assert Transmits(s, e, m) && forall m' :: Transmits(s, e, m') ==> m' == m;
      hide Step, Possible;
      TransmitEnds(s, e, m, tok);
    } else {
      hide Step, Possible;
      OtherEnds(s, e, tok);
    }
  }

  ghost predicate EndedAt(es: seq<Event>, k: nat, tok: Token) {
    k < |es| && Ends(Run(es[..k]), es[k], tok)
  }

  lemma {:induction false} EndedMore(es: seq<Event>, tok: Token)
    requires es != []
    ensures var n := |es| - 1;
            (exists k: nat :: EndedAt(es, k, tok)) <==>
            (exists k: nat :: EndedAt(es[..n], k, tok)) || EndedAt(es, n, tok)
  {
    hide Run, Ends;
    var n := |es| - 1;
    assert forall k: nat :: k < n ==> es[..n][..k] == es[..k] && (EndedAt(es[..n], k, tok) <==> EndedAt(es, k, tok));
  }

  lemma {:induction false} NotPossible(s: State, e: Event, tok: Token)
    requires !Possible(s, e)
    ensures Step(s, e) == s && !Ends(s, e, tok) && !Makes(s, e, tok)
  {
  }

  /**
   In every run a token is done if and only if its protocol finished while it was listed,
   its protocol could not be made, or the overlay was closed while it was listed.
   */
  lemma {:induction false} DoneIff(es: seq<Event>, tok: Token)
    ensures tok in Run(es).reg.finished <==> exists k: nat :: EndedAt(es, k, tok)
  {
    if es != [] {
      var n := |es| - 1;
      DoneIff(es[..n], tok);
      EndedMore(es, tok);
      var s, e := Run(es[..n]), es[n];
      assert Run(es) == Step(s, e) && (EndedAt(es, n, tok) <==> Ends(s, e, tok));
      hide Run, Step, Possible, Ends, EndedAt;
      if Possible(s, e) {
        StepEnds(s, e, tok);
      } else {
        NotPossible(s, e, tok);
      }
    }
  }

  ghost predicate MadeAt(es: seq<Event>, k: nat, tok: Token) {
    k < |es| && Makes(Run(es[..k]), es[k], tok)
  }

  /** Token tok got an instance in event k, and nothing ended it since. */
  ghost predicate MadeAndNotEnded(es: seq<Event>, k: nat, tok: Token) {
    MadeAt(es, k, tok) && forall j: nat :: k <= j ==> !EndedAt(es, j, tok)
  }

  lemma {:induction false} ListedMore(es: seq<Event>, tok: Token)
    requires es != []
    ensures var n := |es| - 1;
            (exists k: nat :: MadeAndNotEnded(es, k, tok)) <==>
            !EndedAt(es, n, tok) && ((exists k: nat :: MadeAndNotEnded(es[..n], k, tok)) || MadeAt(es, n, tok))
  {
    hide Run, Ends, Makes;
    var n := |es| - 1;
    forall k: nat | k < n
      ensures es[..n][..k] == es[..k]
      ensures (EndedAt(es[..n], k, tok) <==> EndedAt(es, k, tok)) && (MadeAt(es[..n], k, tok) <==> MadeAt(es, k, tok))
    {
      assert es[..n][..k] == es[..k];
    }
    hide EndedAt, MadeAt;
    EndedInside(es[..n], tok);
    EndedInside(es, tok);
    if !EndedAt(es, n, tok) {
      if k: nat :| MadeAndNotEnded(es[..n], k, tok) {
        assert MadeAndNotEnded(es, k, tok);
      }
      if MadeAt(es, n, tok) {
        assert MadeAndNotEnded(es, n, tok);
      }
    }
    if k: nat :| MadeAndNotEnded(es, k, tok) {
      assert k < n ==> MadeAndNotEnded(es[..n], k, tok);
    }
  }

  lemma {:induction false} EndedInside(es: seq<Event>, tok: Token)
    ensures forall k: nat :: k >= |es| ==> !EndedAt(es, k, tok) && !MadeAt(es, k, tok)
  {
  }

  /** In every run a token is listed if and only if an instance was made for it and nothing ended it since. */
  lemma {:induction false} ListedIff(es: seq<Event>, tok: Token)
    ensures tok in Run(es).reg.instances <==> exists k: nat :: MadeAndNotEnded(es, k, tok)
  {
    if es != [] {
      var n := |es| - 1;
      ListedIff(es[..n], tok);
      ListedMore(es, tok);
      var s, e := Run(es[..n]), es[n];
      assert Run(es) == Step(s, e);
      assert (EndedAt(es, n, tok) <==> Ends(s, e, tok)) && (MadeAt(es, n, tok) <==> Makes(s, e, tok));
      hide Run, Step, Possible, Ends, Makes, EndedAt, MadeAt, MadeAndNotEnded;
      if Possible(s, e) {
        StepEnds(s, e, tok);
      } else {
        NotPossible(s, e, tok);
      }
    }
  }
}
