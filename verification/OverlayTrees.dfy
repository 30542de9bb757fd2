/**
 Before the overlay is closed, the tree of every live instance is stored and its
 removal is not planned; and no message waits for a tree that is stored.
 */
module OverlayTrees {
  import opened TreeStorage
  import opened OverlayState

  ghost predicate TreesKept(storage: Storage<Tree>, instances: map<Token, nat>) {
    !storage.closed ==>
      forall tok :: tok in instances ==> Available(storage, tok.tree) && tok.tree !in storage.planned
  }

  ghost predicate PendingWaits(storage: Storage<Tree>, pending: seq<Msg>) {
    forall i :: 0 <= i < |pending| ==> !Available(storage, pending[i].to.tree)
  }

  ghost predicate TreeInv(s: State) {
    TreesKept(s.storage, s.reg.instances) && PendingWaits(s.storage, s.pending)
  }

  lemma {:induction false} DeleteTree(s: State, tok: Token)
    requires TreeInv(s)
    ensures TreeInv(NodeDelete(s, tok))
  {
    if tok in s.reg.instances {
      var rest := s.reg.instances - {tok};
      assert forall other :: other in rest && other.tree == tok.tree ==> InUse(rest, tok.tree);
    }
  }

  lemma {:induction false} DeleteAllTree(s: State, toks: seq<Token>)
    requires TreeInv(s)
    ensures TreeInv(DeleteAll(s, toks))
    decreases toks
  {
    if toks != [] {
      DeleteTree(s, toks[0]);
      DeleteAllTree(NodeDelete(s, toks[0]), toks[1..]);
    }
  }

  lemma {:induction false} RequestTreeInv(s: State, m: Msg, o: Outcome)
    requires TreeInv(s) && !Available(s.storage, m.to.tree)
    ensures TreeInv(RequestTree(s, m, o))
  {
    var s' := RequestTree(s, m, o);
    assert forall id :: Available(s'.storage, id) <==> Available(s.storage, id);
    assert s'.storage.planned == s.storage.planned && s'.storage.closed == s.storage.closed;
    assert s'.pending == s.pending + [m] && s'.reg == s.reg;
    hide RequestTree, Available;
  }

  lemma {:induction false} ListTree(s: State, tok: Token)
    requires TreeInv(s) && Available(s.storage, tok.tree) && tok.tree !in s.storage.planned
    ensures TreeInv(s.(reg := List(s.reg, tok)))
  {
  }

  lemma {:induction false} CreateTree(s: State, m: Msg, proto: Proto)
    requires TreeInv(s) && Available(s.storage, m.to.tree) && m.to.tree !in s.storage.planned
    ensures TreeInv(Create(s, m, proto))
  {
    ListTree(s, m.to);
    DeleteTree(s.(reg := List(s.reg, m.to)), m.to);
    hide NodeDelete, List, TreesKept, PendingWaits;
  }

  lemma {:induction false} TransmitTree(s: State, m: Msg, o: Outcome)
    requires TreeInv(s)
    ensures TreeInv(Transmit(s, m, o))
  {
    var s0 := s.(storage := CancelDeletion(s.storage, m.to.tree));
    assert TreeInv(s0);
    if Available(s0.storage, m.to.tree) {
      CreateTree(s0, m, o.proto);
    } else {
      RequestTreeInv(s0, m, o);
    }
    hide RequestTree, Create, TreesKept, PendingWaits;
  }

  lemma {:induction false} NotMatchingTree(ms: seq<Msg>, tree: nat)
    ensures forall i :: 0 <= i < |NotMatching(ms, tree)| ==>
              NotMatching(ms, tree)[i].to.tree != tree && NotMatching(ms, tree)[i] in ms
  {
    if ms != [] {
      NotMatchingTree(ms[..|ms| - 1], tree);
    }
  }

  lemma {:induction false} RegisterTreeInv(s: State, t: Tree)
    requires TreeInv(s)
    ensures TreeInv(RegisterTree(s, t))
    ensures Available(RegisterTree(s, t).storage, t.id) && t.id !in RegisterTree(s, t).storage.planned
  {
    NotMatchingTree(s.pending, t.id);
    hide Matching, NotMatching;
  }

  lemma {:induction false} NewInstanceTree(s: State, t: Tree, tok: Token)
    requires TreeInv(s) && Possible(s, NewInstance(t, tok))
    ensures TreeInv(Step(s, NewInstance(t, tok)))
  {
    RegisterTreeInv(s, t);
    ListTree(RegisterTree(s, t), tok);
  }

  lemma {:induction false} StepTree(s: State, e: Event)
    requires TreeInv(s)
    ensures TreeInv(Step(s, e))
  {
    if Possible(s, e) {
      match e
      case Receive(m, o) => TransmitTree(s.(received := s.received + multiset{m}), m, o);
      case Drain(l, o) => TransmitTree(s.(drains := s.drains[l := s.drains[l][1..]]), s.drains[l][0], o);
      case RegisterPI =>
      case Hand =>
      case NewInstance(t, tok) => NewInstanceTree(s, t, tok);
      case RegisterLocal(i) =>
      case Response(t) => RegisterTreeInv(s, t);
      case LocalTree(t) => RegisterTreeInv(s, t);
      case Done(tok) => DeleteTree(s, tok);
      case Expired(id) =>
      case Shutdown(order) => DeleteAllTree(s, order);
    }
  }
}
