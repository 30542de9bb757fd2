/**
 Every message the overlay receives is in exactly one place: pending, drained,
 in transmission, or settled (queued to an instance, dropped or refused).
 */
module OverlayMessages {
  import opened TreeStorage
  import opened OverlayState

  /** The messages in all the drains. */
  function Held(ds: seq<seq<Msg>>): multiset<Msg> {
    if ds == [] then multiset{} else Held(ds[..|ds| - 1]) + multiset(ds[|ds| - 1])
  }

  function InStage(stage: Stage): multiset<Msg> {
    if stage.Idle? then multiset{} else multiset{stage.msg}
  }

  function SettledBy(e: Entry): multiset<Msg> {
    if e.Queued? || e.Dropped? || e.Refused? then multiset{e.msg} else multiset{}
  }

  /** The messages that were queued, dropped or refused. */
  function Settled(log: seq<Entry>): multiset<Msg> {
    if log == [] then multiset{} else Settled(log[..|log| - 1]) + SettledBy(log[|log| - 1])
  }

  function Everywhere(s: State): multiset<Msg> {
    multiset(s.pending) + Held(s.drains) + InStage(s.stage) + Settled(s.log)
  }

  ghost predicate Conserved(s: State) {
    s.received == Everywhere(s)
  }

  lemma {:induction false} SettledNote(log: seq<Entry>, e: Entry)
    ensures Settled(log + [e]) == Settled(log) + SettledBy(e)
  {
    assert (log + [e])[..|log + [e]| - 1] == log;
  }

  lemma {:induction false} HeldUpdate(ds: seq<seq<Msg>>, l: nat, ms: seq<Msg>)
    requires l < |ds|
    ensures Held(ds[l := ms]) + multiset(ds[l]) == Held(ds) + multiset(ms)
  {
    var n := |ds| - 1;
    if l == n {
      assert ds[l := ms][..n] == ds[..n];
    } else {
      HeldUpdate(ds[..n], l, ms);
      assert ds[l := ms][..n] == ds[..n][l := ms] && ds[..n][l] == ds[l] && ds[l := ms][n] == ds[n];
      var a, b, z := Held(ds[..n][l := ms]), Held(ds[..n]), multiset(ds[n]);
      assert (a + z) + multiset(ds[l]) == (a + multiset(ds[l])) + z;
      assert (b + multiset(ms)) + z == (b + z) + multiset(ms);
    }
  }

  lemma {:induction false} HeldTake(ds: seq<seq<Msg>>, l: nat)
    requires l < |ds| && ds[l] != []
    ensures Held(ds[l := ds[l][1..]]) + multiset{ds[l][0]} == Held(ds)
  {
    var x, rest := ds[l][0], ds[l][1..];
    HeldUpdate(ds, l, rest);
    assert ds[l] == [x] + rest;
    var a := Held(ds[l := rest]) + multiset{x};
    assert a + multiset(rest) == Held(ds) + multiset(rest);
    assert a == (a + multiset(rest)) - multiset(rest);
  }

  lemma {:induction false} HeldAppend(ds: seq<seq<Msg>>, ms: seq<Msg>)
    ensures Held(ds + [ms]) == Held(ds) + multiset(ms)
  {
    assert (ds + [ms])[..|ds + [ms]| - 1] == ds;
  }

  lemma {:induction false} PartitionKeeps(ms: seq<Msg>, tree: nat)
    ensures multiset(Matching(ms, tree)) + multiset(NotMatching(ms, tree)) == multiset(ms)
  {
    if ms != [] {
      PartitionKeeps(ms[..|ms| - 1], tree);
      assert ms == ms[..|ms| - 1] + [ms[|ms| - 1]];
    }
  }

  lemma {:induction false} NoteEverywhere(s: State, e: Entry)
    ensures Everywhere(Note(s, e)) == Everywhere(s) + SettledBy(e)
  {
    SettledNote(s.log, e);
    hide Settled, Held;
  }

  lemma {:induction false} DeleteEverywhere(s: State, tok: Token)
    ensures Everywhere(NodeDelete(s, tok)) == Everywhere(s)
  {
    if tok in s.reg.instances {
      SettledNote(s.log, Closed(s.reg.instances[tok]));
    }
    hide Settled, Held;
  }

  lemma {:induction false} DeleteAllEverywhere(s: State, toks: seq<Token>)
    ensures Everywhere(DeleteAll(s, toks)) == Everywhere(s) && DeleteAll(s, toks).received == s.received
    decreases toks
  {
    if toks != [] {
      DeleteEverywhere(s, toks[0]);
      DeleteAllEverywhere(NodeDelete(s, toks[0]), toks[1..]);
    }
  }

  lemma {:induction false} RequestEverywhere(s: State, m: Msg, o: Outcome)
    ensures Everywhere(RequestTree(s, m, o)) == Everywhere(s) + multiset{m}
  {
    var id := m.to.tree;
    SettledNote(s.log, Requested(id));
    SettledNote(s.log + [Requested(id)], Forgotten(id));
    hide Settled, Held;
  }

  lemma {:induction false} CreateEverywhere(s: State, m: Msg, proto: Proto)
    requires s.stage.Idle?
    ensures Everywhere(Create(s, m, proto)) == Everywhere(s) + multiset{m}
  {
    var made := s.(reg := List(s.reg, m.to));
    DeleteEverywhere(made, m.to);
    NoteEverywhere(made, Refused(m));
    NoteEverywhere(NodeDelete(made, m.to), Refused(m));
    hide Settled, Held, NodeDelete, Note;
  }

  /** A transmission puts its message in one place and moves no other. */
  lemma {:induction false} ChosenEverywhere(s: State, m: Msg, inst: nat)
    requires s.stage == Idle
    ensures Everywhere(s.(stage := Chosen(m, inst))) == Everywhere(s) + multiset{m}
  {
    hide Settled, Held;
  }

  lemma {:induction false} TransmitEverywhere(s: State, m: Msg, o: Outcome)
    requires CanTransmit(s, m)
    ensures Everywhere(Transmit(s, m, o)) == Everywhere(s) + multiset{m}
  {
    hide Settled, Held, RequestTree, Note, Create;
    var s0 := s.(storage := CancelDeletion(s.storage, m.to.tree));
    assert Everywhere(s0) == Everywhere(s);
    hide Everywhere;
    if !Available(s0.storage, m.to.tree) {
      RequestEverywhere(s0, m, o);
    } else if m.to in s.reg.finished {
      NoteEverywhere(s0, Dropped(m));
    } else if m.to in s.reg.protocolInstances {
      ChosenEverywhere(s0, m, s0.reg.protocolInstances[m.to]);
    } else if m.to.node !in Get(s0.storage, m.to.tree).value.nodes {
      NoteEverywhere(s0, Refused(m));
    } else {
      CreateEverywhere(s0, m, o.proto);
    }
  }

  lemma {:induction false} TransmitReceived(s: State, m: Msg, o: Outcome)
    ensures Transmit(s, m, o).received == s.received
  {
  }

  lemma {:induction false} RegisterTreeEverywhere(s: State, t: Tree)
    ensures Everywhere(RegisterTree(s, t)) == Everywhere(s)
  {
    PartitionKeeps(s.pending, t.id);
    HeldAppend(s.drains, Matching(s.pending, t.id));
    hide Settled, Held, Matching, NotMatching;
  }

  lemma {:induction false} ReceiveConserves(s: State, m: Msg, o: Outcome)
    requires Conserved(s) && CanTransmit(s, m)
    ensures Conserved(Transmit(s.(received := s.received + multiset{m}), m, o))
  {
    var s1 := s.(received := s.received + multiset{m});
    assert Everywhere(s1) == Everywhere(s);
    hide Transmit, Everywhere;
    TransmitEverywhere(s1, m, o);
    TransmitReceived(s1, m, o);
  }

  lemma {:induction false} DrainConserves(s: State, l: nat, o: Outcome)
    requires Conserved(s) && l < |s.drains| && s.drains[l] != [] && CanTransmit(s, s.drains[l][0])
    ensures Conserved(Transmit(s.(drains := s.drains[l := s.drains[l][1..]]), s.drains[l][0], o))
    ensures s.drains[l][0] in s.received
  {
    var m, s1 := s.drains[l][0], s.(drains := s.drains[l := s.drains[l][1..]]);
    HeldTake(s.drains, l);
    assert Everywhere(s1) + multiset{m} == Everywhere(s) by { hide Held, Settled; }
    hide Transmit, Everywhere;
    TransmitEverywhere(s1, m, o);
    TransmitReceived(s1, m, o);
  }

  /** The message that holds the transmit lock is settled, or goes one stage further. */
  lemma {:induction false} SettleStage(s: State, e: Entry)
    requires !s.stage.Idle? && SettledBy(e) == multiset{s.stage.msg}
    ensures Everywhere(Note(s.(stage := Idle), e)) == Everywhere(s)
  {
    SettledNote(s.log, e);
    hide Held, Settled, SettledBy;
  }

  lemma {:induction false} HandConserves(s: State)
    requires Conserved(s) && s.stage.Chosen?
    ensures Conserved(Step(s, Hand))
  {
    hide Everywhere;
    SettleStage(s, if s.stage.inst in s.reg.closing then Dropped(s.stage.msg) else Queued(s.stage.msg, s.stage.inst));
  }

  lemma {:induction false} RegisterPIConserves(s: State)
    requires Conserved(s) && s.stage.Created?
    ensures Conserved(Step(s, RegisterPI))
  {
    if CanBind(s.reg, s.stage.msg.to) {
      hide Held, Settled;
    } else {
      hide Everywhere;
      SettleStage(s, Refused(s.stage.msg));
    }
  }

  /** A step that keeps what is received and moves no message. */
  lemma {:induction false} Unmoved(s: State, s': State)
    requires Conserved(s) && s'.received == s.received && Everywhere(s') == Everywhere(s)
    ensures Conserved(s')
  {
  }

  lemma {:induction false} NewInstanceConserves(s: State, t: Tree, tok: Token)
    requires Conserved(s) && Possible(s, NewInstance(t, tok))
    ensures Conserved(Step(s, NewInstance(t, tok)))
  {
    var s1 := s.(reg := List(s.reg, tok), creating := s.creating[s.reg.nextInst := tok]);
    assert Everywhere(s1) == Everywhere(s);
    hide Everywhere;
    RegisterTreeEverywhere(s1, t);
    Unmoved(s, RegisterTree(s1, t));
  }

  lemma {:induction false} RegisterTreeConserves(s: State, t: Tree)
    requires Conserved(s)
    ensures Conserved(RegisterTree(s, t))
  {
    hide Everywhere;
    RegisterTreeEverywhere(s, t);
    Unmoved(s, RegisterTree(s, t));
  }

  lemma {:induction false} DeleteConserves(s: State, tok: Token)
    requires Conserved(s)
    ensures Conserved(NodeDelete(s, tok))
  {
    hide Everywhere;
    DeleteEverywhere(s, tok);
    Unmoved(s, NodeDelete(s, tok));
  }

  lemma {:induction false} ExpiredConserves(s: State, id: nat)
    requires Conserved(s)
    ensures Conserved(Note(s.(storage := Expire(s.storage, id)), Forgotten(id)))
  {
    SettledNote(s.log, Forgotten(id));
    hide Settled, Held;
  }

  lemma {:induction false} ShutdownConserves(s: State, order: seq<Token>)
    requires Conserved(s)
    ensures var e := DeleteAll(s, order); Conserved(e.(storage := Close(e.storage)))
  {
    DeleteAllEverywhere(s, order);
    hide Settled, Held, DeleteAll;
  }

  lemma {:induction false} RegisterLocalConserves(s: State, i: nat)
    requires Conserved(s) && i in s.creating
    ensures Conserved(s.(reg := Bind(s.reg, s.creating[i], i), creating := s.creating - {i}))
  {
    hide Settled, Held, Bind;
  }

  lemma {:induction false} StepConserves(s: State, e: Event)
    requires Conserved(s)
    ensures Conserved(Step(s, e))
  {
    hide Conserved, Transmit, RegisterTree, NodeDelete, DeleteAll;
    if Possible(s, e) {
      match e
      case Receive(m, o) => ReceiveConserves(s, m, o);
      case Drain(l, o) => DrainConserves(s, l, o);
      case RegisterPI => RegisterPIConserves(s);
      case Hand => HandConserves(s);
      case NewInstance(t, tok) => NewInstanceConserves(s, t, tok);
      case RegisterLocal(i) => RegisterLocalConserves(s, i);
      case Response(t) => RegisterTreeConserves(s, t);
      case LocalTree(t) => RegisterTreeConserves(s, t);
      case Done(tok) => DeleteConserves(s, tok);
      case Expired(id) => ExpiredConserves(s, id);
      case Shutdown(order) => ShutdownConserves(s, order);
    }
  }
}
