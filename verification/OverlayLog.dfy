/**
 What the log of an overlay can look like: an instance is closed once, nothing is
 queued to it afterwards, and a tree is requested again only after its id was
 forgotten.
 */
module OverlayLog {
  import opened TreeStorage
  import opened OverlayState
  import opened OverlayInstances

  ghost predicate ClosedOnce(log: seq<Entry>, closing: set<nat>) {
    && (forall i :: 0 <= i < |log| && log[i].Closed? ==> log[i].inst in closing)
    && (forall i, j :: 0 <= i < j < |log| && log[i].Closed? && log[j].Closed? ==> log[i].inst != log[j].inst)
    && (forall i, j :: 0 <= i < j < |log| && log[i].Closed? && log[j].Queued? ==> log[i].inst != log[j].inst)
  }

  /** The id of the request at `i` was forgotten between `i` and `j`. */
  ghost predicate ForgottenBetween(log: seq<Entry>, i: nat, j: nat)
    requires i < j <= |log| && log[i].Requested?
  {
    exists k :: i < k < j && log[k] == Forgotten(log[i].tree)
  }

  /** A request not forgotten leaves its id registered; no request is repeated meanwhile. */
  ghost predicate RequestedOnce(log: seq<Entry>, known: set<nat>) {
    && (forall i: nat :: i < |log| && log[i].Requested? && !ForgottenBetween(log, i, |log|) ==> log[i].tree in known)
    && (forall i: nat, j: nat :: i < j < |log| && log[i].Requested? && log[j] == log[i] ==> ForgottenBetween(log, i, j))
  }

  ghost predicate LogInv(s: State) {
    ClosedOnce(s.log, s.reg.closing) && RequestedOnce(s.log, s.storage.trees.Keys)
  }

  lemma {:induction false} NoteClosed(log: seq<Entry>, closing: set<nat>, closing': set<nat>, e: Entry)
    requires ClosedOnce(log, closing) && closing <= closing'
    requires e.Closed? ==> e.inst !in closing && e.inst in closing'
    requires e.Queued? ==> e.inst !in closing
    ensures ClosedOnce(log + [e], closing')
  {
  }

  lemma {:induction false} StillForgotten(log: seq<Entry>, e: Entry, i: nat, j: nat)
    requires i < j <= |log| && log[i].Requested?
    ensures ForgottenBetween(log, i, j) ==>
              ForgottenBetween(log + [e], i, j) && ForgottenBetween(log + [e], i, |log| + 1)
    ensures ForgottenBetween(log + [e], i, j) ==> ForgottenBetween(log, i, j)
    ensures e == Forgotten(log[i].tree) ==> ForgottenBetween(log + [e], i, |log| + 1)
  {
    var l := log + [e];
    if ForgottenBetween(log, i, j) {
      var k :| i < k < j && log[k] == Forgotten(log[i].tree);
      assert l[k] == Forgotten(l[i].tree);
    }
    if ForgottenBetween(l, i, j) {
      var k :| i < k < j && l[k] == Forgotten(l[i].tree);
      assert log[k] == Forgotten(log[i].tree);
    }
    if e == Forgotten(log[i].tree) {
      assert l[|log|] == Forgotten(l[i].tree);
    }
  }

  lemma {:induction false} NoteRequest(log: seq<Entry>, known: set<nat>, known': set<nat>, e: Entry)
    requires RequestedOnce(log, known)
    requires if e.Forgotten? then known - {e.tree} <= known' else known <= known'
    requires e.Requested? ==> e.tree !in known && e.tree in known'
    ensures RequestedOnce(log + [e], known')
  {
    var l := log + [e];
    forall i: nat | i < |l| && l[i].Requested? && !ForgottenBetween(l, i, |l|)
      ensures l[i].tree in known'
    {
      if i < |log| {
        StillForgotten(log, e, i, |log|);
      }
    }
    forall i: nat, j: nat | i < j < |l| && l[i].Requested? && l[j] == l[i]
      ensures ForgottenBetween(l, i, j)
    {
      StillForgotten(log, e, i, j);
      if j == |log| {
        assert ForgottenBetween(log, i, |log|);
      }
    }
  }

  lemma {:induction false} MoreKnown(log: seq<Entry>, known: set<nat>, known': set<nat>)
    requires RequestedOnce(log, known) && known <= known'
    ensures RequestedOnce(log, known')
  {
  }

  /** An entry that is about a message only. */
  lemma {:induction false} NoteMsg(s: State, e: Entry)
    requires LogInv(s) && (e.Dropped? || e.Refused? || (e.Queued? && e.inst !in s.reg.closing))
    ensures LogInv(Note(s, e))
  {
    hide ClosedOnce, RequestedOnce;
    NoteClosed(s.log, s.reg.closing, s.reg.closing, e);
    NoteRequest(s.log, s.storage.trees.Keys, s.storage.trees.Keys, e);
  }

  lemma {:induction false} DeleteLog(s: State, tok: Token)
    requires LogInv(s) && RegInv(s.reg)
    ensures LogInv(NodeDelete(s, tok))
  {
    if tok in s.reg.instances {
      hide ClosedOnce, RequestedOnce, InUse;
      var i, s' := s.reg.instances[tok], NodeDelete(s, tok);
      assert s'.storage.trees == s.storage.trees;
      NoteClosed(s.log, s.reg.closing, s'.reg.closing, Closed(i));
      NoteRequest(s.log, s.storage.trees.Keys, s.storage.trees.Keys, Closed(i));
    }
  }

  lemma {:induction false} DeleteAllLog(s: State, toks: seq<Token>)
    requires LogInv(s) && InstInv(s)
    ensures LogInv(DeleteAll(s, toks)) && InstInv(DeleteAll(s, toks))
    decreases toks
  {
    hide LogInv;
    if toks != [] {
      assert RegInv(s.reg);
      hide InstInv, RegInv, NodeDelete;
      DeleteLog(s, toks[0]);
      DeleteInst(s, toks[0]);
      DeleteAllLog(NodeDelete(s, toks[0]), toks[1..]);
    }
  }

  lemma {:induction false} RequestLog(s: State, m: Msg, o: Outcome)
    requires LogInv(s)
    ensures LogInv(RequestTree(s, m, o))
  {
    var id, known := m.to.tree, s.storage.trees.Keys;
    if o.wrapOk && !IsRegistered(s.storage, id) {
      hide ClosedOnce, RequestedOnce;
      var log1 := s.log + [Requested(id)];
      NoteClosed(s.log, s.reg.closing, s.reg.closing, Requested(id));
      NoteRequest(s.log, known, known + {id}, Requested(id));
      assert Register(s.storage, id).trees.Keys == known + {id};
      if !o.sendOk {
        NoteClosed(log1, s.reg.closing, s.reg.closing, Forgotten(id));
        NoteRequest(log1, known + {id}, known, Forgotten(id));
        assert Unregister(Register(s.storage, id), id).trees.Keys == known;
      }
    }
  }

  lemma {:induction false} CreateLog(s: State, m: Msg, proto: Proto)
    requires LogInv(s) && InstInv(s) && m.to !in s.reg.finished && m.to !in s.reg.protocolInstances
    ensures LogInv(Create(s, m, proto))
  {
    var made := s.(reg := List(s.reg, m.to));
    assert LogInv(made);
    ListInv(s.reg, m.to);
    hide LogInv, RegInv, NodeDelete;
    match proto
    case ProtoError =>
      DeleteLog(made, m.to);
      NoteMsg(NodeDelete(made, m.to), Refused(m));
    case ProtoNil => NoteMsg(made, Refused(m));
    case ProtoOk => assert LogInv(Create(s, m, proto)) by { StageLog(made, Created(m, s.reg.nextInst)); }
  }

  lemma {:induction false} StageLog(s: State, stage: Stage)
    requires LogInv(s)
    ensures LogInv(s.(stage := stage))
  {
  }

  lemma {:induction false} TransmitLog(s: State, m: Msg, o: Outcome)
    requires LogInv(s) && InstInv(s)
    ensures LogInv(Transmit(s, m, o))
  {
    var s0 := s.(storage := CancelDeletion(s.storage, m.to.tree));
    assert LogInv(s0);
    if !Available(s0.storage, m.to.tree) {
      RequestLog(s0, m, o);
    } else if m.to in s.reg.finished {
      NoteMsg(s0, Dropped(m));
    } else if m.to in s.reg.protocolInstances {
      StageLog(s0, Chosen(m, s.reg.protocolInstances[m.to]));
    } else {
      NoteMsg(s0, Refused(m));
      CreateLog(s0, m, o.proto);
    }
    hide LogInv, InstInv, RequestTree, Create, Note;
  }

  lemma {:induction false} RegisterTreeLog(s: State, t: Tree)
    requires LogInv(s)
    ensures LogInv(RegisterTree(s, t))
  {
    hide ClosedOnce, RequestedOnce, Matching, NotMatching;
    MoreKnown(s.log, s.storage.trees.Keys, RegisterTree(s, t).storage.trees.Keys);
  }

  lemma {:induction false} ExpiredLog(s: State, id: nat)
    requires LogInv(s) && id in s.storage.planned
    ensures LogInv(Step(s, Expired(id)))
  {
    hide ClosedOnce, RequestedOnce;
    NoteClosed(s.log, s.reg.closing, s.reg.closing, Forgotten(id));
    NoteRequest(s.log, s.storage.trees.Keys, Expire(s.storage, id).trees.Keys, Forgotten(id));
  }

  lemma {:induction false} BindKeepsClosing(r: Registry, tok: Token, i: nat)
    ensures Bind(r, tok, i).closing == r.closing
  {
  }
}
