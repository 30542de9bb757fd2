/**
 The life cycle of protocol instances in the overlay, as a state and the steps that
 change it. Every handler is one step; TransmitMsg is three, because the protocol
 runs from its creation on and may finish before it is registered or is handed
 its first message.
 */
module OverlayState {
  import opened TreeStorage

  datatype Token = Token(tree: nat, node: nat, round: nat)

  /** A message; `id` is its number in the order of receipt. */
  datatype Msg = Msg(id: nat, to: Token)

  /** A tree, as far as the overlay looks at it: its id and the ids of its nodes. */
  datatype Tree = Tree(id: nat, nodes: set<nat>)

  /** Where the message that holds the transmit lock stands. */
  datatype Stage = Idle | Created(msg: Msg, inst: nat) | Chosen(msg: Msg, inst: nat)

  /** What happened, in order. Forgotten: the id of a tree is no longer registered. */
  datatype Entry =
    | Closed(inst: nat)
    | Queued(msg: Msg, inst: nat)
    | Dropped(msg: Msg)
    | Refused(msg: Msg)
    | Requested(tree: nat)
    | Forgotten(tree: nat)

  /**
   Instances are numbered in the order of their creation; a protocol instance has
   the number of the tree node instance it was made for.
   - instances, protocolInstances: by token
   - bound: the instances that have a protocol instance
   - closing: the instances whose dispatch was closed
   - finished: the tokens marked done
   */
  datatype Registry = Registry(instances: map<Token, nat>, protocolInstances: map<Token, nat>,
                               bound: set<nat>, closing: set<nat>, finished: set<Token>, nextInst: nat)

  /**
   - drains: messages taken from the pending list, one list for each new tree
   - creating: instances of local protocols that are not registered yet
   - received, log: everything that came in and everything that happened
   */
  datatype State = State(storage: Storage<Tree>, reg: Registry,
                         pending: seq<Msg>, drains: seq<seq<Msg>>, stage: Stage, creating: map<nat, Token>,
                         received: multiset<Msg>, log: seq<Entry>)

  function Begin(): State {
    State(Storage(map[], {}, false), Registry(map[], map[], {}, {}, {}, 0), [], [], Idle, map[], multiset{}, [])
  }

  /** What the environment decides: wrapping and sending a request, and making a protocol. */
  datatype Proto = ProtoError | ProtoNil | ProtoOk
  datatype Outcome = Outcome(wrapOk: bool, sendOk: bool, proto: Proto)

  function Note(s: State, e: Entry): State {
    s.(log := s.log + [e])
  }

  predicate Available(storage: Storage<Tree>, id: nat) {
    Get(storage, id).Some?
  }

  predicate InUse(instances: map<Token, nat>, tree: nat) {
    exists tok :: tok in instances && tok.tree == tree
  }

  // ----- nodeDelete and nodeDone

  function Unlist(r: Registry, tok: Token): Registry
    requires tok in r.instances
  {
    r.(instances := r.instances - {tok},
       protocolInstances := r.protocolInstances - {tok},
       closing := r.closing + {r.instances[tok]},
       finished := r.finished + {tok})
  }

  function NodeDelete(s: State, tok: Token): State {
    if tok !in s.reg.instances then s
    else
      var reg := Unlist(s.reg, tok);
      Note(s.(reg := reg,
              storage := if InUse(reg.instances, tok.tree) then s.storage else Remove(s.storage, tok.tree)),
           Closed(s.reg.instances[tok]))
  }

  // ----- requestTree

  function RequestTree(s: State, m: Msg, o: Outcome): State {
    var id := m.to.tree;
    var s := s.(pending := s.pending + [m]);
    if !o.wrapOk || IsRegistered(s.storage, id) then s
    else
      var s := Note(s.(storage := Register(s.storage, id)), Requested(id));
      if o.sendOk then s else Note(s.(storage := Unregister(s.storage, id)), Forgotten(id))
  }

  // ----- TransmitMsg up to the creation of the instance

  function List(r: Registry, tok: Token): Registry {
    r.(instances := r.instances[tok := r.nextInst], nextInst := r.nextInst + 1)
  }

  function Create(s: State, m: Msg, proto: Proto): State {
    var made := s.(reg := List(s.reg, m.to));
    match proto
    case ProtoError => Note(NodeDelete(made, m.to), Refused(m))
    case ProtoNil => Note(made, Refused(m))
    case ProtoOk => made.(stage := Created(m, s.reg.nextInst))
  }

  /** The transmit lock is free, or the message only has to wait for its tree. */
  predicate CanTransmit(s: State, m: Msg) {
    s.stage.Idle? || !Available(s.storage, m.to.tree)
  }

  function Transmit(s: State, m: Msg, o: Outcome): State {
    var s := s.(storage := CancelDeletion(s.storage, m.to.tree));
    var tree := Get(s.storage, m.to.tree);
    if tree.None? then RequestTree(s, m, o)
    else if m.to in s.reg.finished then Note(s, Dropped(m))
    else if m.to in s.reg.protocolInstances then
      s.(stage := Chosen(m, s.reg.protocolInstances[m.to]))
    else if m.to.node !in tree.value.nodes then Note(s, Refused(m))
    else Create(s, m, o.proto)
  }

  // ----- RegisterProtocolInstance

  predicate CanBind(r: Registry, tok: Token) {
    tok in r.instances && r.instances[tok] !in r.bound
  }

  /** Binds the protocol instance made for `inst` to the instance found under its token. */
  function Bind(r: Registry, tok: Token, inst: nat): Registry {
    if !CanBind(r, tok) then r
    else r.(bound := r.bound + {r.instances[tok]}, protocolInstances := r.protocolInstances[tok := inst])
  }

  // ----- RegisterTree, with the start of its drain

  function Matching(ms: seq<Msg>, tree: nat): seq<Msg> {
    if ms == [] then []
    else if ms[|ms| - 1].to.tree == tree then Matching(ms[..|ms| - 1], tree) + [ms[|ms| - 1]]
    else Matching(ms[..|ms| - 1], tree)
  }

  function NotMatching(ms: seq<Msg>, tree: nat): seq<Msg> {
    if ms == [] then []
    else if ms[|ms| - 1].to.tree == tree then NotMatching(ms[..|ms| - 1], tree)
    else NotMatching(ms[..|ms| - 1], tree) + [ms[|ms| - 1]]
  }

  function RegisterTree(s: State, t: Tree): State {
    s.(storage := Set(s.storage, t.id, t),
       pending := NotMatching(s.pending, t.id),
       drains := s.drains + [Matching(s.pending, t.id)])
  }

  // ----- Close

  function DeleteAll(s: State, toks: seq<Token>): State
    decreases toks
  {
    if toks == [] then s else DeleteAll(NodeDelete(s, toks[0]), toks[1..])
  }

  lemma {:induction false} DeleteAllAppend(s: State, toks: seq<Token>, tok: Token)
    ensures DeleteAll(s, toks + [tok]) == NodeDelete(DeleteAll(s, toks), tok)
    decreases toks
  {
    if toks == [] {
      assert [tok][1..] == [];
    } else {
      hide NodeDelete;
      DeleteAllAppend(NodeDelete(s, toks[0]), toks[1..], tok);
      assert (toks + [tok])[1..] == toks[1..] + [tok];
    }
  }

  // ----- events

  datatype Event =
    | Receive(msg: Msg, outcome: Outcome)
    | Drain(list: nat, outcome: Outcome)
    | RegisterPI
    | Hand
    | NewInstance(tree: Tree, tok: Token)
    | RegisterLocal(inst: nat)
    | Response(tree: Tree)
    | LocalTree(tree: Tree)
    | Done(tok: Token)
    | Expired(id: nat)
    | Shutdown(order: seq<Token>)

  /**
   Round ids are fresh: a token made for a local protocol is not in any message
   received so far, and no message for it comes in before the protocol is registered.
   Messages are numbered as they are received.
   */
  ghost predicate Possible(s: State, e: Event) {
    match e
    case Receive(m, _) =>
      m.id == |s.received| && CanTransmit(s, m) && forall i :: i in s.creating ==> s.creating[i] != m.to
    case Drain(l, _) => l < |s.drains| && s.drains[l] != [] && CanTransmit(s, s.drains[l][0])
    case RegisterPI => s.stage.Created?
    case Hand => s.stage.Chosen?
    case NewInstance(t, tok) =>
      && tok.tree == t.id
      && tok !in s.reg.instances && tok !in s.reg.finished
      && (forall m :: m in s.received ==> m.to != tok)
      && (forall i :: i in s.creating ==> s.creating[i] != tok)
    case RegisterLocal(i) => i in s.creating
    case Response(t) => IsRegistered(s.storage, t.id)
    case LocalTree(_) => true
    case Done(tok) => tok in s.reg.instances
    case Expired(id) => id in s.storage.planned
    case Shutdown(order) => forall tok :: tok in s.reg.instances ==> tok in order
  }

  ghost function Step(s: State, e: Event): State {
    if !Possible(s, e) then s
    else
      match e
      case Receive(m, o) => Transmit(s.(received := s.received + multiset{m}), m, o)
      case Drain(l, o) => Transmit(s.(drains := s.drains[l := s.drains[l][1..]]), s.drains[l][0], o)
      case RegisterPI =>
        var m, i := s.stage.msg, s.stage.inst;
        if CanBind(s.reg, m.to) then s.(reg := Bind(s.reg, m.to, i), stage := Chosen(m, i))
        else Note(s.(stage := Idle), Refused(m))
      case Hand =>
        var m, i := s.stage.msg, s.stage.inst;
        Note(s.(stage := Idle), if i in s.reg.closing then Dropped(m) else Queued(m, i))
      case NewInstance(t, tok) =>
        RegisterTree(s.(reg := List(s.reg, tok), creating := s.creating[s.reg.nextInst := tok]), t)
      case RegisterLocal(i) => s.(reg := Bind(s.reg, s.creating[i], i), creating := s.creating - {i})
      case Response(t) => RegisterTree(s, t)
      case LocalTree(t) => RegisterTree(s, t)
      case Done(tok) => NodeDelete(s, tok)
      case Expired(id) =>
        var s := s.(storage := Expire(s.storage, id));
        Note(s, Forgotten(id))
      case Shutdown(order) =>
        var s := DeleteAll(s, order);
        s.(storage := Close(s.storage))
  }

  ghost function Run(es: seq<Event>): State {
    if es == [] then Begin() else Step(Run(es[..|es| - 1]), es[|es| - 1])
  }
}
