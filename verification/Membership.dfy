/** The controller's durable membership store: node lifecycles, tombstones and the
    persisted progress of removals. Every operation names the next stored state. */
module Membership {

  type NodeID = string

  datatype Lifecycle = Joining | Ready | Schedulable | Cordoned | Draining

  /** An active node. `transport` says whether an SSH endpoint is recorded for it. */
  datatype Member = Member(lifecycle: Lifecycle, controlPlane: bool, transport: bool)

  datatype Phase = RevokePeers | RemoveMember | CleanupTarget

  /** A removal in progress keeps the identity of its target and how far it got. */
  datatype Removal = Removal(node: Member, phase: Phase)

  datatype State = State(
    generation: nat,
    controller: NodeID,
    nodes: map<NodeID, Member>,
    tombstones: set<NodeID>,
    removals: map<NodeID, Removal>)

  /** What a mutation asks the store to write. */
  datatype Mutation = Rejected | Unchanged | Committed(next: State)

  function Controllers(s: State): set<NodeID> {
    set n | n in s.nodes && s.nodes[n].controlPlane
  }

  predicate FinalController(s: State, id: NodeID)
    requires id in s.nodes
  {
    s.nodes[id].controlPlane && |Controllers(s)| <= 1
  }

  function WithLifecycle(s: State, id: NodeID, to: Lifecycle): State
    requires id in s.nodes
  {
    s.(generation := s.generation + 1, nodes := s.nodes[id := s.nodes[id].(lifecycle := to)])
  }

  function Transition(s: State, id: NodeID, from: set<Lifecycle>, to: Lifecycle): Mutation {
    if id !in s.nodes then Rejected
    else if s.nodes[id].lifecycle == to then Unchanged
    else if s.nodes[id].lifecycle !in from then Rejected
    else Committed(WithLifecycle(s, id, to))
  }

  function MarkReady(s: State, id: NodeID): Mutation {
    Transition(s, id, {Joining}, Ready)
  }

  function MarkSchedulable(s: State, id: NodeID): Mutation {
    Transition(s, id, {Ready, Cordoned}, Schedulable)
  }

  function Cordon(s: State, id: NodeID): Mutation {
    Transition(s, id, {Ready, Schedulable}, Cordoned)
  }

  function BeginDrain(s: State, id: NodeID): Mutation {
    if id !in s.nodes then Rejected
    else if s.nodes[id].lifecycle == Draining then Unchanged
    else if s.nodes[id].lifecycle != Cordoned || FinalController(s, id) then Rejected
    else Committed(WithLifecycle(s, id, Draining))
  }

  /** Enrolment adds a worker that is joining; an active or tombstoned ID is refused. */
  function EnrollWorker(s: State, id: NodeID): Mutation {
    if id in s.nodes || id in s.tombstones || s.controller !in s.nodes then Rejected
    else
      var reachable := s.nodes[s.controller := s.nodes[s.controller].(transport := true)];
      Committed(s.(generation := s.generation + 1,
                   nodes := reachable[id := Member(Joining, false, true)]))
  }

  function PrepareRemoval(s: State, id: NodeID): Mutation {
    if id in s.removals then Unchanged
    else if id !in s.nodes || s.nodes[id].lifecycle != Draining || FinalController(s, id) then Rejected
    else Committed(s.(generation := s.generation + 1,
                      removals := s.removals[id := Removal(s.nodes[id], RevokePeers)]))
  }

  function MarkPeersRevoked(s: State, id: NodeID): Mutation {
    if id !in s.removals then Rejected
    else if s.removals[id].phase != RevokePeers then Unchanged
    else Committed(s.(generation := s.generation + 1,
                      removals := s.removals[id := s.removals[id].(phase := RemoveMember)]))
  }

  function Remove(s: State, id: NodeID): Mutation {
    if id in s.tombstones then Unchanged
    else if id !in s.nodes || s.nodes[id].lifecycle != Draining || FinalController(s, id) then Rejected
    else if id !in s.removals || s.removals[id].phase != RemoveMember then Rejected
    else Committed(s.(generation := s.generation + 1,
                      nodes := s.nodes - {id},
                      tombstones := s.tombstones + {id},
                      removals := s.removals[id := s.removals[id].(phase := CleanupTarget)]))
  }

  function CompleteRemoval(s: State, id: NodeID): Mutation {
    if id !in s.removals then (if id in s.tombstones then Unchanged else Rejected)
    else if s.removals[id].phase != CleanupTarget then Rejected
    else Committed(s.(generation := s.generation + 1, removals := s.removals - {id}))
  }

  /** What the store's own validation and its mutations keep true of the file. */
  ghost predicate Valid(s: State) {
    && s.controller in s.nodes
    && Controllers(s) == {s.controller}
    && s.nodes[s.controller].lifecycle in {Schedulable, Cordoned}
    && s.nodes.Keys !! s.tombstones
    && (forall id :: id in s.removals ==>
          if s.removals[id].phase == CleanupTarget then id in s.tombstones
          else id in s.nodes && s.nodes[id].lifecycle == Draining)
  }

  /** How far a node's removal got: 0 not begun, 4 completed. */
  function Progress(s: State, id: NodeID): nat {
    if id in s.removals then
      match s.removals[id].phase
      case RevokePeers => 1
      case RemoveMember => 2
      case CleanupTarget => 3
    else if id in s.tombstones then 4
    else 0
  }

  predicate Completed(s: State, id: NodeID) {
    id in s.tombstones && id !in s.removals
  }

  ghost predicate LifecycleStep(s: State, id: NodeID, m: Mutation) {
    m == MarkReady(s, id) || m == MarkSchedulable(s, id) || m == Cordon(s, id) || m == BeginDrain(s, id)
  }

  ghost predicate RemovalStep(s: State, id: NodeID, m: Mutation) {
    m == PrepareRemoval(s, id) || m == MarkPeersRevoked(s, id) || m == Remove(s, id) || m == CompleteRemoval(s, id)
  }

  /** One store mutation of any kind, on any node. */
  ghost predicate StoreStep(s: State, id: NodeID, m: Mutation) {
    LifecycleStep(s, id, m) || m == EnrollWorker(s, id) || RemovalStep(s, id, m)
  }

  /** The two states agree on every node but `id`. */
  ghost predicate Local(s: State, t: State, id: NodeID) {
    && t.controller == s.controller
    && (forall n :: n != id ==> (n in t.nodes <==> n in s.nodes))
    && (forall n :: n != id && n in s.nodes && n in t.nodes ==> t.nodes[n].lifecycle == s.nodes[n].lifecycle)
    && (forall n :: n != id ==> (n in t.tombstones <==> n in s.tombstones))
    && (forall n :: n != id ==> (n in t.removals <==> n in s.removals))
    && (forall n :: n != id && n in s.removals && n in t.removals ==> t.removals[n] == s.removals[n])
  }

  /** A member leaves only as a tombstone, never comes back from one, and keeps its endpoint. */
  ghost predicate KeepsMembers(s: State, t: State) {
    && (forall n :: n in s.nodes && n !in t.nodes ==> n in t.tombstones)
    && (forall n :: n in t.nodes && n !in s.nodes ==> n !in s.tombstones)
    && (forall n :: n in t.nodes && !t.nodes[n].transport ==> n in s.nodes && !s.nodes[n].transport)
  }

  /** Every mutation keeps the store valid, moves no removal backwards, forgets no
      tombstone, changes no other node and strictly advances the generation. */
  lemma StoreStepKeeps(s: State, id: NodeID, m: Mutation)
    requires Valid(s) && StoreStep(s, id, m) && m.Committed?
    ensures Valid(m.next)
    ensures Local(s, m.next, id)
    ensures s.tombstones <= m.next.tombstones
    ensures s.generation < m.next.generation
    ensures forall n :: Progress(s, n) <= Progress(m.next, n)
    ensures KeepsMembers(s, m.next)
  {
    StoreStepLocal(s, id, m);
    StoreStepValid(s, id, m);
    StoreStepAdvances(s, id, m);
    forall n ensures Progress(s, n) <= Progress(m.next, n) {
      if n != id { ElsewhereUnchanged(s, m.next, id, n); }
    }
  }

  lemma ElsewhereUnchanged(s: State, t: State, id: NodeID, n: NodeID)
    requires Local(s, t, id) && n != id
    ensures Progress(s, n) == Progress(t, n)
  {
  }

  /** What a mutation does to its own node's removal, and to the file as a whole. */
  lemma StoreStepAdvances(s: State, id: NodeID, m: Mutation)
    requires Valid(s) && StoreStep(s, id, m) && m.Committed?
    ensures s.generation < m.next.generation && s.tombstones <= m.next.tombstones
    ensures Progress(s, id) <= Progress(m.next, id)
    ensures KeepsMembers(s, m.next)
  {
    if LifecycleStep(s, id, m) {
      LifecycleStepNext(s, id, m);
    }
  }

  /** A lifecycle change touches nothing but its node's lifecycle. */
  lemma LifecycleStepNext(s: State, id: NodeID, m: Mutation)
    requires LifecycleStep(s, id, m) && m.Committed?
    ensures id in s.nodes && exists to :: m.next == WithLifecycle(s, id, to)
  {
  }

  lemma StoreStepLocal(s: State, id: NodeID, m: Mutation)
    requires Valid(s) && StoreStep(s, id, m) && m.Committed?
    ensures Local(s, m.next, id)
  {
    if LifecycleStep(s, id, m) {
      LifecycleStepNext(s, id, m);
    } else if RemovalStep(s, id, m) {
      RemovalStepLocal(s, id, m);
    }
  }

  lemma RemovalStepLocal(s: State, id: NodeID, m: Mutation)
    requires RemovalStep(s, id, m) && m.Committed?
    ensures Local(s, m.next, id)
  {
  }

  lemma StoreStepValid(s: State, id: NodeID, m: Mutation)
    requires Valid(s) && StoreStep(s, id, m) && m.Committed?
    ensures Valid(m.next)
  {
    SoleController(s);
    ControllersStay(s, id, m);
    if LifecycleStep(s, id, m) {
      LifecycleStepValid(s, id, m);
    } else if RemovalStep(s, id, m) {
      RemovalStepValid(s, id, m);
    }
  }

  /** A draining node leaves that lifecycle only by removal, and the controller never drains. */
  lemma LifecycleStepKeepsDraining(s: State, id: NodeID, m: Mutation)
    requires Valid(s) && LifecycleStep(s, id, m) && m.Committed? && FinalController(s, s.controller)
    ensures id in s.nodes && s.nodes[id].lifecycle != Draining && id in m.next.nodes
    ensures id == s.controller ==> m.next.nodes[id].lifecycle in {Schedulable, Cordoned}
  {
  }

  lemma LifecycleStepValid(s: State, id: NodeID, m: Mutation)
    requires Valid(s) && LifecycleStep(s, id, m) && m.Committed? && Controllers(m.next) == {s.controller}
    requires FinalController(s, s.controller)
    ensures Valid(m.next)
  {
    LifecycleStepNext(s, id, m);
    LifecycleStepKeepsDraining(s, id, m);
  }

  lemma RemovalStepValid(s: State, id: NodeID, m: Mutation)
    requires Valid(s) && RemovalStep(s, id, m) && m.Committed? && Controllers(m.next) == {s.controller}
    ensures Valid(m.next)
  {
  }

  lemma ControllersStay(s: State, id: NodeID, m: Mutation)
    requires Valid(s) && StoreStep(s, id, m) && m.Committed?
    ensures m.next.controller == s.controller && Controllers(m.next) == {s.controller}
  {
    SoleController(s);
    if LifecycleStep(s, id, m) { LifecycleStepNext(s, id, m); }
    assert s.controller in Controllers(s);
    assert s.controller in Controllers(m.next);
    forall n | n in Controllers(m.next) ensures n == s.controller { }
  }

  lemma SoleController(s: State)
    requires Valid(s)
    ensures FinalController(s, s.controller)
    ensures forall n :: n in s.nodes && n != s.controller ==> !s.nodes[n].controlPlane
  {
    assert s.controller in Controllers(s);
    forall n | n in s.nodes && n != s.controller ensures !s.nodes[n].controlPlane {
      assert n !in Controllers(s);
    }
  }
}
