/** Node lifecycle commands run by the controller: the deny latch, crash-resumable
    removal, mesh revocation and publication of the inventory to every worker.

    A command is a straight line of named external calls. An oracle gives the outcome
    of each: it took effect and said so, it took effect but the answer was lost, or it
    had no effect. A crash between two calls is the next call having no effect, so
    "every oracle" ranges over every failure and crash point of a command. */
module Lifecycle {
  import opened Membership
  import opened Names

  datatype Outcome = Ok | Lost | Refused

  datatype Call =
    | Open | AgentStatus | LatchOn | Act | Reconcile | ReadBack
    | Prepare | Reread | RevokeController | RevokePeer(peer: NodeID) | MarkRevoked | RemoveCall
    | PublishTarget | ControllerMesh | PublishPeer(node: NodeID) | LatchOff | Cleanup | Complete
    | Identity | EnrollCall | ReadyCall

  type Oracle = Call -> Outcome

  /** What a machine runs: its mesh peers and the generation it last attested. */
  datatype Machine = Machine(mesh: set<NodeID>, attested: nat)

  datatype World = World(m: State, latched: set<NodeID>, machines: map<NodeID, Machine>)

  datatype Use = UseReady | UseSchedulable | UseCordon | UseDrain | UseRemove

  datatype Command = Lifecycle(use: Use, target: NodeID) | Enroll(worker: NodeID, matches: bool)

  function MachineOf(w: World, id: NodeID): Machine {
    if id in w.machines then w.machines[id] else Machine({}, 0)
  }

  function Mesh(w: World, id: NodeID): set<NodeID> {
    MachineOf(w, id).mesh
  }

  /** A store call: `Lost` is a commit whose inventory publication failed. */
  function Commit(w: World, change: Mutation, outcome: Outcome): (World, bool) {
    match change
    case Rejected => (w, false)
    case Unchanged => (w, outcome == Ok)
    case Committed(next) => (if outcome == Refused then w else w.(m := next), outcome == Ok)
  }

  function SetDeny(w: World, id: NodeID, denied: bool, outcome: Outcome): (World, bool)
    requires id in w.m.nodes
  {
    if outcome == Refused || (id != w.m.controller && !w.m.nodes[id].transport) then (w, false)
    else (w.(latched := if denied then w.latched + {id} else w.latched - {id}), outcome == Ok)
  }

  /** The peers a machine keeps after reconciling the published inventory. */
  function Topology(s: State, id: NodeID, exclude: set<NodeID>): set<NodeID> {
    s.nodes.Keys - {id} - exclude
  }

  predicate TopologyAccepted(s: State, id: NodeID, exclude: set<NodeID>) {
    id in s.nodes && id !in exclude && exclude <= s.nodes.Keys
  }

  function Publish(w: World, id: NodeID, exclude: set<NodeID>, outcome: Outcome): (World, bool)
    requires id in w.m.nodes
  {
    if outcome == Refused || !w.m.nodes[id].transport || !TopologyAccepted(w.m, id, exclude) then (w, false)
    else
      var attested := if outcome == Ok then w.m.generation else MachineOf(w, id).attested;
      (w.(machines := w.machines[id := Machine(Topology(w.m, id, exclude), attested)]), outcome == Ok)
  }

  /** The controller reconciles its own mesh from the inventory file, without SSH. */
  function ReconcileController(w: World, exclude: set<NodeID>, outcome: Outcome): (World, bool) {
    var c := w.m.controller;
    if outcome == Refused || !TopologyAccepted(w.m, c, exclude) then (w, false)
    else (w.(machines := w.machines[c := MachineOf(w, c).(mesh := Topology(w.m, c, exclude))]), outcome == Ok)
  }

  /** Publish to the listed nodes in turn, stopping at the first failure. */
  function PublishEach(w: World, peers: seq<NodeID>, exclude: set<NodeID>, call: NodeID -> Call, o: Oracle): (World, bool)
    requires Elements(peers) <= w.m.nodes.Keys
    decreases |peers|
  {
    if peers == [] then (w, true)
    else
      assert peers[0] in Elements(peers);
      var (w1, ok) := Publish(w, peers[0], exclude, o(call(peers[0])));
      if !ok then (w1, false) else PublishEach(w1, peers[1..], exclude, call, o)
  }

  function Others(s: State, id: NodeID): seq<NodeID> {
    SortedNames(s.nodes.Keys - {s.controller, id})
  }

  function RevokeEverywhere(w: World, id: NodeID, o: Oracle): (World, bool) {
    var (w1, ok) := ReconcileController(w, {id}, o(RevokeController));
    if !ok then (w1, false)
    else PublishEach(w1, Others(w1.m, id), {id}, p => RevokePeer(p), o)
  }

  function PrepareStep(w: World, id: NodeID, o: Oracle): (World, bool) {
    if id in w.m.removals then (w, true)
    else
      var (w1, ok) := Commit(w, PrepareRemoval(w.m, id), o(Prepare));
      (w1, ok && o(Reread) == Ok)
  }

  function RevokeStep(w: World, id: NodeID, o: Oracle): (World, bool)
    requires id in w.m.removals
  {
    if w.m.removals[id].phase != RevokePeers then (w, true)
    else
      var (w1, ok) := RevokeEverywhere(w, id, o);
      if !ok then (w1, false) else Commit(w1, MarkPeersRevoked(w1.m, id), o(MarkRevoked))
  }

  function RemoveStep(w: World, id: NodeID, o: Oracle): (World, bool) {
    if id in w.m.removals && w.m.removals[id].phase == RemoveMember
    then Commit(w, Remove(w.m, id), o(RemoveCall))
    else (w, true)
  }

  /** Drive a removal from its persisted phase up to target cleanup. */
  function ResumeRemoval(w: World, id: NodeID, o: Oracle): (World, bool) {
    var (w1, ok1) := PrepareStep(w, id, o);
    if !ok1 || id !in w1.m.removals then (w1, false)
    else
      var (w2, ok2) := RevokeStep(w1, id, o);
      if !ok2 then (w2, false) else RemoveStep(w2, id, o)
  }

  function Action(s: State, use: Use, id: NodeID): Mutation
    requires use != UseRemove
  {
    match use
    case UseReady => MarkReady(s, id)
    case UseSchedulable => MarkSchedulable(s, id)
    case UseCordon => Cordon(s, id)
    case UseDrain => BeginDrain(s, id)
  }

  /** The target is told first, then the controller's mesh, then every other worker. */
  function Announce(w: World, id: NodeID, o: Oracle): (World, bool) {
    if o(Reconcile) != Ok || o(ReadBack) != Ok then (w, false)
    else
      var (w1, ok1) := if id in w.m.nodes && id != w.m.controller
                       then Publish(w, id, {}, o(PublishTarget)) else (w, true);
      if !ok1 then (w1, false)
      else
        var (w2, ok2) := ReconcileController(w1, {}, o(ControllerMesh));
        if !ok2 then (w2, false)
        else PublishEach(w2, Others(w2.m, id), {}, p => PublishPeer(p), o)
  }

  /** Take the mesh down on the removed node; one without an endpoint is left as it is. */
  function CleanUp(w: World, id: NodeID, outcome: Outcome): (World, bool)
    requires id in w.m.removals
  {
    if !w.m.removals[id].node.transport then (w, true)
    else if outcome == Refused then (w, false)
    else (w.(machines := w.machines[id := MachineOf(w, id).(mesh := {})]), outcome == Ok)
  }

  function Finish(w: World, use: Use, id: NodeID, o: Oracle): (World, bool) {
    if use == UseSchedulable && id in w.m.nodes then SetDeny(w, id, false, o(LatchOff))
    else if use == UseRemove && id in w.m.removals then
      var (w1, ok) := CleanUp(w, id, o(Cleanup));
      if !ok then (w1, false) else Commit(w1, CompleteRemoval(w1.m, id), o(Complete))
    else (w, true)
  }

  predicate Latches(use: Use) {
    use == UseCordon || use == UseDrain || use == UseRemove
  }

  /** Latch, then change membership. */
  function Change(w: World, use: Use, id: NodeID, o: Oracle): (World, bool) {
    var (w1, ok1) := if Latches(use) && id in w.m.nodes
                     then SetDeny(w, id, true, o(LatchOn)) else (w, true);
    if !ok1 then (w1, false)
    else if use == UseRemove then ResumeRemoval(w1, id, o)
    else Commit(w1, Action(w1.m, use, id), o(Act))
  }

  function RunLifecycle(w: World, use: Use, id: NodeID, o: Oracle): (World, bool) {
    var active := id in w.m.nodes;
    var removing := id in w.m.removals;
    if o(Open) != Ok then (w, false)
    else if use == UseRemove && !active && !removing && id in w.m.tombstones then (w, true)
    else if !active && !(use == UseRemove && removing) then (w, false)
    else if o(AgentStatus) != Ok then (w, false)
    else
      var (w1, ok1) := Change(w, use, id, o);
      if !ok1 then (w1, false)
      else
        var (w2, ok2) := Announce(w1, id, o);
        if !ok2 then (w2, false) else Finish(w2, use, id, o)
  }

  function AdmitStep(w: World, id: NodeID, o: Oracle): (World, bool) {
    if id in w.m.nodes then (w, true) else Commit(w, EnrollWorker(w.m, id), o(EnrollCall))
  }

  function ReadyStep(w: World, id: NodeID, o: Oracle): (World, bool)
    requires id in w.m.nodes
  {
    var (w1, ok) := Publish(w, id, {}, o(PublishTarget));
    if !ok then (w1, false)
    else if w.m.nodes[id].lifecycle == Joining then Commit(w1, MarkReady(w1.m, id), o(ReadyCall))
    else (w1, true)
  }

  function SpreadStep(w: World, o: Oracle): (World, bool) {
    var (w1, ok) := ReconcileController(w, {}, o(ControllerMesh));
    if !ok then (w1, false)
    else PublishEach(w1, SortedNames(w1.m.nodes.Keys - {w1.m.controller}), {}, p => PublishPeer(p), o)
  }

  /** Enrolment resumes for a node already joining or ready with the same identity. */
  function RunEnroll(w: World, id: NodeID, matches: bool, o: Oracle): (World, bool) {
    if o(Open) != Ok || o(Identity) != Ok then (w, false)
    else if id in w.m.nodes && (!matches || w.m.nodes[id].lifecycle !in {Joining, Ready}) then (w, false)
    else
      var (w1, ok1) := AdmitStep(w, id, o);
      if !ok1 || id !in w1.m.nodes then (w1, false)
      else
        var (w2, ok2) := ReadyStep(w1, id, o);
        if !ok2 || o(ReadBack) != Ok then (w2, false) else SpreadStep(w2, o)
  }

  function Run(w: World, c: Command, o: Oracle): (World, bool) {
    match c
    case Lifecycle(use, id) => RunLifecycle(w, use, id, o)
    case Enroll(id, matches) => RunEnroll(w, id, matches, o)
  }

  /** A sequence of commands, each with its own pattern of failures. */
  function RunAll(w: World, script: seq<(Command, Oracle)>): World
    decreases |script|
  {
    if script == [] then w
    else RunAll(Run(w, script[0].0, script[0].1).0, script[1..])
  }

  // ---------------------------------------------------------------- invariant

  predicate Restricted(l: Membership.Lifecycle) {
    l == Cordoned || l == Draining
  }

  /** Holds in every state any sequence of commands can leave, crashes included:
      restricted nodes are latched, and a completed removal has left no peer behind and no
      mesh on its target. */
  ghost predicate Inv(w: World) {
    && Valid(w.m)
    && w.machines.Keys <= w.m.nodes.Keys + w.m.tombstones
    && (forall id :: id in w.m.nodes && id != w.m.controller ==> w.m.nodes[id].transport)
    && (forall id :: id in w.m.nodes && Restricted(w.m.nodes[id].lifecycle) ==> id in w.latched)
    && (forall x, p :: Completed(w.m, x) && p in w.m.nodes ==> x !in Mesh(w, p))
    && (forall id :: id in w.m.removals ==> w.m.removals[id].node.transport)
    && (forall x :: Completed(w.m, x) ==> Mesh(w, x) == {})
  }

  /** A removal is recorded only for a worker, and every worker has an endpoint. */
  lemma RemovalsKeepTransport(w: World, id: NodeID, change: Mutation)
    requires Inv(w) && StoreStep(w.m, id, change) && change.Committed?
    ensures forall n :: n in change.next.removals ==> change.next.removals[n].node.transport
  {
    SoleController(w.m);
    if LifecycleStep(w.m, id, change) { LifecycleStepNext(w.m, id, change); }
  }

  lemma PublishKeeps(w: World, id: NodeID, exclude: set<NodeID>, outcome: Outcome)
    requires Inv(w) && id in w.m.nodes
    ensures Inv(Publish(w, id, exclude, outcome).0)
  {
  }

  lemma ControllerKeeps(w: World, exclude: set<NodeID>, outcome: Outcome)
    requires Inv(w)
    ensures Inv(ReconcileController(w, exclude, outcome).0)
  {
  }

  /** What a publication pass changes and, when it succeeds, what each peer then runs. */
  lemma {:induction false} PublishEachKeeps(w: World, peers: seq<NodeID>, exclude: set<NodeID>, call: NodeID -> Call, o: Oracle)
    requires Inv(w) && Elements(peers) <= w.m.nodes.Keys && Sorted(peers)
    ensures var (w', ok) := PublishEach(w, peers, exclude, call, o);
            && Inv(w') && w'.m == w.m && w'.latched == w.latched
            && (forall n :: n !in peers ==> MachineOf(w', n) == MachineOf(w, n))
            && (ok ==> forall n :: n in peers ==>
                  MachineOf(w', n) == Machine(Topology(w.m, n, exclude), w.m.generation))
    decreases |peers|
  {
    if peers == [] {
    } else {
      assert peers[0] in Elements(peers);
      var (w1, ok) := Publish(w, peers[0], exclude, o(call(peers[0])));
      PublishKeeps(w, peers[0], exclude, o(call(peers[0])));
      TailElements(peers);
      if ok { PublishEachKeeps(w1, peers[1..], exclude, call, o); }
      assert peers == [peers[0]] + peers[1..];
      assert peers[0] !in Elements(peers[1..]);
    }
  }

  /** `w'` is good, and no removal is less advanced in it than in `w`. */
  ghost predicate Advances(w: World, w': World) {
    Inv(w') && forall n :: Progress(w.m, n) <= Progress(w'.m, n)
  }

  lemma CommitKeeps(w: World, id: NodeID, change: Mutation, outcome: Outcome)
    requires Inv(w) && StoreStep(w.m, id, change)
    requires change.Committed? ==> forall n :: n in change.next.nodes && Restricted(change.next.nodes[n].lifecycle) ==> n in w.latched
    requires change.Committed? ==> forall x, p :: Completed(change.next, x) && !Completed(w.m, x) && p in w.m.nodes ==> x !in Mesh(w, p)
    requires change.Committed? ==> forall x :: Completed(change.next, x) && !Completed(w.m, x) ==> Mesh(w, x) == {}
    ensures var (w', ok) := Commit(w, change, outcome);
            && Advances(w, w') && Local(w.m, w'.m, id)
            && w'.latched == w.latched && w'.machines == w.machines
  {
    if change.Committed? {
      StoreStepKeeps(w.m, id, change);
      RemovalsKeepTransport(w, id, change);
      InvFollows(w, id, change.next);
    }
  }

  lemma InvFollows(w: World, id: NodeID, next: State)
    requires Inv(w) && Valid(next) && Local(w.m, next, id) && KeepsMembers(w.m, next)
    requires w.m.tombstones <= next.tombstones
    requires forall n :: n in next.nodes && Restricted(next.nodes[n].lifecycle) ==> n in w.latched
    requires forall x, p :: Completed(next, x) && !Completed(w.m, x) && p in w.m.nodes ==> x !in Mesh(w, p)
    requires forall n :: n in next.removals ==> next.removals[n].node.transport
    requires forall x :: Completed(next, x) && !Completed(w.m, x) ==> Mesh(w, x) == {}
    ensures Inv(w.(m := next))
  {
    var w' := w.(m := next);
    forall x, p | Completed(w'.m, x) && p in w'.m.nodes ensures x !in Mesh(w', p) {
      assert Mesh(w', p) == Mesh(w, p);
      if p !in w.m.nodes { assert p !in w.machines; }
    }
    forall x | Completed(w'.m, x) ensures Mesh(w', x) == {} { assert Mesh(w', x) == Mesh(w, x); }
  }

  lemma RevokeEverywhereKeeps(w: World, id: NodeID, o: Oracle)
    requires Inv(w)
    ensures var (w', ok) := RevokeEverywhere(w, id, o);
            && Inv(w') && w'.m == w.m && w'.latched == w.latched
            && (ok ==> forall p :: p in w.m.nodes && p != id ==> id !in Mesh(w', p))
  {
    ControllerKeeps(w, {id}, o(RevokeController));
    var (w1, ok) := ReconcileController(w, {id}, o(RevokeController));
    PublishEachKeeps(w1, Others(w1.m, id), {id}, p => RevokePeer(p), o);
    forall p | p in w.m.nodes && p != id && p != w.m.controller ensures p in Others(w.m, id) {
      assert p in Elements(Others(w.m, id));
    }
    assert w.m.controller !in Elements(Others(w.m, id));
  }

  lemma PrepareStepKeeps(w: World, id: NodeID, o: Oracle)
    requires Inv(w)
    ensures var w' := PrepareStep(w, id, o).0;
            Advances(w, w') && Local(w.m, w'.m, id) && w'.latched == w.latched
  {
    CommitKeeps(w, id, PrepareRemoval(w.m, id), o(Prepare));
  }

  lemma MarkRevokedKeeps(w: World, id: NodeID, outcome: Outcome)
    requires Inv(w) && id in w.m.removals && w.m.removals[id].phase == RevokePeers
    ensures var (w', ok) := Commit(w, MarkPeersRevoked(w.m, id), outcome);
            && Advances(w, w') && Local(w.m, w'.m, id) && w'.latched == w.latched
            && id in w'.m.removals && (ok ==> Progress(w'.m, id) >= 2)
  {
    CommitKeeps(w, id, MarkPeersRevoked(w.m, id), outcome);
  }

  lemma RevokeStepKeeps(w: World, id: NodeID, o: Oracle)
    requires Inv(w) && id in w.m.removals
    ensures var (w', ok) := RevokeStep(w, id, o);
            && Advances(w, w') && Local(w.m, w'.m, id) && w'.latched == w.latched
            && id in w'.m.removals && (ok ==> Progress(w'.m, id) >= 2)
  {
    if w.m.removals[id].phase == RevokePeers {
      RevokeEverywhereKeeps(w, id, o);
      MarkRevokedKeeps(RevokeEverywhere(w, id, o).0, id, o(MarkRevoked));
    }
  }

  lemma RemoveStepKeeps(w: World, id: NodeID, o: Oracle)
    requires Inv(w) && id in w.m.removals && Progress(w.m, id) >= 2
    ensures var (w', ok) := RemoveStep(w, id, o);
            && Advances(w, w') && Local(w.m, w'.m, id) && w'.latched == w.latched
            && (ok ==> Progress(w'.m, id) == 3 && id !in w'.m.nodes)
  {
    if w.m.removals[id].phase == RemoveMember {
      CommitKeeps(w, id, Remove(w.m, id), o(RemoveCall));
    }
  }

  lemma ResumeRemovalKeeps(w: World, id: NodeID, o: Oracle)
    requires Inv(w)
    ensures var (w', ok) := ResumeRemoval(w, id, o);
            && Advances(w, w') && Local(w.m, w'.m, id) && w'.latched == w.latched
            && (ok ==> Progress(w'.m, id) == 3 && id !in w'.m.nodes)
  {
    PrepareStepKeeps(w, id, o);
    var (w1, ok1) := PrepareStep(w, id, o);
    if ok1 && id in w1.m.removals {
      RevokeStepKeeps(w1, id, o);
      var (w2, ok2) := RevokeStep(w1, id, o);
      if ok2 { RemoveStepKeeps(w2, id, o); }
    }
  }

  /** The target and the controller are told; the rest of the announcement tells the others. */
  ghost predicate Told(w: World, p: NodeID) {
    && Mesh(w, p) == Topology(w.m, p, {})
    && (p != w.m.controller ==> MachineOf(w, p).attested == w.m.generation)
  }

  lemma OthersAreTold(w: World, id: NodeID, o: Oracle)
    requires Inv(w) && Told(w, w.m.controller) && (id in w.m.nodes ==> Told(w, id))
    ensures var (w', ok) := PublishEach(w, Others(w.m, id), {}, p => PublishPeer(p), o);
            Inv(w') && w'.m == w.m && w'.latched == w.latched && (ok ==> Converged(w'))
  {
    PublishEachKeeps(w, Others(w.m, id), {}, p => PublishPeer(p), o);
    var (w', ok) := PublishEach(w, Others(w.m, id), {}, p => PublishPeer(p), o);
    assert id !in Elements(Others(w.m, id)) && w.m.controller !in Elements(Others(w.m, id));
    if ok {
      forall p | p in w.m.nodes ensures Told(w', p) {
        if p != id && p != w.m.controller { assert p in Elements(Others(w.m, id)); }
      }
    }
  }

  lemma ControllerIsTold(w: World, id: NodeID, o: Oracle)
    requires Inv(w) && (id in w.m.nodes && id != w.m.controller ==> Told(w, id))
    ensures var (w', ok) := ReconcileController(w, {}, o(ControllerMesh));
            && Inv(w') && w'.m == w.m && w'.latched == w.latched
            && (ok ==> Told(w', w.m.controller) && (id in w.m.nodes ==> Told(w', id)))
  {
    ControllerKeeps(w, {}, o(ControllerMesh));
  }

  /** A successful announcement leaves every active worker attesting the committed
      generation and every mesh equal to the active membership. */
  lemma AnnounceKeeps(w: World, id: NodeID, o: Oracle)
    requires Inv(w)
    ensures var (w', ok) := Announce(w, id, o);
            && Inv(w') && w'.m == w.m && w'.latched == w.latched
            && (ok ==> Converged(w'))
  {
    var target := id in w.m.nodes && id != w.m.controller;
    if target { PublishKeeps(w, id, {}, o(PublishTarget)); }
    var (w1, ok1) := if target then Publish(w, id, {}, o(PublishTarget)) else (w, true);
    if ok1 {
      ControllerIsTold(w1, id, o);
      var (w2, ok2) := ReconcileController(w1, {}, o(ControllerMesh));
      if ok2 { OthersAreTold(w2, id, o); }
    }
  }

  ghost predicate Converged(w: World) {
    forall p :: p in w.m.nodes ==> Told(w, p)
  }

  lemma CleanUpKeeps(w: World, id: NodeID, outcome: Outcome)
    requires Inv(w) && id in w.m.removals
    ensures var (w', ok) := CleanUp(w, id, outcome);
            && Inv(w') && w'.m == w.m && w'.latched == w.latched
            && (ok ==> Mesh(w', id) == {}) && (forall n :: n != id ==> Mesh(w', n) == Mesh(w, n))
  {
  }

  lemma CompleteKeeps(w: World, id: NodeID, outcome: Outcome)
    requires Inv(w) && Mesh(w, id) == {} && forall p :: p in w.m.nodes && p != id ==> id !in Mesh(w, p)
    ensures Advances(w, Commit(w, CompleteRemoval(w.m, id), outcome).0)
  {
    var change := CompleteRemoval(w.m, id);
    if change.Committed? {
      assert forall x :: Completed(change.next, x) && !Completed(w.m, x) ==> x == id;
    }
    CommitKeeps(w, id, change, outcome);
  }

  lemma FinishKeeps(w: World, use: Use, id: NodeID, o: Oracle)
    requires Inv(w) && Converged(w)
    requires use == UseSchedulable && id in w.m.nodes ==> w.m.nodes[id].lifecycle == Schedulable
    ensures Advances(w, Finish(w, use, id, o).0)
  {
    if use == UseRemove && id in w.m.removals {
      CleanUpKeeps(w, id, o(Cleanup));
      var (w1, ok) := CleanUp(w, id, o(Cleanup));
      if ok && id !in w.m.nodes {
        forall p | p in w.m.nodes && p != id ensures id !in Mesh(w1, p) { assert Told(w, p); }
        CompleteKeeps(w1, id, o(Complete));
      }
    }
  }

  lemma ActionKeeps(w: World, use: Use, id: NodeID, o: Oracle)
    requires Inv(w) && use != UseRemove && id in w.m.nodes && (Latches(use) ==> id in w.latched)
    ensures var (w', ok) := Commit(w, Action(w.m, use, id), o(Act));
            && Advances(w, w') && Local(w.m, w'.m, id) && w'.latched == w.latched
            && (ok && use == UseSchedulable ==> id in w'.m.nodes && w'.m.nodes[id].lifecycle == Schedulable)
  {
    CommitKeeps(w, id, Action(w.m, use, id), o(Act));
  }

  lemma LatchKeeps(w: World, id: NodeID, outcome: Outcome)
    requires Inv(w) && id in w.m.nodes
    ensures var (w', ok) := SetDeny(w, id, true, outcome);
            Inv(w') && w'.m == w.m && w.latched <= w'.latched && (ok ==> id in w'.latched)
  {
  }

  lemma ChangeKeeps(w: World, use: Use, id: NodeID, o: Oracle)
    requires Inv(w)
    requires id in w.m.nodes || use == UseRemove
    ensures var (w', ok) := Change(w, use, id, o);
            && Advances(w, w') && Local(w.m, w'.m, id)
            && (ok && use == UseSchedulable ==> id in w'.m.nodes && w'.m.nodes[id].lifecycle == Schedulable)
            && (ok && use == UseRemove ==> Progress(w'.m, id) == 3 && id !in w'.m.nodes)
            && w.latched <= w'.latched
  {
    if id in w.m.nodes { LatchKeeps(w, id, o(LatchOn)); }
    var (w1, ok1) := if Latches(use) && id in w.m.nodes
                     then SetDeny(w, id, true, o(LatchOn)) else (w, true);
    if ok1 {
      if use == UseRemove {
        ResumeRemovalKeeps(w1, id, o);
      } else {
        ActionKeeps(w1, use, id, o);
      }
    }
  }

  lemma RunLifecycleKeeps(w: World, use: Use, id: NodeID, o: Oracle)
    requires Inv(w)
    ensures Advances(w, RunLifecycle(w, use, id, o).0)
  {
    if id in w.m.nodes || use == UseRemove {
      ChangeKeeps(w, use, id, o);
      var (w1, ok1) := Change(w, use, id, o);
      if ok1 { TailKeeps(w1, use, id, o); }
    }
  }

  lemma TailKeeps(w: World, use: Use, id: NodeID, o: Oracle)
    requires Inv(w)
    requires use == UseSchedulable && id in w.m.nodes ==> w.m.nodes[id].lifecycle == Schedulable
    ensures var (w2, ok2) := Announce(w, id, o);
            Advances(w, if ok2 then Finish(w2, use, id, o).0 else w2)
  {
    AnnounceKeeps(w, id, o);
    var (w2, ok2) := Announce(w, id, o);
    if ok2 { FinishKeeps(w2, use, id, o); }
  }

  lemma ReadyStepKeeps(w: World, id: NodeID, o: Oracle)
    requires Inv(w) && id in w.m.nodes
    ensures var w' := ReadyStep(w, id, o).0; Advances(w, w') && w'.latched == w.latched
  {
    PublishKeeps(w, id, {}, o(PublishTarget));
    var (w1, _) := Publish(w, id, {}, o(PublishTarget));
    CommitKeeps(w1, id, MarkReady(w1.m, id), o(ReadyCall));
  }

  lemma SpreadStepKeeps(w: World, o: Oracle)
    requires Inv(w)
    ensures var w' := SpreadStep(w, o).0; Advances(w, w') && w'.latched == w.latched
  {
    ControllerKeeps(w, {}, o(ControllerMesh));
    var (w1, _) := ReconcileController(w, {}, o(ControllerMesh));
    PublishEachKeeps(w1, SortedNames(w1.m.nodes.Keys - {w1.m.controller}), {}, p => PublishPeer(p), o);
  }

  lemma AdmitStepKeeps(w: World, id: NodeID, o: Oracle)
    requires Inv(w)
    ensures var w' := AdmitStep(w, id, o).0; Advances(w, w') && w'.latched == w.latched
  {
    CommitKeeps(w, id, EnrollWorker(w.m, id), o(EnrollCall));
  }

  lemma RunEnrollKeeps(w: World, id: NodeID, matches: bool, o: Oracle)
    requires Inv(w)
    ensures var w' := RunEnroll(w, id, matches, o).0; Advances(w, w') && w'.latched == w.latched
  {
    AdmitStepKeeps(w, id, o);
    var (w1, ok1) := AdmitStep(w, id, o);
    if ok1 && id in w1.m.nodes {
      ReadyStepKeeps(w1, id, o);
      SpreadStepKeeps(ReadyStep(w1, id, o).0, o);
    }
  }

  // ---------------------------------------------------------------- main results

  /** A new cluster: the controller alone. */
  function Boot(controller: NodeID): World {
    World(State(1, controller, map[controller := Member(Schedulable, true, false)], {}, map[]), {}, map[])
  }

  /** Whatever fails in each of any sequence of commands, the invariant holds
      afterwards and no removal has moved backwards. */
  lemma {:induction false} EveryRunAdvances(w: World, script: seq<(Command, Oracle)>)
    requires Inv(w)
    ensures Advances(w, RunAll(w, script))
    decreases |script|
  {
    if script == [] {
    } else {
      var c, o := script[0].0, script[0].1;
      match c {
        case Lifecycle(use, id) => RunLifecycleKeeps(w, use, id, o);
        case Enroll(id, matches) => RunEnrollKeeps(w, id, matches, o);
      }
      EveryRunAdvances(Run(w, c, o).0, script[1..]);
    }
  }

  /** Safety over whole histories of a cluster. */
  lemma ReachableIsSafe(controller: NodeID, script: seq<(Command, Oracle)>, x: NodeID, p: NodeID)
    ensures var w := RunAll(Boot(controller), script);
            && (Completed(w.m, x) && p in w.m.nodes ==> x !in Mesh(w, p))
            && (Completed(w.m, x) ==> Mesh(w, x) == {})
            && (p in w.m.nodes && Restricted(w.m.nodes[p].lifecycle) ==> p in w.latched)
            && (p in w.m.removals && p in w.m.nodes ==> p in w.latched)
  {
    assert Controllers(Boot(controller).m) == {controller};
    assert Inv(Boot(controller));
    EveryRunAdvances(Boot(controller), script);
  }

  ghost predicate FailureFree(o: Oracle) {
    forall c :: o(c) == Ok
  }

  lemma {:induction false} PublishEachSucceeds(w: World, peers: seq<NodeID>, exclude: set<NodeID>, call: NodeID -> Call, o: Oracle)
    requires Inv(w) && Sorted(peers) && forall p :: o(call(p)) == Ok
    requires Elements(peers) <= w.m.nodes.Keys - {w.m.controller} - exclude
    requires exclude <= w.m.nodes.Keys
    ensures PublishEach(w, peers, exclude, call, o).1
    decreases |peers|
  {
    if peers == [] {
    } else {
      assert peers[0] in Elements(peers);
      PublishKeeps(w, peers[0], exclude, Ok);
      TailElements(peers);
      PublishEachSucceeds(Publish(w, peers[0], exclude, Ok).0, peers[1..], exclude, call, o);
    }
  }

  lemma RevokeSucceeds(w: World, id: NodeID, o: Oracle)
    requires Inv(w) && id in w.m.removals
    requires o(RevokeController) == Ok && o(MarkRevoked) == Ok && forall p :: o(RevokePeer(p)) == Ok
    ensures RevokeStep(w, id, o).1
  {
    if w.m.removals[id].phase == RevokePeers {
      ControllerKeeps(w, {id}, Ok);
      var (v, _) := ReconcileController(w, {id}, Ok);
      PublishEachSucceeds(v, Others(v.m, id), {id}, p => RevokePeer(p), o);
      RevokeEverywhereKeeps(w, id, o);
    }
  }

  lemma RemoveSucceeds(w: World, id: NodeID, o: Oracle)
    requires Inv(w) && FailureFree(o) && id in w.m.removals
    ensures RemoveStep(w, id, o).1
  {
    SoleController(w.m);
  }

  lemma ResumeSucceeds(w: World, id: NodeID, o: Oracle)
    requires Inv(w) && FailureFree(o)
    requires id in w.m.removals || (id in w.m.nodes && w.m.nodes[id].lifecycle == Draining)
    ensures ResumeRemoval(w, id, o).1
  {
    SoleController(w.m);
    PrepareStepKeeps(w, id, o);
    var (w1, ok1) := PrepareStep(w, id, o);
    assert ok1 && id in w1.m.removals;
    RevokeSucceeds(w1, id, o);
    RevokeStepKeeps(w1, id, o);
    RemoveSucceeds(RevokeStep(w1, id, o).0, id, o);
  }

  lemma AnnounceSucceeds(w: World, id: NodeID, o: Oracle)
    requires Inv(w) && FailureFree(o)
    ensures Announce(w, id, o).1
  {
    var target := id in w.m.nodes && id != w.m.controller;
    if target { PublishKeeps(w, id, {}, Ok); }
    var (w1, _) := if target then Publish(w, id, {}, Ok) else (w, true);
    ControllerKeeps(w1, {}, Ok);
    var (w2, _) := ReconcileController(w1, {}, Ok);
    PublishEachSucceeds(w2, Others(w2.m, id), {}, p => PublishPeer(p), o);
  }

  /** From any reachable point of a removal, one run without failures finishes it and
      leaves every other node's membership alone. */
  lemma FailureFreeRunFinishesRemoval(w: World, id: NodeID, o: Oracle)
    requires Inv(w) && FailureFree(o)
    requires id in w.m.removals || (id in w.m.nodes && w.m.nodes[id].lifecycle == Draining)
    ensures var (w', ok) := RunLifecycle(w, UseRemove, id, o);
            && ok && Completed(w'.m, id) && id !in w'.m.nodes
            && Local(w.m, w'.m, id)
            && forall p :: p in w'.m.nodes ==> Mesh(w', p) == w'.m.nodes.Keys - {p}
  {
    ChangeSucceeds(w, id, o);
    ChangeKeeps(w, UseRemove, id, o);
    var (w1, _) := Change(w, UseRemove, id, o);
    AnnounceSucceeds(w1, id, o);
    AnnounceKeeps(w1, id, o);
    FinishSucceeds(Announce(w1, id, o).0, id, o);
  }

  lemma ChangeSucceeds(w: World, id: NodeID, o: Oracle)
    requires Inv(w) && FailureFree(o)
    requires id in w.m.removals || (id in w.m.nodes && w.m.nodes[id].lifecycle == Draining)
    ensures Change(w, UseRemove, id, o).1
  {
    var (w0, _) := if id in w.m.nodes then SetDeny(w, id, true, Ok) else (w, true);
    assert Inv(w0);
    ResumeSucceeds(w0, id, o);
  }

  lemma FinishSucceeds(w: World, id: NodeID, o: Oracle)
    requires Inv(w) && FailureFree(o) && Converged(w)
    requires Progress(w.m, id) == 3 && id !in w.m.nodes
    ensures var (w', ok) := Finish(w, UseRemove, id, o);
            && ok && Completed(w'.m, id) && id !in w'.m.nodes
            && Local(w.m, w'.m, id)
            && forall p :: p in w'.m.nodes ==> Mesh(w', p) == w'.m.nodes.Keys - {p}
  {
    StoreStepKeeps(w.m, id, CompleteRemoval(w.m, id));
  }

  /** A deny latch disappears only when its node was just made schedulable and every
      active worker, the target included, has attested exactly that membership. */
  lemma LatchClearedOnlyWhenAttested(w: World, c: Command, o: Oracle, id: NodeID)
    requires Inv(w) && id in w.latched && id !in Run(w, c, o).0.latched
    ensures var w' := Run(w, c, o).0;
            && c == Lifecycle(UseSchedulable, id)
            && id in w'.m.nodes && w'.m.nodes[id].lifecycle == Schedulable
            && Converged(w')
  {
    match c {
      case Lifecycle(use, target) => LifecycleLatches(w, use, target, o);
      case Enroll(worker, matches) => RunEnrollKeeps(w, worker, matches, o);
    }
  }

  /** What happened to the latches between two worlds. */
  ghost predicate LatchesFollow(w: World, w': World, use: Use, id: NodeID) {
    || w.latched <= w'.latched
    || (&& use == UseSchedulable && w.latched - {id} <= w'.latched
        && id in w'.m.nodes && w'.m.nodes[id].lifecycle == Schedulable
        && Converged(w'))
  }

  lemma LifecycleLatches(w: World, use: Use, target: NodeID, o: Oracle)
    requires Inv(w)
    ensures LatchesFollow(w, RunLifecycle(w, use, target, o).0, use, target)
  {
    if target in w.m.nodes || use == UseRemove {
      ChangeKeeps(w, use, target, o);
      var (w1, ok1) := Change(w, use, target, o);
      if ok1 { TailLatches(w1, use, target, o); }
    }
  }

  lemma TailLatches(w: World, use: Use, id: NodeID, o: Oracle)
    requires Inv(w)
    requires use == UseSchedulable ==> id in w.m.nodes && w.m.nodes[id].lifecycle == Schedulable
    ensures var (w2, ok2) := Announce(w, id, o);
            LatchesFollow(w, if ok2 then Finish(w2, use, id, o).0 else w2, use, id)
  {
    AnnounceKeeps(w, id, o);
    var (w2, ok2) := Announce(w, id, o);
    if ok2 { FinishLatches(w2, use, id, o); }
  }

  lemma FinishLatches(w: World, use: Use, id: NodeID, o: Oracle)
    requires Converged(w)
    ensures var w' := Finish(w, use, id, o).0;
            || w.latched <= w'.latched
            || (&& use == UseSchedulable && w.latched - {id} <= w'.latched && id in w.m.nodes
                && w'.m == w.m && w'.machines == w.machines && Converged(w'))
  {
    if use == UseSchedulable && id in w.m.nodes {
      var w' := Finish(w, use, id, o).0;
      assert forall p :: MachineOf(w', p) == MachineOf(w, p);
    }
  }

  /** After any lifecycle command that reports success, a machine's mesh is exactly the
      other active members. */
  lemma SuccessMeansExactMesh(w: World, use: Use, id: NodeID, o: Oracle, p: NodeID)
    requires Inv(w) && (id in w.m.nodes || (use == UseRemove && id in w.m.removals))
    ensures var (w', ok) := RunLifecycle(w, use, id, o);
            ok && p in w'.m.nodes ==> Mesh(w', p) == w'.m.nodes.Keys - {p}
  {
    ChangeKeeps(w, use, id, o);
    var (w1, ok1) := Change(w, use, id, o);
    if ok1 { TailMesh(w1, use, id, o, p); }
  }

  lemma TailMesh(w: World, use: Use, id: NodeID, o: Oracle, p: NodeID)
    requires Inv(w) && (use == UseRemove ==> id !in w.m.nodes)
    ensures var (w2, ok2) := Announce(w, id, o);
            var w' := Finish(w2, use, id, o).0;
            ok2 && p in w'.m.nodes ==> Mesh(w', p) == w'.m.nodes.Keys - {p}
  {
    AnnounceKeeps(w, id, o);
    var (w2, ok2) := Announce(w, id, o);
    if ok2 { FinishMesh(w2, use, id, o, p); }
  }

  lemma FinishMesh(w: World, use: Use, id: NodeID, o: Oracle, p: NodeID)
    requires Converged(w)
    requires use == UseRemove ==> id !in w.m.nodes
    ensures var w' := Finish(w, use, id, o).0;
            p in w'.m.nodes ==> Mesh(w', p) == w'.m.nodes.Keys - {p}
  {
    FinishKeepsMembers(w, use, id, o);
    if p in w.m.nodes { FinishKeepsMachine(w, use, id, o, p); }
  }

  lemma FinishKeepsMachine(w: World, use: Use, id: NodeID, o: Oracle, p: NodeID)
    requires use == UseRemove ==> p != id
    ensures MachineOf(Finish(w, use, id, o).0, p) == MachineOf(w, p)
  {
  }

  lemma FinishKeepsMembers(w: World, use: Use, id: NodeID, o: Oracle)
    ensures Finish(w, use, id, o).0.m.nodes == w.m.nodes
  {
  }
}
