/** The controller as an object: the membership file, the latches and the machines it
    changes in place, one external call after another. Each method is proved against
    the specification in `Lifecycle`, whose results therefore hold of the object. */
module Controller {
  import opened Membership
  import opened Lifecycle
  import opened Names

  class Platform {
    var m: State
    var latched: set<NodeID>
    var machines: map<NodeID, Machine>

    constructor (controller: NodeID)
      ensures View() == Boot(controller) && Inv(View())
    {
      m := State(1, controller, map[controller := Member(Schedulable, true, false)], {}, map[]);
      latched := {};
      machines := map[];
      new;
      assert Controllers(m) == {controller};
    }

    ghost function View(): World
      reads this
    {
      World(m, latched, machines)
    }

    method Store(change: Mutation, outcome: Outcome) returns (ok: bool)
      modifies this`m
      ensures (View(), ok) == Commit(old(View()), change, outcome)
      ensures m != old(m) ==> change.Committed? && m == change.next && outcome != Refused
      ensures ok ==> !change.Rejected? && (change.Committed? ==> m == change.next)
    {
      match change
      case Rejected => ok := false;
      case Unchanged => ok := outcome == Ok;
      case Committed(next) =>
        if outcome != Refused { m := next; }
        ok := outcome == Ok;
    }

    method SetLatch(id: NodeID, denied: bool, outcome: Outcome) returns (ok: bool)
      requires id in m.nodes
      modifies this`latched
      ensures (View(), ok) == SetDeny(old(View()), id, denied, outcome)
      ensures ok ==> (id in latched <==> denied)
      ensures forall n :: n != id ==> (n in latched <==> n in old(latched))
    {
      if id != m.controller && !m.nodes[id].transport { return false; }
      if outcome == Refused { return false; }
      latched := if denied then latched + {id} else latched - {id};
      ok := outcome == Ok;
    }

    method PublishTo(id: NodeID, exclude: set<NodeID>, outcome: Outcome) returns (ok: bool)
      requires id in m.nodes
      modifies this`machines
      ensures (View(), ok) == Publish(old(View()), id, exclude, outcome)
      ensures ok ==> Mesh(View(), id) == m.nodes.Keys - {id} - exclude && MachineOf(View(), id).attested == m.generation
      ensures forall n :: n != id ==> MachineOf(View(), n) == MachineOf(old(View()), n)
    {
      if !m.nodes[id].transport || !TopologyAccepted(m, id, exclude) || outcome == Refused { return false; }
      var before := if id in machines then machines[id] else Machine({}, 0);
      var attested := if outcome == Ok then m.generation else before.attested;
      machines := machines[id := Machine(Topology(m, id, exclude), attested)];
      ok := outcome == Ok;
    }

    method ReconcileLocal(exclude: set<NodeID>, outcome: Outcome) returns (ok: bool)
      modifies this`machines
      ensures (View(), ok) == ReconcileController(old(View()), exclude, outcome)
      ensures ok ==> Mesh(View(), m.controller) == m.nodes.Keys - {m.controller} - exclude
      ensures forall n :: n != m.controller ==> MachineOf(View(), n) == MachineOf(old(View()), n)
    {
      var c := m.controller;
      if !TopologyAccepted(m, c, exclude) || outcome == Refused { return false; }
      var before := if c in machines then machines[c] else Machine({}, 0);
      machines := machines[c := before.(mesh := Topology(m, c, exclude))];
      ok := outcome == Ok;
    }

    /** The loop over the membership: the first failure ends it. */
    method PublishToEach(peers: seq<NodeID>, exclude: set<NodeID>, call: NodeID -> Call, o: Oracle) returns (ok: bool)
      requires Elements(peers) <= m.nodes.Keys
      modifies this`machines
      ensures (View(), ok) == PublishEach(old(View()), peers, exclude, call, o)
    {
      var i := 0;
      while i < |peers|
        invariant 0 <= i <= |peers|
        invariant Elements(peers[i..]) <= m.nodes.Keys
        invariant PublishEach(old(View()), peers, exclude, call, o) == PublishEach(View(), peers[i..], exclude, call, o)
      {
        var rest := peers[i..];
        assert rest[0] in Elements(rest) && rest[1..] == peers[i + 1..];
        assert forall x :: x in peers[i + 1..] ==> x in rest;
        var sent := PublishTo(peers[i], exclude, o(call(peers[i])));
        if !sent { return false; }
        i := i + 1;
      }
      ok := true;
    }

    method RevokeMeshPeerEverywhere(id: NodeID, o: Oracle) returns (ok: bool)
      modifies this`machines
      ensures (View(), ok) == RevokeEverywhere(old(View()), id, o)
    {
      ok := ReconcileLocal({id}, o(RevokeController));
      if ok {
        ok := PublishToEach(Others(m, id), {id}, p => RevokePeer(p), o);
      }
    }

    method ResumeNodeRemoval(id: NodeID, o: Oracle) returns (ok: bool)
      modifies this`m, this`machines
      ensures (View(), ok) == ResumeRemoval(old(View()), id, o)
    {
      if id !in m.removals {
        ok := Store(PrepareRemoval(m, id), o(Prepare));
        if !ok || o(Reread) != Ok { return false; }
      }
      if id !in m.removals { return false; }
      if m.removals[id].phase == RevokePeers {
        ok := RevokeMeshPeerEverywhere(id, o);
        if !ok { return; }
        ok := Store(MarkPeersRevoked(m, id), o(MarkRevoked));
        if !ok { return; }
      }
      ok := true;
      if id in m.removals && m.removals[id].phase == RemoveMember {
        ok := Store(Remove(m, id), o(RemoveCall));
      }
    }

    method PublishLifecycle(id: NodeID, o: Oracle) returns (ok: bool)
      modifies this`machines
      ensures (View(), ok) == Announce(old(View()), id, o)
    {
      if o(Reconcile) != Ok || o(ReadBack) != Ok { return false; }
      if id in m.nodes && id != m.controller {
        ok := PublishTo(id, {}, o(PublishTarget));
        if !ok { return; }
      }
      ok := ReconcileLocal({}, o(ControllerMesh));
      if ok {
        ok := PublishToEach(Others(m, id), {}, p => PublishPeer(p), o);
      }
    }

    method FinishCommand(use: Use, id: NodeID, o: Oracle) returns (ok: bool)
      modifies this
      ensures (View(), ok) == Finish(old(View()), use, id, o)
      ensures m.nodes == old(m.nodes) && (ok && use == UseRemove ==> id !in m.removals)
      ensures ok && use == UseSchedulable && id in m.nodes ==> id !in latched
    {
      ok := true;
      if use == UseSchedulable {
        if id in m.nodes { ok := SetLatch(id, false, o(LatchOff)); }
      } else if use == UseRemove && id in m.removals {
        if m.removals[id].node.transport {
          if o(Cleanup) != Refused {
            var before := if id in machines then machines[id] else Machine({}, 0);
            machines := machines[id := before.(mesh := {})];
          }
          if o(Cleanup) != Ok { return false; }
        }
        ok := Store(CompleteRemoval(m, id), o(Complete));
      }
    }

    /** One lifecycle command, ending early at the first failure. Whatever fails, the
        invariant is kept and no removal moves backwards. */
    method LifecycleCommand(use: Use, id: NodeID, o: Oracle) returns (ok: bool)
      requires Inv(View())
      modifies this
      ensures (View(), ok) == RunLifecycle(old(View()), use, id, o)
      ensures Advances(old(View()), View())
    {
      ghost var before := View();
      RunLifecycleKeeps(before, use, id, o);
      var active, removing := id in m.nodes, id in m.removals;
      if o(Open) != Ok { return false; }
      if use == UseRemove && !active && !removing && id in m.tombstones { return true; }
      if !active && !(use == UseRemove && removing) { return false; }
      if o(AgentStatus) != Ok { return false; }
      if Latches(use) && active {
        ok := SetLatch(id, true, o(LatchOn));
        if !ok { return; }
      }
      if use == UseRemove {
        ok := ResumeNodeRemoval(id, o);
      } else {
        ok := Store(Action(m, use, id), o(Act));
      }
      assert (View(), ok) == Change(before, use, id, o);
      if !ok { return; }
      ok := PublishLifecycle(id, o);
      if !ok { return; }
      ok := FinishCommand(use, id, o);
    }

    method EnrollWorkerCommand(id: NodeID, matches: bool, o: Oracle) returns (ok: bool)
      requires Inv(View())
      modifies this
      ensures (View(), ok) == RunEnroll(old(View()), id, matches, o)
      ensures Advances(old(View()), View())
    {
      RunEnrollKeeps(View(), id, matches, o);
      if o(Open) != Ok || o(Identity) != Ok { return false; }
      if id in m.nodes {
        if !matches || m.nodes[id].lifecycle !in {Joining, Ready} { return false; }
      } else {
        ok := Store(EnrollWorker(m, id), o(EnrollCall));
        if !ok { return; }
      }
      if id !in m.nodes { return false; }
      var joining := m.nodes[id].lifecycle == Joining;
      ok := PublishTo(id, {}, o(PublishTarget));
      if !ok { return; }
      if joining {
        ok := Store(MarkReady(m, id), o(ReadyCall));
        if !ok { return; }
      }
      if o(ReadBack) != Ok { return false; }
      ok := ReconcileLocal({}, o(ControllerMesh));
      if ok {
        ok := PublishToEach(SortedNames(m.nodes.Keys - {m.controller}), {}, p => PublishPeer(p), o);
      }
    }
  }
}
