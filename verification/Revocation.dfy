/** How long a revocation lasts. Between revoking a node's peers and removing the member, the
    node is out of every mesh but still in the inventory. */
module Revocation {
  import opened Lifecycle
  import opened Membership
  import opened Names

  /** No other active node has `x` among its mesh peers. */
  ghost predicate NoPeerHas(w: World, x: NodeID) {
    forall p :: p in w.m.nodes && p != x ==> x !in Mesh(w, p)
  }

  /** The removal of `x` is begun and has not removed the member yet. */
  predicate UnderRemoval(s: State, x: NodeID) {
    1 <= Progress(s, x) <= 2
  }

  /** The command ends before it publishes anything, as the membership file alone decides. */
  predicate TurnedAway(s: State, c: Command) {
    match c
    case Lifecycle(use, id) =>
      if id !in s.nodes then use != UseRemove || id !in s.removals
      else if use == UseRemove then PrepareRemoval(s, id).Rejected?
      else Action(s, use, id).Rejected?
    case Enroll(id, matches) =>
      if id in s.nodes then !matches || s.nodes[id].lifecycle !in {Joining, Ready}
      else EnrollWorker(s, id).Rejected?
  }

  lemma TurnedAwayKeepsMeshes(w: World, c: Command, o: Oracle)
    requires TurnedAway(w.m, c)
    ensures Run(w, c, o).0.m == w.m && Run(w, c, o).0.machines == w.machines
  {
  }

  // ---------------------------------------------------------------- the removal itself

  /** A publication of an inventory without `x`, or one that excludes it, gives `x` to nobody. */
  lemma {:induction false} PublishEachKeepsOut(w: World, peers: seq<NodeID>, exclude: set<NodeID>, call: NodeID -> Call, o: Oracle, x: NodeID)
    requires Elements(peers) <= w.m.nodes.Keys && (x !in w.m.nodes || x in exclude) && NoPeerHas(w, x)
    ensures var w' := PublishEach(w, peers, exclude, call, o).0; w'.m == w.m && NoPeerHas(w', x)
    decreases |peers|
  {
    if peers == [] {
    } else {
      assert peers[0] in Elements(peers);
      assert Elements(peers[1..]) <= Elements(peers);
      var (w1, ok) := Publish(w, peers[0], exclude, o(call(peers[0])));
      assert NoPeerHas(w1, x);
      if ok { PublishEachKeepsOut(w1, peers[1..], exclude, call, o, x); }
    }
  }

  lemma AnnounceKeepsOut(w: World, id: NodeID, o: Oracle, x: NodeID)
    requires x !in w.m.nodes && NoPeerHas(w, x) && w.m.controller in w.m.nodes
    ensures var w' := Announce(w, id, o).0; w'.m == w.m && NoPeerHas(w', x)
  {
    if o(Reconcile) == Ok && o(ReadBack) == Ok {
      var (w1, ok1) := if id in w.m.nodes && id != w.m.controller
                       then Publish(w, id, {}, o(PublishTarget)) else (w, true);
      assert NoPeerHas(w1, x);
      if ok1 {
        var (w2, ok2) := ReconcileController(w1, {}, o(ControllerMesh));
        assert NoPeerHas(w2, x);
        if ok2 { PublishEachKeepsOut(w2, Others(w2.m, id), {}, p => PublishPeer(p), o, x); }
      }
    }
  }

  lemma FinishKeepsOut(w: World, x: NodeID, o: Oracle)
    requires NoPeerHas(w, x)
    ensures NoPeerHas(Finish(w, UseRemove, x, o).0, x)
  {
    FinishKeepsMembers(w, UseRemove, x, o);
    forall p | p in w.m.nodes && p != x ensures x !in Mesh(Finish(w, UseRemove, x, o).0, p) {
      FinishKeepsMachine(w, UseRemove, x, o, p);
    }
  }

  lemma RevokeKeepsOut(w: World, x: NodeID, o: Oracle)
    requires NoPeerHas(w, x)
    ensures var w' := RevokeEverywhere(w, x, o).0; w'.m == w.m && NoPeerHas(w', x)
  {
    var (w1, ok) := ReconcileController(w, {x}, o(RevokeController));
    assert NoPeerHas(w1, x);
    if ok { PublishEachKeepsOut(w1, Others(w1.m, x), {x}, p => RevokePeer(p), o, x); }
  }

  lemma RevokeStepKeepsOut(w: World, x: NodeID, o: Oracle)
    requires Inv(w) && UnderRemoval(w.m, x) && NoPeerHas(w, x)
    ensures var (w', ok) := RevokeStep(w, x, o);
            && NoPeerHas(w', x) && w'.m.nodes == w.m.nodes && w'.m.tombstones == w.m.tombstones
            && w'.m.controller == w.m.controller && (ok ==> Progress(w'.m, x) == 2)
  {
    RevokeKeepsOut(w, x, o);
  }

  lemma RemoveStepKeepsOut(w: World, x: NodeID, o: Oracle)
    requires Progress(w.m, x) == 2 && NoPeerHas(w, x) && x !in w.m.tombstones
    ensures var (w', ok) := RemoveStep(w, x, o);
            NoPeerHas(w', x) && w'.m.controller == w.m.controller && (ok ==> x !in w'.m.nodes)
            && (forall n :: n in w.m.nodes && n != x ==> n in w'.m.nodes)
  {
  }

  /** What the latch and the membership change of the removal leave. */
  lemma RemovalChanges(w: World, x: NodeID, o: Oracle)
    requires Inv(w) && UnderRemoval(w.m, x) && NoPeerHas(w, x)
    ensures var (w1, ok) := Change(w, UseRemove, x, o);
            && NoPeerHas(w1, x) && w1.m.controller == w.m.controller && w1.m.controller in w1.m.nodes
            && (ok ==> x !in w1.m.nodes)
  {
    var (w0, ok0) := SetDeny(w, x, true, o(LatchOn));
    assert NoPeerHas(w0, x) && Inv(w0) && w0.m == w.m;
    if ok0 { ResumeKeepsOut(w0, x, o); }
  }

  lemma ResumeKeepsOut(w: World, x: NodeID, o: Oracle)
    requires Inv(w) && UnderRemoval(w.m, x) && NoPeerHas(w, x)
    ensures var (w1, ok) := ResumeRemoval(w, x, o);
            && NoPeerHas(w1, x) && w1.m.controller == w.m.controller && w1.m.controller in w1.m.nodes
            && (ok ==> x !in w1.m.nodes)
  {
    RevokeStepKeepsOut(w, x, o);
    var (w2, ok2) := RevokeStep(w, x, o);
    assert PrepareStep(w, x, o) == (w, true);
    if ok2 { RemoveStepKeepsOut(w2, x, o); }
  }

  /** Whatever fails in it, the removal of `x` itself keeps `x` out of every mesh. */
  lemma RemovalKeepsOut(w: World, x: NodeID, o: Oracle)
    requires Inv(w) && UnderRemoval(w.m, x) && NoPeerHas(w, x)
    ensures NoPeerHas(RunLifecycle(w, UseRemove, x, o).0, x)
  {
    RemovalChanges(w, x, o);
    var (w1, ok1) := Change(w, UseRemove, x, o);
    if ok1 {
      AnnounceKeepsOut(w1, x, o, x);
      FinishKeepsOut(Announce(w1, x, o).0, x, o);
    }
  }

  // ---------------------------------------------------------------- every other command

  /** Without failures, a command that is not turned away gets through its change of the
      membership, and leaves every other member in place. */
  lemma ChangeGoesThrough(w: World, use: Use, id: NodeID, o: Oracle)
    requires Inv(w) && FailureFree(o) && !TurnedAway(w.m, Command.Lifecycle(use, id))
    ensures var (w1, ok) := Change(w, use, id, o);
            && ok && Inv(w1) && Local(w.m, w1.m, id)
            && (use != UseRemove ==> w1.m == Stored(Action(w.m, use, id), w.m))
            && (use == UseRemove ==> id !in w1.m.nodes)
  {
    ChangeKeeps(w, use, id, o);
    if use == UseRemove { ChangeSucceeds(w, id, o); }
  }

  /** The file a mutation leaves. */
  function Stored(change: Mutation, s: State): State {
    if change.Committed? then change.next else s
  }

  /** Without failures the announcement that follows gives the controller every member. */
  lemma AnnouncedToController(w: World, use: Use, id: NodeID, o: Oracle, x: NodeID)
    requires Inv(w) && FailureFree(o) && x in w.m.nodes && x != w.m.controller
    requires use == UseRemove ==> id !in w.m.nodes
    ensures var (w2, ok) := Announce(w, id, o);
            var w' := Finish(w2, use, id, o).0;
            ok && w'.m.nodes == w.m.nodes && x in Mesh(w', w.m.controller)
  {
    AnnounceSucceeds(w, id, o);
    AnnounceKeeps(w, id, o);
    var w2 := Announce(w, id, o).0;
    FinishKeepsMembers(w2, use, id, o);
    FinishKeepsMachine(w2, use, id, o, w.m.controller);
  }

  lemma LifecycleGivesBack(w: World, use: Use, id: NodeID, o: Oracle, x: NodeID)
    requires Inv(w) && UnderRemoval(w.m, x) && FailureFree(o)
    requires !(use == UseRemove && id == x) && !TurnedAway(w.m, Command.Lifecycle(use, id))
    ensures var w' := RunLifecycle(w, use, id, o).0; w.m.controller in w'.m.nodes && x in Mesh(w', w.m.controller)
  {
    ChangeGoesThrough(w, use, id, o);
    AnnouncedToController(Change(w, use, id, o).0, use, id, o, x);
  }

  /** An enrolment that stops once the worker attested. */
  function UntilAttested(c: Call): Outcome {
    if c == ReadBack then Refused else Ok
  }

  lemma Admitted(w: World, id: NodeID, matches: bool, o: Oracle)
    requires Inv(w) && !TurnedAway(w.m, Enroll(id, matches)) && o(EnrollCall) == Ok
    ensures var (w1, ok) := AdmitStep(w, id, o);
            && ok && id in w1.m.nodes && w1.m.nodes[id].transport && w1.m.nodes[id].lifecycle in {Joining, Ready}
            && w.m.nodes.Keys <= w1.m.nodes.Keys && w1.m == (if id in w.m.nodes then w.m else Stored(EnrollWorker(w.m, id), w.m))
            && w1.m.controller == w.m.controller && w1.machines == w.machines
  {
  }

  lemma Attested(w: World, id: NodeID, o: Oracle)
    requires id in w.m.nodes && w.m.nodes[id].transport && o(PublishTarget) == Ok && o(ReadyCall) == Ok
    requires w.m.nodes[id].lifecycle in {Joining, Ready}
    ensures var (w', ok) := ReadyStep(w, id, o);
            ok && w'.m == Stored(MarkReady(w.m, id), w.m) && Mesh(w', id) == w.m.nodes.Keys - {id}
  {
  }

  lemma EnrolmentStops(w: World, id: NodeID, matches: bool)
    requires !TurnedAway(w.m, Enroll(id, matches))
    requires var (w1, ok) := AdmitStep(w, id, UntilAttested); ok && id in w1.m.nodes
    ensures RunEnroll(w, id, matches, UntilAttested).0 == ReadyStep(AdmitStep(w, id, UntilAttested).0, id, UntilAttested).0
  {
  }

  lemma MemberUnderRemoval(w: World, x: NodeID)
    requires Inv(w) && UnderRemoval(w.m, x)
    ensures x in w.m.nodes && w.m.nodes[x].lifecycle == Draining && x != w.m.controller
  {
  }

  lemma EnrolmentGivesAway(w: World, id: NodeID, matches: bool, x: NodeID)
    requires Inv(w) && UnderRemoval(w.m, x) && !TurnedAway(w.m, Enroll(id, matches))
    ensures var w' := RunEnroll(w, id, matches, UntilAttested).0; id in w'.m.nodes && id != x && x in Mesh(w', id)
  {
    MemberUnderRemoval(w, x);
    Admitted(w, id, matches, UntilAttested);
    EnrolmentStops(w, id, matches);
    Attested(AdmitStep(w, id, UntilAttested).0, id, UntilAttested);
  }

  /** From a state in which the peers of `x` are revoked, whether or not that is recorded yet,
      and `x` is still a member: no failure and no success of a command can bring `x` back to a
      peer exactly when the command is the removal of `x`, or is turned away by the membership
      file before it publishes. */
  lemma RevocationLastsExactly(w: World, x: NodeID, c: Command)
    requires Inv(w) && UnderRemoval(w.m, x) && NoPeerHas(w, x)
    ensures (forall o: Oracle :: NoPeerHas(Run(w, c, o).0, x))
       <==> c == Command.Lifecycle(UseRemove, x) || TurnedAway(w.m, c)
  {
    if TurnedAway(w.m, c) {
      forall o: Oracle ensures NoPeerHas(Run(w, c, o).0, x) { TurnedAwayKeepsMeshes(w, c, o); }
    } else if c == Command.Lifecycle(UseRemove, x) {
      forall o: Oracle ensures NoPeerHas(Run(w, c, o).0, x) { RemovalKeepsOut(w, x, o); }
    } else {
      var o: Oracle := if c.Enroll? then UntilAttested else AllOk;
      match c {
        case Lifecycle(use, id) => LifecycleGivesBack(w, use, id, o, x);
        case Enroll(id, matches) => EnrolmentGivesAway(w, id, matches, x);
      }
      assert !NoPeerHas(Run(w, c, o).0, x);
    }
  }

  function AllOk(c: Call): Outcome {
    Ok
  }

  // ---------------------------------------------------------------- a concrete run

  lemma {:induction false} PublishEachKeepsFile(w: World, peers: seq<NodeID>, exclude: set<NodeID>, call: NodeID -> Call, o: Oracle)
    requires Elements(peers) <= w.m.nodes.Keys
    ensures PublishEach(w, peers, exclude, call, o).0.m == w.m
    decreases |peers|
  {
    if peers == [] {
    } else {
      assert peers[0] in Elements(peers);
      assert Elements(peers[1..]) <= Elements(peers);
      PublishEachKeepsFile(Publish(w, peers[0], exclude, o(call(peers[0]))).0, peers[1..], exclude, call, o);
    }
  }

  /** A new worker's enrolment without failures. */
  lemma Enrolled(w: World, id: NodeID)
    requires Inv(w) && id !in w.m.nodes && id !in w.m.tombstones
    ensures var w', joined := RunEnroll(w, id, true, AllOk).0, EnrollWorker(w.m, id);
            joined.Committed? && Inv(w') && w'.m == Stored(MarkReady(joined.next, id), joined.next)
  {
    RunEnrollKeeps(w, id, true, AllOk);
    Admitted(w, id, true, AllOk);
    var w1 := AdmitStep(w, id, AllOk).0;
    Attested(w1, id, AllOk);
    var w2 := ReadyStep(w1, id, AllOk).0;
    var w3 := ReconcileController(w2, {}, Ok).0;
    PublishEachKeepsFile(w3, SortedNames(w3.m.nodes.Keys - {w3.m.controller}), {}, p => PublishPeer(p), AllOk);
  }

  /** A lifecycle change without failures. */
  lemma Changed(w: World, use: Use, id: NodeID)
    requires Inv(w) && use != UseRemove && id in w.m.nodes && !Action(w.m, use, id).Rejected?
    ensures var w' := RunLifecycle(w, use, id, AllOk).0; Inv(w') && w'.m == Stored(Action(w.m, use, id), w.m)
  {
    RunLifecycleKeeps(w, use, id, AllOk);
    ChangeGoesThrough(w, use, id, AllOk);
    var w1 := Change(w, use, id, AllOk).0;
    AnnounceKeeps(w1, id, AllOk);
    AnnounceSucceeds(w1, id, AllOk);
  }

  /** Every call succeeds but the one that removes the member. */
  function UntilRevoked(c: Call): Outcome {
    if c == RemoveCall then Refused else Ok
  }

  lemma Prepared(w: World, x: NodeID)
    requires Inv(w) && x in w.m.nodes && w.m.nodes[x].lifecycle == Draining && x !in w.m.removals
    ensures var (w1, ok) := PrepareStep(w, x, UntilRevoked);
            ok && Inv(w1) && w1.m.nodes == w.m.nodes && Progress(w1.m, x) == 1
  {
    SoleController(w.m);
    PrepareStepKeeps(w, x, UntilRevoked);
  }

  /** With its peers told, a removal is recorded as past revocation. */
  lemma RevocationRecorded(w: World, x: NodeID)
    requires Valid(w.m) && Progress(w.m, x) == 1 && RevokeStep(w, x, UntilRevoked).1
    ensures var v, w1 := RevokeEverywhere(w, x, UntilRevoked).0, RevokeStep(w, x, UntilRevoked).0;
            v.m == w.m ==> w1.m.nodes == w.m.nodes && Progress(w1.m, x) == 2 && w1.machines == v.machines
  {
  }

  lemma Revoked(w: World, x: NodeID)
    requires Inv(w) && Progress(w.m, x) == 1
    ensures var (w1, ok) := RevokeStep(w, x, UntilRevoked);
            ok && w1.m.nodes == w.m.nodes && Progress(w1.m, x) == 2 && NoPeerHas(w1, x)
  {
    RevokeSucceeds(w, x, UntilRevoked);
    RevocationRecorded(w, x);
    RevokeEverywhereKeeps(w, x, UntilRevoked);
    var v, w1 := RevokeEverywhere(w, x, UntilRevoked).0, RevokeStep(w, x, UntilRevoked).0;
    forall p | p in w1.m.nodes && p != x ensures x !in Mesh(w1, p) {
      assert MachineOf(w1, p) == MachineOf(v, p);
    }
  }

  lemma ResumeStops(w: World, x: NodeID)
    requires Inv(w) && x in w.m.nodes && w.m.nodes[x].lifecycle == Draining && x !in w.m.removals
    ensures var (w', ok) := ResumeRemoval(w, x, UntilRevoked);
            && !ok && Progress(w'.m, x) == 2 && NoPeerHas(w', x)
            && w'.m.nodes == w.m.nodes && w'.m.controller == w.m.controller
  {
    ResumeRemovalKeeps(w, x, UntilRevoked);
    ResumeGoesSoFar(w, x);
  }

  lemma ResumeGoesSoFar(w: World, x: NodeID)
    requires Inv(w) && x in w.m.nodes && w.m.nodes[x].lifecycle == Draining && x !in w.m.removals
    ensures var (w', ok) := ResumeRemoval(w, x, UntilRevoked);
            !ok && Progress(w'.m, x) == 2 && NoPeerHas(w', x) && w'.m.nodes == w.m.nodes
  {
    Prepared(w, x);
    var w1 := PrepareStep(w, x, UntilRevoked).0;
    Revoked(w1, x);
    RemovalHeld(RevokeStep(w1, x, UntilRevoked).0, x);
  }

  lemma RemovalHeld(w: World, x: NodeID)
    requires Progress(w.m, x) == 2
    ensures RemoveStep(w, x, UntilRevoked) == (w, false)
  {
  }

  /** A removal that stops between revoking the peers and removing the member. */
  lemma StoppedRemoval(w: World, x: NodeID)
    requires Inv(w) && x in w.m.nodes && w.m.nodes[x].lifecycle == Draining && x !in w.m.removals
    ensures var w' := RunLifecycle(w, UseRemove, x, UntilRevoked).0;
            && Inv(w') && Progress(w'.m, x) == 2 && NoPeerHas(w', x)
            && w'.m.nodes == w.m.nodes && w'.m.controller == w.m.controller
  {
    RunLifecycleKeeps(w, UseRemove, x, UntilRevoked);
    ChangeStops(w, x);
  }

  lemma ChangeStops(w: World, x: NodeID)
    requires Inv(w) && x in w.m.nodes && w.m.nodes[x].lifecycle == Draining && x !in w.m.removals
    ensures var (w', ok) := Change(w, UseRemove, x, UntilRevoked);
            && !ok && Progress(w'.m, x) == 2 && NoPeerHas(w', x)
            && w'.m.nodes == w.m.nodes && w'.m.controller == w.m.controller
  {
    Latched(w, x);
    LatchThenResume(w, x);
    ResumeStops(SetDeny(w, x, true, Ok).0, x);
  }

  lemma LatchThenResume(w: World, x: NodeID)
    requires x in w.m.nodes && SetDeny(w, x, true, Ok).1
    ensures Change(w, UseRemove, x, UntilRevoked) == ResumeRemoval(SetDeny(w, x, true, Ok).0, x, UntilRevoked)
  {
  }

  lemma Latched(w: World, x: NodeID)
    requires Inv(w) && x in w.m.nodes
    ensures var (w0, ok) := SetDeny(w, x, true, Ok); ok && Inv(w0) && w0.m == w.m
  {
  }

  const ENROL_X: (Command, Oracle) := (Enroll("x", true), AllOk)
  const ENROL_Y: (Command, Oracle) := (Enroll("y", true), AllOk)
  const OPEN_Y: (Command, Oracle) := (Command.Lifecycle(UseSchedulable, "y"), AllOk)
  const CORDON_X: (Command, Oracle) := (Command.Lifecycle(UseCordon, "x"), AllOk)
  const DRAIN_X: (Command, Oracle) := (Command.Lifecycle(UseDrain, "x"), AllOk)
  const REVOKE_X: (Command, Oracle) := (Command.Lifecycle(UseRemove, "x"), UntilRevoked)

  lemma RunSplits(w: World, first: (Command, Oracle), rest: seq<(Command, Oracle)>)
    ensures RunAll(w, [first] + rest) == RunAll(Run(w, first.0, first.1).0, rest)
  {
    assert ([first] + rest)[1..] == rest;
  }

  /** A cluster of c with the workers x and y, no removal begun. */
  ghost predicate Stands(w: World, x: Membership.Lifecycle, y: Membership.Lifecycle) {
    && Inv(w) && w.m.controller == "c" && w.m.removals == map[]
    && "x" in w.m.nodes && w.m.nodes["x"].lifecycle == x
    && "y" in w.m.nodes && w.m.nodes["y"].lifecycle == y
  }

  lemma TwoJoin()
    ensures Stands(RunAll(Boot("c"), [ENROL_X, ENROL_Y]), Ready, Ready)
  {
    var w0 := Boot("c");
    assert Controllers(w0.m) == {"c"};
    assert Inv(w0);
    Enrolled(w0, "x");
    var w1 := Run(w0, ENROL_X.0, ENROL_X.1).0;
    Enrolled(w1, "y");
    RunSplits(w0, ENROL_X, [ENROL_Y]);
    RunSplits(w1, ENROL_Y, []);
    assert [ENROL_X] + [ENROL_Y] == [ENROL_X, ENROL_Y];
    assert [ENROL_Y] + [] == [ENROL_Y];
  }

  lemma YOpens(w: World)
    requires Stands(w, Ready, Ready)
    ensures Stands(Run(w, OPEN_Y.0, OPEN_Y.1).0, Ready, Schedulable)
  {
    Changed(w, UseSchedulable, "y");
  }

  lemma XIsCordoned(w: World)
    requires Stands(w, Ready, Schedulable)
    ensures Stands(Run(w, CORDON_X.0, CORDON_X.1).0, Cordoned, Schedulable)
  {
    Changed(w, UseCordon, "x");
  }

  lemma XIsDrained(w: World)
    requires Stands(w, Cordoned, Schedulable) && !w.m.nodes["x"].controlPlane
    ensures Stands(Run(w, DRAIN_X.0, DRAIN_X.1).0, Draining, Schedulable)
  {
    Changed(w, UseDrain, "x");
  }

  lemma DrainedBeside(w: World)
    requires Stands(w, Ready, Ready)
    ensures Stands(RunAll(w, [OPEN_Y, CORDON_X, DRAIN_X]), Draining, Schedulable)
  {
    YOpens(w);
    var w1 := Run(w, OPEN_Y.0, OPEN_Y.1).0;
    XIsCordoned(w1);
    var w2 := Run(w1, CORDON_X.0, CORDON_X.1).0;
    SoleController(w2.m);
    XIsDrained(w2);
    RunSplits(w, OPEN_Y, [CORDON_X, DRAIN_X]);
    RunSplits(w1, CORDON_X, [DRAIN_X]);
    RunSplits(w2, DRAIN_X, []);
    assert [OPEN_Y] + [CORDON_X, DRAIN_X] == [OPEN_Y, CORDON_X, DRAIN_X];
    assert [CORDON_X] + [DRAIN_X] == [CORDON_X, DRAIN_X];
    assert [DRAIN_X] + [] == [DRAIN_X];
  }

  lemma {:induction false} RunThenRun(w: World, a: seq<(Command, Oracle)>, b: seq<(Command, Oracle)>)
    ensures RunAll(w, a + b) == RunAll(RunAll(w, a), b)
    decreases |a|
  {
    if a == [] {
      assert a + b == b;
    } else {
      RunThenRun(Run(w, a[0].0, a[0].1).0, a[1..], b);
      assert (a + b)[0] == a[0] && (a + b)[1..] == a[1..] + b;
    }
  }

  /** The script in three parts. */
  lemma ScriptInParts()
    ensures RunAll(Boot("c"), [ENROL_X, ENROL_Y, OPEN_Y, CORDON_X, DRAIN_X, REVOKE_X])
         == Run(RunAll(RunAll(Boot("c"), [ENROL_X, ENROL_Y]), [OPEN_Y, CORDON_X, DRAIN_X]), REVOKE_X.0, REVOKE_X.1).0
  {
    var joined := RunAll(Boot("c"), [ENROL_X, ENROL_Y]);
    RunSplits(RunAll(joined, [OPEN_Y, CORDON_X, DRAIN_X]), REVOKE_X, []);
    assert [REVOKE_X] + [] == [REVOKE_X];
    RunThenRun(joined, [OPEN_Y, CORDON_X, DRAIN_X], [REVOKE_X]);
    RunThenRun(Boot("c"), [ENROL_X, ENROL_Y], [OPEN_Y, CORDON_X, DRAIN_X] + [REVOKE_X]);
    assert [ENROL_X, ENROL_Y] + ([OPEN_Y, CORDON_X, DRAIN_X] + [REVOKE_X])
        == [ENROL_X, ENROL_Y, OPEN_Y, CORDON_X, DRAIN_X, REVOKE_X];
  }

  lemma CordonGivesBack(w: World)
    requires Stands(w, Draining, Schedulable)
    ensures var held := Run(w, REVOKE_X.0, REVOKE_X.1).0;
            && Progress(held.m, "x") == 2 && NoPeerHas(held, "x")
            && "x" in Mesh(Run(held, Command.Lifecycle(UseCordon, "y"), AllOk).0, "c")
  {
    StoppedRemoval(w, "x");
    LifecycleGivesBack(Run(w, REVOKE_X.0, REVOKE_X.1).0, UseCordon, "y", AllOk, "x");
  }

  /** A revocation undone: x's removal stopped once its peers were revoked, and cordoning y
      gives x back to the controller. */
  lemma RevokedPeerComesBack()
    ensures var w := RunAll(Boot("c"), [ENROL_X, ENROL_Y, OPEN_Y, CORDON_X, DRAIN_X, REVOKE_X]);
            && Progress(w.m, "x") == 2 && NoPeerHas(w, "x")
            && "x" in Mesh(Run(w, Command.Lifecycle(UseCordon, "y"), AllOk).0, "c")
  {
    var joined := RunAll(Boot("c"), [ENROL_X, ENROL_Y]);
    TwoJoin();
    DrainedBeside(joined);
    CordonGivesBack(RunAll(joined, [OPEN_Y, CORDON_X, DRAIN_X]));
    ScriptInParts();
  }
}
