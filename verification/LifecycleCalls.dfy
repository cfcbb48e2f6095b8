/** What the outcomes of the external calls alone decide: when a command succeeds, how far a
    removal gets, and which state a lifecycle change reaches. */
module LifecycleCalls {
  import opened Lifecycle
  import opened Membership
  import opened Names

  /** A removal asked for again after it was completed. */
  predicate AlreadyRemoved(s: State, use: Use, id: NodeID) {
    use == UseRemove && id in s.tombstones && id !in s.nodes && id !in s.removals
  }

  /** The lifecycles from which the membership file accepts a command. */
  predicate Accepts(s: State, use: Use, id: NodeID) {
    || (use == UseRemove && id in s.removals)
    || (id in s.nodes && AcceptsFrom(use, s.nodes[id].lifecycle, id == s.controller))
  }

  predicate AcceptsFrom(use: Use, from: Membership.Lifecycle, controller: bool) {
    match use
    case UseReady => from in {Joining, Ready}
    case UseSchedulable => from in {Ready, Cordoned, Schedulable}
    case UseCordon => from in {Ready, Schedulable, Cordoned}
    case UseDrain => !controller && from in {Cordoned, Draining}
    case UseRemove => from == Draining
  }

  predicate OtherWorker(s: State, id: NodeID, p: NodeID) {
    p in s.nodes && p != s.controller && p != id
  }

  /** The calls that a command must make with success, given where it starts. */
  predicate Needs(s: State, use: Use, id: NodeID, c: Call) {
    match c
    case Open => true
    case AgentStatus => true
    case LatchOn => use in {UseCordon, UseDrain, UseRemove} && id in s.nodes
    case Act => use != UseRemove
    case Prepare => use == UseRemove && id !in s.removals
    case Reread => use == UseRemove && id !in s.removals
    case RevokeController => use == UseRemove && Progress(s, id) < 2
    case RevokePeer(p) => use == UseRemove && Progress(s, id) < 2 && OtherWorker(s, id, p)
    case MarkRevoked => use == UseRemove && Progress(s, id) < 2
    case RemoveCall => use == UseRemove && Progress(s, id) < 3
    case Reconcile => true
    case ReadBack => true
    case PublishTarget => use != UseRemove && id != s.controller
    case ControllerMesh => true
    case PublishPeer(p) => OtherWorker(s, id, p)
    case LatchOff => use == UseSchedulable
    case Cleanup => use == UseRemove
    case Complete => use == UseRemove
    case Identity => false
    case EnrollCall => false
    case ReadyCall => false
  }

  // ---------------------------------------------------------------- single calls

  /** A refused call leaves the world as it was and is not reported as a success. */
  lemma RefusedHasNoEffect(w: World, id: NodeID, exclude: set<NodeID>, denied: bool, change: Mutation)
    ensures Commit(w, change, Refused) == (w, false) == ReconcileController(w, exclude, Refused)
    ensures id in w.m.nodes ==> Publish(w, id, exclude, Refused) == (w, false) == SetDeny(w, id, denied, Refused)
    ensures id in w.m.removals && w.m.removals[id].node.transport ==> CleanUp(w, id, Refused) == (w, false)
  {
  }

  /** A call whose answer is lost does what it does when it is answered, except that the
      generation is attested only by an answer, and is not reported as a success. */
  lemma LostHasEffect(w: World, id: NodeID, exclude: set<NodeID>, denied: bool, change: Mutation)
    ensures Commit(w, change, Lost) == (Commit(w, change, Ok).0, false)
    ensures ReconcileController(w, exclude, Lost) == (ReconcileController(w, exclude, Ok).0, false)
    ensures id in w.m.nodes ==> SetDeny(w, id, denied, Lost) == (SetDeny(w, id, denied, Ok).0, false)
    ensures id in w.m.nodes ==>
              && !Publish(w, id, exclude, Lost).1
              && forall n :: Mesh(Publish(w, id, exclude, Lost).0, n) == Mesh(Publish(w, id, exclude, Ok).0, n)
    ensures id in w.m.removals && w.m.removals[id].node.transport ==> CleanUp(w, id, Lost) == (CleanUp(w, id, Ok).0, false)
  {
  }

  // ---------------------------------------------------------------- publication passes

  lemma OthersAreWorkers(s: State, id: NodeID, p: NodeID)
    ensures p in Others(s, id) <==> OtherWorker(s, id, p)
  {
    assert p in Elements(Others(s, id)) <==> p in Others(s, id);
  }

  /** A pass over workers that the inventory does not exclude succeeds exactly when every call
      does. */
  lemma {:induction false} PassExactly(w: World, peers: seq<NodeID>, exclude: set<NodeID>, call: NodeID -> Call, o: Oracle)
    requires Inv(w) && Sorted(peers) && exclude <= w.m.nodes.Keys
    requires Elements(peers) <= w.m.nodes.Keys - {w.m.controller} - exclude
    ensures PublishEach(w, peers, exclude, call, o).1 <==> forall p :: p in peers ==> o(call(p)) == Ok
    decreases |peers|
  {
    if peers == [] {
    } else {
      assert peers[0] in Elements(peers) && peers == [peers[0]] + peers[1..];
      PublishKeeps(w, peers[0], exclude, o(call(peers[0])));
      TailElements(peers);
      PassExactly(Publish(w, peers[0], exclude, o(call(peers[0]))).0, peers[1..], exclude, call, o);
    }
  }

  lemma RevokeExactly(w: World, id: NodeID, o: Oracle)
    requires Inv(w) && id in w.m.nodes && id != w.m.controller
    ensures RevokeEverywhere(w, id, o).1 <==>
              o(RevokeController) == Ok && forall p :: OtherWorker(w.m, id, p) ==> o(RevokePeer(p)) == Ok
  {
    ControllerKeeps(w, {id}, o(RevokeController));
    var (w1, ok) := ReconcileController(w, {id}, o(RevokeController));
    PassExactly(w1, Others(w.m, id), {id}, p => RevokePeer(p), o);
    forall p ensures p in Others(w.m, id) <==> OtherWorker(w.m, id, p) { OthersAreWorkers(w.m, id, p); }
  }

  lemma AnnounceExactly(w: World, id: NodeID, o: Oracle)
    requires Inv(w)
    ensures Announce(w, id, o).1 <==>
      && o(Reconcile) == Ok && o(ReadBack) == Ok && o(ControllerMesh) == Ok
      && (id in w.m.nodes && id != w.m.controller ==> o(PublishTarget) == Ok)
      && forall p :: OtherWorker(w.m, id, p) ==> o(PublishPeer(p)) == Ok
  {
    var target := id in w.m.nodes && id != w.m.controller;
    if target { PublishKeeps(w, id, {}, o(PublishTarget)); }
    var (w1, _) := if target then Publish(w, id, {}, o(PublishTarget)) else (w, true);
    ControllerKeeps(w1, {}, o(ControllerMesh));
    OthersToldExactly(ReconcileController(w1, {}, o(ControllerMesh)).0, id, o);
  }

  lemma OthersToldExactly(w: World, id: NodeID, o: Oracle)
    requires Inv(w)
    ensures PublishEach(w, Others(w.m, id), {}, p => PublishPeer(p), o).1 <==>
              forall p :: OtherWorker(w.m, id, p) ==> o(PublishPeer(p)) == Ok
  {
    PassExactly(w, Others(w.m, id), {}, p => PublishPeer(p), o);
    forall p ensures p in Others(w.m, id) <==> OtherWorker(w.m, id, p) { OthersAreWorkers(w.m, id, p); }
  }

  // ---------------------------------------------------------------- how far a removal gets

  /** The place of a call in a removal. */
  function Stage(c: Call): nat {
    match c
    case Open => 0
    case AgentStatus => 0
    case LatchOn => 0
    case Prepare => 1
    case Reread => 2
    case RevokeController => 2
    case RevokePeer(p) => 2
    case MarkRevoked => 2
    case RemoveCall => 3
    case _ => 4
  }

  /** The call that persists a stage. */
  function Persists(k: nat): Call {
    if k == 1 then Prepare else if k == 2 then MarkRevoked else if k == 3 then RemoveCall else Complete
  }

  /** Every call up to the one that persists stage `k` succeeds, and that one takes effect. */
  ghost predicate Reaches(s: State, id: NodeID, o: Oracle, k: nat) {
    && o(Persists(k)) != Refused
    && forall c :: Needs(s, UseRemove, id, c) && Stage(c) <= k && c != Persists(k) ==> o(c) == Ok
  }

  /** All calls up to a stage succeed. */
  ghost predicate Done(s: State, id: NodeID, o: Oracle, k: nat) {
    forall c :: Needs(s, UseRemove, id, c) && Stage(c) <= k ==> o(c) == Ok
  }

  lemma UnderRemovalIsWorker(s: State, id: NodeID)
    requires Valid(s) && (id in s.removals || (id in s.nodes && s.nodes[id].lifecycle == Draining))
    ensures id != s.controller && !(id in s.nodes && FinalController(s, id))
    ensures id in s.removals && s.removals[id].phase != CleanupTarget ==> id in s.nodes
    ensures id in s.removals && s.removals[id].phase == CleanupTarget ==> id !in s.nodes
  {
    SoleController(s);
  }

  lemma PrepareExactly(w: World, id: NodeID, o: Oracle)
    requires Inv(w)
    ensures var (w', ok) := PrepareStep(w, id, o);
            var draining := id in w.m.nodes && w.m.nodes[id].lifecycle == Draining;
            && Inv(w') && w'.m.nodes == w.m.nodes && w'.m.controller == w.m.controller && w'.latched == w.latched
            && (id in w'.m.removals <==> id in w.m.removals || (draining && o(Prepare) != Refused))
            && (id in w'.m.removals ==> Progress(w'.m, id) == if id in w.m.removals then Progress(w.m, id) else 1)
            && (ok && id in w'.m.removals <==> id in w.m.removals || (draining && o(Prepare) == Ok && o(Reread) == Ok))
            && (id !in w'.m.removals ==> w'.m == w.m)
  {
    PrepareStepKeeps(w, id, o);
    if id in w.m.nodes && w.m.nodes[id].lifecycle == Draining { UnderRemovalIsWorker(w.m, id); }
  }

  lemma RevokedExactly(w: World, id: NodeID, o: Oracle)
    requires Inv(w) && id in w.m.removals
    ensures var (w', ok) := RevokeStep(w, id, o);
            var told := o(RevokeController) == Ok && forall p :: OtherWorker(w.m, id, p) ==> o(RevokePeer(p)) == Ok;
            && Inv(w') && w'.m.nodes == w.m.nodes && w'.m.controller == w.m.controller
            && id in w'.m.removals
            && (Progress(w'.m, id) == if Progress(w.m, id) == 1 && told && o(MarkRevoked) != Refused then 2 else Progress(w.m, id))
            && (ok <==> (Progress(w.m, id) == 1 ==> told && o(MarkRevoked) == Ok))
  {
    RevokeStepKeeps(w, id, o);
    if w.m.removals[id].phase == RevokePeers {
      UnderRemovalIsWorker(w.m, id);
      RevokeExactly(w, id, o);
      RevokeEverywhereKeeps(w, id, o);
    }
  }

  lemma RemovedExactly(w: World, id: NodeID, o: Oracle)
    requires Inv(w) && id in w.m.removals && Progress(w.m, id) >= 2
    ensures var (w', ok) := RemoveStep(w, id, o);
            && Inv(w')
            && (Progress(w'.m, id) == if o(RemoveCall) != Refused then 3 else Progress(w.m, id))
            && (ok <==> Progress(w.m, id) == 3 || o(RemoveCall) == Ok)
  {
    RemoveStepKeeps(w, id, o);
    UnderRemovalIsWorker(w.m, id);
  }

  /** The stages of a removal up to the member's, call by call. */
  lemma ResumeExactly(w: World, id: NodeID, o: Oracle)
    requires Inv(w) && Accepts(w.m, UseRemove, id) && Done(w.m, id, o, 0)
    ensures var (w', ok) := ResumeRemoval(w, id, o);
            && Inv(w')
            && (ok <==> Done(w.m, id, o, 3))
            && (forall k :: 1 <= k <= 3 ==> (Progress(w'.m, id) >= k <==> Progress(w.m, id) >= k || Reaches(w.m, id, o, k)))
            && Progress(w'.m, id) <= 3
  {
    var before := Progress(w.m, id);
    PrepareExactly(w, id, o);
    var (w1, ok1) := PrepareStep(w, id, o);
    ReachesCases(w.m, id, o);
    if ok1 && id in w1.m.removals {
      RevokedExactly(w1, id, o);
      var (w2, ok2) := RevokeStep(w1, id, o);
      if ok2 { RemovedExactly(w2, id, o); }
    }
  }

  /** The stages spelled out. */
  lemma ReachesCases(s: State, id: NodeID, o: Oracle)
    requires (id !in s.tombstones || id in s.removals) && Done(s, id, o, 0)
    ensures var newly, early := id !in s.removals, Progress(s, id) < 2;
            var told := o(RevokeController) == Ok && forall p :: OtherWorker(s, id, p) ==> o(RevokePeer(p)) == Ok;
            var begun := newly ==> o(Prepare) == Ok && o(Reread) == Ok;
            && (Reaches(s, id, o, 1) <==> o(Prepare) != Refused)
            && (Reaches(s, id, o, 2) <==> begun && (early ==> told) && o(MarkRevoked) != Refused)
            && (Reaches(s, id, o, 3) <==> begun && (early ==> told && o(MarkRevoked) == Ok) && o(RemoveCall) != Refused)
            && (Done(s, id, o, 3) <==> begun && (early ==> told && o(MarkRevoked) == Ok) && (Progress(s, id) < 3 ==> o(RemoveCall) == Ok))
  {
  }

  // ---------------------------------------------------------------- commands

  lemma ActionExactly(w: World, use: Use, id: NodeID, o: Oracle)
    requires Inv(w) && use != UseRemove && id in w.m.nodes
    ensures var (w', ok) := Commit(w, Action(w.m, use, id), o(Act));
            && (ok <==> Accepts(w.m, use, id) && o(Act) == Ok)
            && w'.m.controller == w.m.controller && w'.m.nodes.Keys == w.m.nodes.Keys && w'.m.removals == w.m.removals && w'.m.tombstones == w.m.tombstones
            && w'.m.nodes[id].lifecycle == if Accepts(w.m, use, id) && o(Act) != Refused then Goal(use) else w.m.nodes[id].lifecycle
  {
    ActionAsked(w.m, use, id);
  }

  /** What a lifecycle command asks of the store. */
  lemma ActionAsked(s: State, use: Use, id: NodeID)
    requires Valid(s) && use != UseRemove && id in s.nodes
    ensures Action(s, use, id) ==
      if !Accepts(s, use, id) then Rejected
      else if s.nodes[id].lifecycle == Goal(use) then Unchanged
      else Committed(WithLifecycle(s, id, Goal(use)))
  {
    SoleController(s);
  }

  /** The lifecycle that a command other than a removal brings a node to. */
  function Goal(use: Use): Membership.Lifecycle
    requires use != UseRemove
  {
    match use
    case UseReady => Ready
    case UseSchedulable => Schedulable
    case UseCordon => Cordoned
    case UseDrain => Draining
  }

  lemma LatchExactly(w: World, id: NodeID, outcome: Outcome)
    requires Inv(w) && id in w.m.nodes
    ensures var (w', ok) := SetDeny(w, id, true, outcome);
            && Inv(w') && w'.m == w.m && w'.machines == w.machines
            && (ok <==> outcome == Ok) && (id in w'.latched <==> id in w.latched || outcome != Refused)
            && (forall n :: n != id ==> (n in w'.latched <==> n in w.latched))
  {
  }

  /** The start of a command: the store, the agent and the latch. */
  lemma StartsExactly(s: State, id: NodeID, o: Oracle)
    ensures Done(s, id, o, 0) <==> o(Open) == Ok && o(AgentStatus) == Ok && (id in s.nodes ==> o(LatchOn) == Ok)
  {
  }

  /** The stages up to the member's. */
  ghost predicate GetsToMember(s: State, t: State, id: NodeID, o: Oracle) {
    && Progress(t, id) <= 3
    && forall k :: 1 <= k <= 3 ==> (Progress(t, id) >= k <==> Progress(s, id) >= k || Reaches(s, id, o, k))
  }

  /** The latch, and then the removal up to target cleanup. */
  lemma RemovalChanges(w: World, id: NodeID, o: Oracle)
    requires Inv(w) && Accepts(w.m, UseRemove, id) && o(Open) == Ok && o(AgentStatus) == Ok
    ensures var (w', ok) := Change(w, UseRemove, id, o);
            && Inv(w') && Local(w.m, w'.m, id) && (ok ==> Progress(w'.m, id) == 3 && id !in w'.m.nodes)
            && (ok <==> Done(w.m, id, o, 3))
            && GetsToMember(w.m, w'.m, id, o)
  {
    ChangeKeeps(w, UseRemove, id, o);
    StartsExactly(w.m, id, o);
    DoneIsMonotone(w.m, id, o);
    var latched := id in w.m.nodes;
    if latched { LatchExactly(w, id, o(LatchOn)); }
    var (w1, ok1) := if latched then SetDeny(w, id, true, o(LatchOn)) else (w, true);
    if ok1 { ResumeExactly(w1, id, o); }
  }

  lemma DoneIsMonotone(s: State, id: NodeID, o: Oracle)
    ensures !Done(s, id, o, 0) ==> !Done(s, id, o, 3) && !Reaches(s, id, o, 1) && !Reaches(s, id, o, 2) && !Reaches(s, id, o, 3) && !Reaches(s, id, o, 4)
    ensures !Done(s, id, o, 3) ==> !Reaches(s, id, o, 4)
  {
    if c :| Needs(s, UseRemove, id, c) && Stage(c) <= 0 && o(c) != Ok { }
    if c :| Needs(s, UseRemove, id, c) && Stage(c) <= 3 && o(c) != Ok { }
  }

  /** What is left of a removal after its member is gone. */
  lemma LastStage(s: State, id: NodeID, o: Oracle)
    ensures Reaches(s, id, o, 4) <==>
      && Done(s, id, o, 3)
      && o(Reconcile) == Ok && o(ReadBack) == Ok && o(ControllerMesh) == Ok
      && (forall p :: OtherWorker(s, id, p) ==> o(PublishPeer(p)) == Ok)
      && o(Cleanup) == Ok && o(Complete) != Refused
  {
    DoneIsMonotone(s, id, o);
  }

  lemma RemovalFinishes(w: World, id: NodeID, o: Oracle)
    requires Inv(w) && Progress(w.m, id) == 3
    ensures var (w', ok) := Finish(w, UseRemove, id, o);
            && Progress(w'.m, id) == (if o(Cleanup) == Ok && o(Complete) != Refused then 4 else 3)
            && (ok <==> o(Cleanup) == Ok && o(Complete) == Ok)
  {
    CleanUpKeeps(w, id, o(Cleanup));
  }

  lemma SameWorkers(s: State, t: State, id: NodeID)
    requires Local(s, t, id)
    ensures forall p :: OtherWorker(t, id, p) <==> OtherWorker(s, id, p)
  {
  }

  /** Every machine left was told. */
  ghost predicate EveryoneTold(s: State, id: NodeID, o: Oracle) {
    && o(Reconcile) == Ok && o(ReadBack) == Ok && o(ControllerMesh) == Ok
    && forall p :: OtherWorker(s, id, p) ==> o(PublishPeer(p)) == Ok
  }

  function RemovalEnd(w: World, id: NodeID, o: Oracle): (World, bool) {
    var (w2, ok2) := Announce(w, id, o);
    if ok2 then Finish(w2, UseRemove, id, o) else (w2, false)
  }

  /** The announcement and the cleanup, once the member is gone. */
  lemma RemovalEnds(w: World, id: NodeID, o: Oracle)
    requires Inv(w) && Progress(w.m, id) == 3 && id !in w.m.nodes
    ensures var (w', ok) := RemovalEnd(w, id, o);
            && Progress(w'.m, id) == (if EveryoneTold(w.m, id, o) && o(Cleanup) == Ok && o(Complete) != Refused then 4 else 3)
            && (ok <==> EveryoneTold(w.m, id, o) && o(Cleanup) == Ok && o(Complete) == Ok)
  {
    AnnounceExactly(w, id, o);
    AnnounceKeeps(w, id, o);
    var (w2, ok2) := Announce(w, id, o);
    if ok2 { RemovalFinishes(w2, id, o); }
  }

  /** A stage of the removal is reached if it was before, or if the node can be removed, every
      call up to the one that persists the stage succeeds and that one takes effect. */
  ghost predicate GetsTo(s: State, t: State, id: NodeID, o: Oracle) {
    forall k :: 1 <= k <= 4 ==>
      (Progress(t, id) >= k <==> Progress(s, id) >= k || (Accepts(s, UseRemove, id) && Reaches(s, id, o, k)))
  }

  lemma StoppedBeforeEnd(s: State, t: State, id: NodeID, o: Oracle)
    requires Accepts(s, UseRemove, id) && Progress(s, id) <= 3 && GetsToMember(s, t, id, o) && !Done(s, id, o, 3)
    ensures GetsTo(s, t, id, o) && !Reaches(s, id, o, 4)
  {
    LastStage(s, id, o);
  }

  lemma WentToEnd(s: State, t1: State, t: State, id: NodeID, o: Oracle)
    requires Accepts(s, UseRemove, id) && Progress(s, id) <= 3 && GetsToMember(s, t1, id, o) && Done(s, id, o, 3)
    requires Progress(t1, id) == 3
    requires Progress(t, id) == if EveryoneTold(s, id, o) && o(Cleanup) == Ok && o(Complete) != Refused then 4 else 3
    ensures GetsTo(s, t, id, o)
    ensures Reaches(s, id, o, 4) <==> EveryoneTold(s, id, o) && o(Cleanup) == Ok && o(Complete) != Refused
  {
    LastStage(s, id, o);
  }

  lemma AcceptedIsNotDone(s: State, id: NodeID)
    requires Valid(s) && Accepts(s, UseRemove, id)
    ensures Progress(s, id) <= 3
  {
  }

  /** Every removal command gets exactly as far as its calls do, and succeeds exactly when they
      all do. */
  lemma RemovalGetsExactly(w: World, id: NodeID, o: Oracle)
    requires Inv(w) && Accepts(w.m, UseRemove, id)
    ensures var (w', ok) := RunLifecycle(w, UseRemove, id, o);
            GetsTo(w.m, w'.m, id, o) && (ok <==> Reaches(w.m, id, o, 4) && o(Complete) == Ok)
  {
    if o(Open) == Ok && o(AgentStatus) == Ok {
      RemovalRuns(w, id, o);
      RemovalChanges(w, id, o);
      AcceptedIsNotDone(w.m, id);
      var (w1, ok1) := Change(w, UseRemove, id, o);
      if ok1 {
        SameWorkers(w.m, w1.m, id);
        RemovalEnds(w1, id, o);
        WentToEnd(w.m, w1.m, RemovalEnd(w1, id, o).0.m, id, o);
      } else {
        StoppedBeforeEnd(w.m, w1.m, id, o);
      }
    } else {
      StartsExactly(w.m, id, o);
      DoneIsMonotone(w.m, id, o);
    }
  }

  /** An accepted removal is its change, and then its end. */
  lemma RemovalRuns(w: World, id: NodeID, o: Oracle)
    requires Accepts(w.m, UseRemove, id) && o(Open) == Ok && o(AgentStatus) == Ok
    ensures var (w1, ok1) := Change(w, UseRemove, id, o);
            RunLifecycle(w, UseRemove, id, o) == if ok1 then RemovalEnd(w1, id, o) else (w1, false)
  {
  }

  /** A command that the membership file does not accept fails and changes no membership. */
  lemma NotAccepted(w: World, use: Use, id: NodeID, o: Oracle)
    requires Inv(w) && !Accepts(w.m, use, id)
    ensures var (w', ok) := RunLifecycle(w, use, id, o);
            w'.m == w.m && (ok <==> AlreadyRemoved(w.m, use, id) && o(Open) == Ok)
  {
    if id in w.m.nodes {
      LatchExactly(w, id, o(LatchOn));
      var (w1, _) := if Latches(use) then SetDeny(w, id, true, o(LatchOn)) else (w, true);
      if use != UseRemove { ActionAsked(w1.m, use, id); }
    }
  }

  /** What a lifecycle change needs, spelled out. */
  lemma NeededForChange(s: State, use: Use, id: NodeID, o: Oracle)
    requires use != UseRemove && id in s.nodes
    ensures (forall c :: Needs(s, use, id, c) ==> o(c) == Ok) <==>
      && o(Open) == Ok && o(AgentStatus) == Ok && (Latches(use) ==> o(LatchOn) == Ok) && o(Act) == Ok
      && o(Reconcile) == Ok && o(ReadBack) == Ok && o(ControllerMesh) == Ok
      && (id != s.controller ==> o(PublishTarget) == Ok)
      && (forall p :: OtherWorker(s, id, p) ==> o(PublishPeer(p)) == Ok)
      && (use == UseSchedulable ==> o(LatchOff) == Ok)
  {
  }

  lemma ChangeTail(w: World, use: Use, id: NodeID, o: Oracle)
    requires Inv(w) && use != UseRemove && id in w.m.nodes
    ensures var (w2, ok2) := Announce(w, id, o);
            var (w', ok) := if ok2 then Finish(w2, use, id, o) else (w2, false);
            && w'.m == w.m
            && (ok <==> && o(Reconcile) == Ok && o(ReadBack) == Ok && o(ControllerMesh) == Ok
                        && (id != w.m.controller ==> o(PublishTarget) == Ok)
                        && (forall p :: OtherWorker(w.m, id, p) ==> o(PublishPeer(p)) == Ok)
                        && (use == UseSchedulable ==> o(LatchOff) == Ok))
  {
    AnnounceExactly(w, id, o);
    AnnounceKeeps(w, id, o);
  }

  /** The latch, and then the membership. */
  lemma ChangeBegins(w: World, use: Use, id: NodeID, o: Oracle)
    requires Inv(w) && use != UseRemove && Accepts(w.m, use, id)
    ensures var (w', ok) := Change(w, use, id, o);
            var latched := Latches(use) ==> o(LatchOn) == Ok;
            && Inv(w') && Local(w.m, w'.m, id) && id in w'.m.nodes
            && (ok <==> latched && o(Act) == Ok)
            && w'.m.nodes[id].lifecycle == if latched && o(Act) != Refused then Goal(use) else w.m.nodes[id].lifecycle
  {
    ChangeKeeps(w, use, id, o);
    LatchExactly(w, id, o(LatchOn));
    var (w1, ok1) := if Latches(use) then SetDeny(w, id, true, o(LatchOn)) else (w, true);
    if ok1 { ActionExactly(w1, use, id, o); }
  }

  /** A command other than a removal, on a node whose lifecycle allows it: the node is brought
      to its goal exactly when the store and the agent answered, the latch was set if the
      command sets one, and the store call took effect; and the command succeeds exactly when
      every call it needs does. */
  lemma ChangeGetsExactly(w: World, use: Use, id: NodeID, o: Oracle)
    requires Inv(w) && use != UseRemove && Accepts(w.m, use, id)
    ensures var (w', ok) := RunLifecycle(w, use, id, o);
            var begun := o(Open) == Ok && o(AgentStatus) == Ok && (Latches(use) ==> o(LatchOn) == Ok);
            && id in w'.m.nodes
            && w'.m.nodes[id].lifecycle == (if begun && o(Act) != Refused then Goal(use) else w.m.nodes[id].lifecycle)
            && (ok <==> forall c :: Needs(w.m, use, id, c) ==> o(c) == Ok)
  {
    NeededForChange(w.m, use, id, o);
    if o(Open) == Ok && o(AgentStatus) == Ok {
      ChangeBegins(w, use, id, o);
      var (w1, ok1) := Change(w, use, id, o);
      if ok1 {
        SameWorkers(w.m, w1.m, id);
        ChangeTail(w1, use, id, o);
      }
    }
  }

  lemma ClearedLatch(w: World, id: NodeID, o: Oracle)
    requires Inv(w) && id in w.m.nodes
    ensures var (w', ok) := Finish(w, UseSchedulable, id, o); ok ==> id !in w'.latched
    ensures forall use :: use != UseSchedulable && use != UseRemove ==> Finish(w, use, id, o).0.latched == w.latched
  {
  }

  /** The latch after a change: set by a command that restricts the node as soon as the latch
      call took effect, whatever follows, and gone after a successful return to schedulable. */
  lemma LatchFollowsExactly(w: World, use: Use, id: NodeID, o: Oracle)
    requires Inv(w) && use != UseRemove && Accepts(w.m, use, id)
    ensures var (w', ok) := RunLifecycle(w, use, id, o);
            && (Latches(use) ==>
                  (id in w'.latched <==> id in w.latched || (o(Open) == Ok && o(AgentStatus) == Ok && o(LatchOn) != Refused)))
            && (use == UseSchedulable && ok ==> id !in w'.latched)
  {
    if o(Open) == Ok && o(AgentStatus) == Ok {
      ChangeBegins(w, use, id, o);
      ChangeLatches(w, use, id, o);
      var (w1, ok1) := Change(w, use, id, o);
      if ok1 {
        AnnounceKeeps(w1, id, o);
        ClearedLatch(Announce(w1, id, o).0, id, o);
      }
    }
  }

  lemma ChangeLatches(w: World, use: Use, id: NodeID, o: Oracle)
    requires Inv(w) && use != UseRemove && id in w.m.nodes
    ensures id in Change(w, use, id, o).0.latched <==> id in w.latched || (Latches(use) && o(LatchOn) != Refused)
  {
    LatchExactly(w, id, o(LatchOn));
  }

  lemma ChangeKeepsMachines(w: World, use: Use, id: NodeID, o: Oracle)
    requires use != UseRemove
    ensures Change(w, use, id, o).0.machines == w.machines
  {
  }

  lemma AnnouncedOnlyAfterTarget(w: World, id: NodeID, o: Oracle, p: NodeID)
    requires id in w.m.nodes && id != w.m.controller && p != id && o(PublishTarget) != Ok
    ensures var (w', ok) := Announce(w, id, o); !ok && MachineOf(w', p) == MachineOf(w, p)
  {
  }

  /** The node itself is told of its new lifecycle before any other machine is. */
  lemma TargetIsToldFirst(w: World, use: Use, id: NodeID, o: Oracle, p: NodeID)
    requires Inv(w) && use != UseRemove && id != w.m.controller && p != id
    requires MachineOf(RunLifecycle(w, use, id, o).0, p) != MachineOf(w, p)
    ensures o(PublishTarget) == Ok
  {
    if id in w.m.nodes && o(PublishTarget) != Ok {
      ChangeKeeps(w, use, id, o);
      ChangeKeepsMachines(w, use, id, o);
      var (w1, ok1) := Change(w, use, id, o);
      if ok1 {
        ChangedIsMember(w, use, id, o);
        AnnouncedOnlyAfterTarget(w1, id, o, p);
      }
    }
  }

  lemma ChangedIsMember(w: World, use: Use, id: NodeID, o: Oracle)
    requires Inv(w) && use != UseRemove && id in w.m.nodes && Change(w, use, id, o).1
    ensures id in Change(w, use, id, o).0.m.nodes && Change(w, use, id, o).0.m.controller == w.m.controller
  {
    LatchExactly(w, id, o(LatchOn));
    var (w1, _) := if Latches(use) then SetDeny(w, id, true, o(LatchOn)) else (w, true);
    ActionExactly(w1, use, id, o);
  }

  lemma NeededForRemoval(s: State, id: NodeID, o: Oracle)
    ensures (forall c :: Needs(s, UseRemove, id, c) ==> o(c) == Ok) <==> Reaches(s, id, o, 4) && o(Complete) == Ok
  {
    assert Needs(s, UseRemove, id, Complete);
    if Reaches(s, id, o, 4) && o(Complete) == Ok {
      forall c | Needs(s, UseRemove, id, c) ensures o(c) == Ok { assert Stage(c) <= 4; }
    }
  }

  /** Exactly when a lifecycle command reports success. */
  lemma SucceedsExactly(w: World, use: Use, id: NodeID, o: Oracle)
    requires Inv(w)
    ensures RunLifecycle(w, use, id, o).1 <==>
      if AlreadyRemoved(w.m, use, id) then o(Open) == Ok
      else Accepts(w.m, use, id) && forall c :: Needs(w.m, use, id, c) ==> o(c) == Ok
  {
    if !Accepts(w.m, use, id) {
      NotAccepted(w, use, id, o);
    } else if use == UseRemove {
      RemovalGetsExactly(w, id, o);
      NeededForRemoval(w.m, id, o);
    } else {
      ChangeGetsExactly(w, use, id, o);
    }
  }

  // ---------------------------------------------------------------- completion

  lemma FinishIsLocal(w: World, use: Use, id: NodeID, o: Oracle)
    ensures Local(w.m, Finish(w, use, id, o).0.m, id)
    ensures use != UseRemove ==> Finish(w, use, id, o).0.m == w.m
  {
  }

  lemma LocalThenSame(s: State, t: State, u: State, id: NodeID)
    requires Local(s, t, id) && Local(t, u, id)
    ensures Local(s, u, id)
  {
  }

  /** A lifecycle command touches the membership of no node but its own. */
  lemma LifecycleIsLocal(w: World, use: Use, id: NodeID, o: Oracle)
    requires Inv(w)
    ensures Local(w.m, RunLifecycle(w, use, id, o).0.m, id)
  {
    if Accepts(w.m, use, id) {
      ChangeKeeps(w, use, id, o);
      var (w1, ok1) := Change(w, use, id, o);
      AnnounceKeeps(w1, id, o);
      var (w2, ok2) := Announce(w1, id, o);
      FinishIsLocal(w2, use, id, o);
      LocalThenSame(w.m, w1.m, Finish(w2, use, id, o).0.m, id);
    } else {
      NotAccepted(w, use, id, o);
    }
  }

  /** Only a removal touches tombstones and recorded removals. */
  lemma OthersRemoveNothing(w: World, use: Use, id: NodeID, o: Oracle)
    requires Inv(w) && use != UseRemove
    ensures var m := RunLifecycle(w, use, id, o).0.m; m.tombstones == w.m.tombstones && m.removals == w.m.removals
  {
    if Accepts(w.m, use, id) {
      ChangeKeeps(w, use, id, o);
      LatchExactly(w, id, o(LatchOn));
      var (w0, ok0) := if Latches(use) then SetDeny(w, id, true, o(LatchOn)) else (w, true);
      if ok0 { ActionExactly(w0, use, id, o); }
      var (w1, ok1) := Change(w, use, id, o);
      AnnounceKeeps(w1, id, o);
      FinishIsLocal(Announce(w1, id, o).0, use, id, o);
    } else {
      NotAccepted(w, use, id, o);
    }
  }

  lemma EnrolmentRemovesNothing(w: World, id: NodeID, matches: bool, o: Oracle)
    requires Inv(w)
    ensures var m := RunEnroll(w, id, matches, o).0.m; m.tombstones == w.m.tombstones && m.removals == w.m.removals
  {
    AdmitExactly(w, id, o);
    var (w1, ok1) := AdmitStep(w, id, o);
    if ok1 && id in w1.m.nodes {
      ReadyStepKeeps(w1, id, o);
      ReadyRemovesNothing(w1, id, o);
      SpreadKeepsMembers(ReadyStep(w1, id, o).0, o);
    }
  }

  lemma ReadyRemovesNothing(w: World, id: NodeID, o: Oracle)
    requires id in w.m.nodes
    ensures var m := ReadyStep(w, id, o).0.m; m.tombstones == w.m.tombstones && m.removals == w.m.removals
  {
  }

  lemma SpreadKeepsMembers(w: World, o: Oracle)
    requires Inv(w)
    ensures SpreadStep(w, o).0.m == w.m
  {
    ControllerKeeps(w, {}, o(ControllerMesh));
    var (w1, _) := ReconcileController(w, {}, o(ControllerMesh));
    PublishEachKeeps(w1, SortedNames(w1.m.nodes.Keys - {w1.m.controller}), {}, p => PublishPeer(p), o);
  }

  /** A removal becomes complete only under its own command, after the target answered that
      its mesh is gone, and leaves the target without a mesh. */
  lemma CompletedOnlyAfterCleanup(w: World, c: Command, o: Oracle, x: NodeID)
    requires Inv(w) && !Completed(w.m, x) && Completed(Run(w, c, o).0.m, x)
    ensures c == Command.Lifecycle(UseRemove, x) && o(Cleanup) == Ok && o(Complete) != Refused
    ensures Mesh(Run(w, c, o).0, x) == {}
  {
    match c {
      case Lifecycle(use, id) =>
        RunLifecycleKeeps(w, use, id, o);
        if use != UseRemove {
          OthersRemoveNothing(w, use, id, o);
        } else if id != x {
          LifecycleIsLocal(w, use, id, o);
        } else if Accepts(w.m, use, id) {
          RemovalGetsExactly(w, id, o);
          LastStage(w.m, id, o);
          assert Progress(RunLifecycle(w, use, id, o).0.m, id) >= 4;
        } else {
          NotAccepted(w, use, id, o);
        }
      case Enroll(id, matches) => EnrolmentRemovesNothing(w, id, matches, o);
    }
  }

  // ---------------------------------------------------------------- enrolment

  /** What an enrolment needs: the identity, a place in the file, the worker's attestation, and
      every worker told. */
  ghost predicate Enrolls(s: State, id: NodeID, matches: bool, o: Oracle) {
    && o(Open) == Ok && o(Identity) == Ok
    && (if id in s.nodes then matches && s.nodes[id].lifecycle in {Joining, Ready}
        else id !in s.tombstones && o(EnrollCall) == Ok)
    && o(PublishTarget) == Ok
    && (o(ReadyCall) == Ok || (id in s.nodes && s.nodes[id].lifecycle == Ready))
    && o(ReadBack) == Ok && o(ControllerMesh) == Ok
    && forall p :: (p in s.nodes || p == id) && p != s.controller ==> o(PublishPeer(p)) == Ok
  }

  lemma AdmitExactly(w: World, id: NodeID, o: Oracle)
    requires Inv(w)
    ensures var (w', ok) := AdmitStep(w, id, o);
            && Inv(w') && w'.m.controller == w.m.controller
            && w'.m.tombstones == w.m.tombstones && w'.m.removals == w.m.removals
            && (ok <==> id in w.m.nodes || (id !in w.m.tombstones && o(EnrollCall) == Ok))
            && (ok ==> w'.m.nodes.Keys == w.m.nodes.Keys + {id}
                       && w'.m.nodes[id].lifecycle == if id in w.m.nodes then w.m.nodes[id].lifecycle else Joining)
  {
    CommitKeeps(w, id, EnrollWorker(w.m, id), o(EnrollCall));
  }

  lemma ReadyExactly(w: World, id: NodeID, o: Oracle)
    requires Inv(w) && id in w.m.nodes && w.m.nodes[id].lifecycle in {Joining, Ready}
    ensures var (w', ok) := ReadyStep(w, id, o);
            && Inv(w') && w'.m.controller == w.m.controller && w'.m.nodes.Keys == w.m.nodes.Keys
            && (ok <==> o(PublishTarget) == Ok && (w.m.nodes[id].lifecycle == Joining ==> o(ReadyCall) == Ok))
            && (ok ==> w'.m.nodes[id].lifecycle == Ready)
  {
    ReadyStepKeeps(w, id, o);
    PublishKeeps(w, id, {}, o(PublishTarget));
  }

  /** After the spread every machine runs the whole membership. */
  lemma SpreadExactly(w: World, o: Oracle)
    requires Inv(w)
    ensures var (w', ok) := SpreadStep(w, o);
            && w'.m == w.m
            && (ok <==> o(ControllerMesh) == Ok && forall p :: p in w.m.nodes && p != w.m.controller ==> o(PublishPeer(p)) == Ok)
            && (ok ==> Converged(w'))
  {
    ControllerKeeps(w, {}, o(ControllerMesh));
    var (w1, ok1) := ReconcileController(w, {}, o(ControllerMesh));
    var workers := SortedNames(w.m.nodes.Keys - {w.m.controller});
    PassExactly(w1, workers, {}, p => PublishPeer(p), o);
    PublishEachKeeps(w1, workers, {}, p => PublishPeer(p), o);
    forall p ensures p in workers <==> p in w.m.nodes && p != w.m.controller { assert p in Elements(workers) <==> p in workers; }
  }

  /** From the point where the node is in the file. */
  lemma AdmittedExactly(w: World, id: NodeID, o: Oracle)
    requires Inv(w) && id in w.m.nodes && w.m.nodes[id].lifecycle in {Joining, Ready}
    ensures var (w2, ok2) := ReadyStep(w, id, o);
            var (w', ok) := if !ok2 || o(ReadBack) != Ok then (w2, false) else SpreadStep(w2, o);
            && (ok <==> && o(PublishTarget) == Ok && (w.m.nodes[id].lifecycle == Joining ==> o(ReadyCall) == Ok)
                        && o(ReadBack) == Ok && o(ControllerMesh) == Ok
                        && forall p :: p in w.m.nodes && p != w.m.controller ==> o(PublishPeer(p)) == Ok)
            && (ok ==> id in w'.m.nodes && w'.m.nodes[id].lifecycle == Ready && w'.m.nodes.Keys == w.m.nodes.Keys && Converged(w'))
  {
    ReadyExactly(w, id, o);
    SpreadExactly(ReadyStep(w, id, o).0, o);
  }

  /** An enrolment succeeds exactly when its calls do; then the node is ready, and every machine
      runs exactly the active membership and attests it. */
  lemma EnrolsExactly(w: World, id: NodeID, matches: bool, o: Oracle)
    requires Inv(w)
    ensures var (w', ok) := RunEnroll(w, id, matches, o);
            && (ok <==> Enrolls(w.m, id, matches, o))
            && (ok ==> id in w'.m.nodes && w'.m.nodes[id].lifecycle == Ready
                       && w'.m.nodes.Keys == w.m.nodes.Keys + {id} && Converged(w'))
  {
    AdmitExactly(w, id, o);
    var (w1, ok1) := AdmitStep(w, id, o);
    if ok1 && w1.m.nodes[id].lifecycle in {Joining, Ready} { AdmittedExactly(w1, id, o); }
  }
}
