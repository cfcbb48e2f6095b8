/** The upgrade as the command runs it: a loop over the plan with a block flag, the recheck
    loop over every configured server, and one node's upgrade call by call with its rollback
    path. Each method is proved against `RollingUpgrade` and `NodeUpgrade`. */
module Upgrader {
  import opened Counting
  import opened Names
  import opened NodeUpgrade
  import opened Options
  import opened RollingUpgrade

  /** The servers of a list that a recheck does not skip. */
  function Rechecked(cfg: Config, controller: string, names: seq<string>): seq<string> {
    if names == [] then []
    else
      var rest := Rechecked(cfg, controller, names[1..]);
      if names[0] != controller && IsWorker(Roles(cfg, names[0])) then [names[0]] + rest else rest
  }

  lemma {:induction false} RecheckedElements(cfg: Config, controller: string, names: seq<string>)
    requires Sorted(names)
    ensures Sorted(Rechecked(cfg, controller, names))
    ensures forall n :: n in Rechecked(cfg, controller, names) <==> n in names && n != controller && IsWorker(Roles(cfg, n))
  {
    if names == [] {
    } else {
      RecheckedElements(cfg, controller, names[1..]);
      assert names == [names[0]] + names[1..];
      forall n | n in names[1..] ensures Less(names[0], n) {
        var i :| 0 <= i < |names[1..]| && names[1..][i] == n;
        assert n == names[i + 1];
      }
    }
  }

  /** Skipping inside the loop visits the same workers in the same order as sorting only them. */
  lemma SkippingIsFiltering(cfg: Config, controller: string)
    ensures Rechecked(cfg, controller, SortedNames(cfg.Keys)) == OtherWorkers(cfg, controller)
  {
    var names := SortedNames(cfg.Keys);
    RecheckedElements(cfg, controller, names);
    forall n ensures n in names <==> n in cfg {
      assert n in Elements(names) <==> n in cfg.Keys;
    }
    assert Elements(Rechecked(cfg, controller, names)) == Elements(OtherWorkers(cfg, controller));
    SortedUnique(Rechecked(cfg, controller, names), OtherWorkers(cfg, controller));
  }

  /** What is reported so far, followed by the run over the rest of the plan, is the whole run. */
  ghost predicate Remains(f: Fleet, outs: seq<NodeOutcome>, plan: seq<Planned>, cfg: Config, target: string,
                          locked: bool, blocked: bool, net: Network, whole: (Fleet, seq<NodeOutcome>))
    requires Known(f, plan)
  {
    var (f', rest) := RunPlan(f, plan, cfg, target, locked, blocked, net);
    (f', outs + rest) == whole
  }

  lemma TurnTaken(f: Fleet, outs: seq<NodeOutcome>, plan: seq<Planned>, cfg: Config, target: string,
                  locked: bool, blocked: bool, net: Network, whole: (Fleet, seq<NodeOutcome>))
    requires Known(f, plan) && plan != [] && Remains(f, outs, plan, cfg, target, locked, blocked, net, whole)
    ensures var (f1, outcome, stop) := Turn(f, plan[0], cfg, target, locked, blocked, net);
            && Known(f1, plan[1..])
            && Remains(f1, outs + [NodeOutcome(plan[0].name, outcome)], plan[1..], cfg, target, locked, stop, net, whole)
  {
    var (f1, outcome, stop) := Turn(f, plan[0], cfg, target, locked, blocked, net);
    TurnKeepsKeys(f, plan[0], cfg, target, locked, blocked, net);
    var rest := RunPlan(f1, plan[1..], cfg, target, locked, stop, net).1;
    assert outs + [NodeOutcome(plan[0].name, outcome)] + rest == outs + ([NodeOutcome(plan[0].name, outcome)] + rest);
  }

  lemma PlannedIsKnown(f: Fleet, cfg: Config, names: seq<string>)
    requires Plannable(cfg, names) && Enrolled(cfg, names) && forall n :: n in names ==> n in f.machines
    ensures Known(f, StagedPlan(cfg, names)) && StagedPlan(cfg, names) != []
  {
    var plan := StagedPlan(cfg, names);
    StagedPlanCovers(cfg, names);
    forall p | p in plan ensures p.name in f.machines {
      var i :| 0 <= i < |plan| && plan[i] == p;
      assert PlanNames(plan)[i] == p.name;
      assert p.name in multiset(PlanNames(plan));
    }
    assert names[0] in multiset(PlanNames(plan));
  }

  class Cluster {
    var machines: map<string, Machine>
    var trace: seq<Event>
    const net: Network
    const cfg: Config
    const target: string

    constructor (machines: map<string, Machine>, net: Network, cfg: Config, target: string)
      ensures View() == Fleet(machines, []) && this.net == net && this.cfg == cfg && this.target == target
    {
      this.machines, this.trace, this.net, this.cfg, this.target := machines, [], net, cfg, target;
    }

    ghost function View(): Fleet
      reads this
    {
      Fleet(machines, trace)
    }

    // -------------------------------------------------------------- one node

    method BeginNodeUpgrade(name: string) returns (ok: bool)
      requires name in machines
      modifies this
      ensures View() == Fleet(old(machines)[name := StageNode(old(machines)[name], target, net(name, Begin))],
                              old(trace) + [Begun(name)])
      ensures ok ==> machines[name].marker == Pending && machines[name].binary == target
                     && machines[name].savedBinary == RolledBackMachine(old(machines)[name]).binary
      ensures ok == net(name, Begin).ok
    {
      trace := trace + [Begun(name)];
      var r := net(name, Begin);
      machines := machines[name := StageNode(machines[name], target, r)];
      ok := r.ok;
    }

    method RollbackScript(name: string, attempt: Call) returns (ok: bool)
      requires name in machines
      modifies this`machines
      ensures var (m, done) := RunRollbackScript(old(machines)[name], net(name, attempt));
              machines == old(machines)[name := m] && ok == done
      ensures ok ==> machines[name].marker == Clean
      ensures old(machines)[name].marker == Committed ==> !ok && machines == old(machines)
    {
      var r := net(name, attempt);
      var m := machines[name];
      if r.ok || r.applied {
        machines := machines[name := RolledBackMachine(m)];
        return r.ok && m.marker != Committed;
      }
      if r.partial && m.marker == Pending {
        machines := machines[name := m.(binary := m.savedBinary, manifest := m.savedManifest)];
      } else {
        machines := machines[name := m];
      }
      ok := false;
    }

    method RollbackUpgrade(name: string) returns (ok: bool)
      requires name in machines
      modifies this`machines
      ensures var (m, done) := RollbackTransaction(old(machines)[name], On(net, name));
              machines == old(machines)[name := m] && ok == done
    {
      if !net(name, RetainForRollback).ok {
        machines := machines[name := machines[name]];
        return false;
      }
      ok := RollbackScript(name, RollbackFirst);
      if !ok {
        ok := RollbackScript(name, RollbackSecond);
      }
      if ok { ok := net(name, ReleaseLock).ok; }
    }

    method WriteVersionFile(name: string, version: string, call: Call) returns (ok: bool)
      requires name in machines
      modifies this`machines
      ensures var (m, done) := PublishManifest(old(machines)[name], version, net(name, call));
              machines == old(machines)[name := m] && ok == done
    {
      var r := net(name, call);
      if r.ok || r.applied {
        machines := machines[name := machines[name].(manifest := version)];
      } else {
        machines := machines[name := machines[name]];
      }
      ok := r.ok;
    }

    method CommitUpgrade(name: string) returns (ok: bool)
      requires name in machines
      modifies this`machines
      ensures var (m, done) := CommitTransaction(old(machines)[name], On(net, name));
              machines == old(machines)[name := m] && ok == done
      ensures ok ==> machines[name] == old(machines)[name].(marker := Committed)
    {
      var m := machines[name];
      machines := machines[name := m];
      if !net(name, RetainForCommit).ok { return false; }
      var r := net(name, CommitScript);
      if m.marker == Pending && (r.ok || r.applied) {
        machines := machines[name := m.(marker := Committed)];
      }
      if r.ok && m.marker == Pending { return true; }
      ok := net(name, CommitProbe).ok && machines[name].marker == Committed;
    }

    /** The rollback closure of one node's upgrade. */
    method Rollback(name: string, manifest: string) returns (outcome: Outcome)
      requires name in machines
      modifies this`machines
      ensures var (m, o) := RollbackNode(old(machines)[name], manifest, On(net, name));
              machines == old(machines)[name := m] && outcome == o
    {
      var rolledBack := RollbackUpgrade(name);
      var restored := WriteVersionFile(name, manifest, RestoreManifest);
      if rolledBack && restored && KnownPrevious(On(net, name)) {
        rolledBack := net(name, WaitPrevious).ok;
      }
      outcome := if rolledBack && restored then RolledBack else Failed;
    }

    method ActivateAndVerify(name: string, enrolled: bool, stage: Stage) returns (ok: bool)
      ensures ok == Verifies(enrolled, stage, target, On(net, name)) == Attests(enrolled, stage, target, On(net, name))
    {
      if !net(name, Activate).ok { return false; }
      var verified := net(name, WaitNew);
      if !verified.ok || verified.status.version != target { return false; }
      if !verified.status.protocol || !verified.status.upgradeCapability { return false; }
      if enrolled && !verified.status.handoffCapability { return false; }
      if !net(name, VerifyServices).ok { return false; }
      if stage == ControllerLast {
        var worker := net(name, WaitWorkerSocket);
        if !worker.ok || worker.status.version != target || !worker.status.identity { return false; }
      }
      ok := true;
    }

    /** The manifest and the commit of a node that verified. */
    method PublishAndCommit(name: string) returns (ok: bool)
      requires name in machines
      modifies this`machines
      ensures var (m1, ok1) := PublishManifest(old(machines)[name], target, net(name, WriteManifest));
              var (m2, ok2) := if ok1 then CommitTransaction(m1, On(net, name)) else (m1, false);
              machines == old(machines)[name := m2] && ok == ok2
    {
      ok := WriteVersionFile(name, target, WriteManifest);
      if ok { ok := CommitUpgrade(name); }
    }

    method FinishStagedUpgrade(name: string, manifest: string, enrolled: bool, stage: Stage) returns (outcome: Outcome)
      requires name in machines
      modifies this`machines
      ensures var (m, o) := AfterStaging(old(machines)[name], manifest, enrolled, stage, target, On(net, name));
              machines == old(machines)[name := m] && outcome == o
    {
      var ok := ActivateAndVerify(name, enrolled, stage);
      if ok {
        ok := PublishAndCommit(name);
        if ok { return Upgraded; }
      }
      outcome := Rollback(name, manifest);
    }

    method UpgradeServerNode(p: Planned) returns (outcome: Outcome)
      requires p.name in machines
      modifies this
      ensures (View(), outcome) == UpgradeOne(old(View()), p, cfg, target, net)
    {
      var enrolled := Roles(cfg, p.name) != [];
      assert machines == machines[p.name := machines[p.name]];
      if !net(p.name, Connect).ok { return Failed; }
      var probed := net(p.name, Probe);
      if probed.ok {
        if !probed.status.compatible { return Failed; }
        if enrolled && !probed.status.identity { return Failed; }
        if probed.status.downgrade { return Failed; }
      } else if enrolled {
        return Failed;
      }
      if !net(p.name, Detect).ok { return Failed; }
      var manifest := machines[p.name].manifest;
      var staged := BeginNodeUpgrade(p.name);
      if !staged { return Failed; }
      outcome := FinishStagedUpgrade(p.name, manifest, enrolled, p.stage);
      assert machines == old(machines)[p.name := machines[p.name]];
    }

    // -------------------------------------------------------------- the plan

    /** Walk every configured server in name order, skipping what is not another worker. */
    method ValidateControllerLastWorkers(controller: string, probe: Call) returns (ok: bool)
      modifies this`trace
      ensures (View(), ok) == RecheckEach(old(View()), OtherWorkers(cfg, controller), target, probe, net)
    {
      SkippingIsFiltering(cfg, controller);
      ok := RecheckNamed(SortedNames(cfg.Keys), controller, probe);
    }

    method RecheckNamed(names: seq<string>, controller: string, probe: Call) returns (ok: bool)
      modifies this`trace
      ensures (View(), ok) == RecheckEach(old(View()), Rechecked(cfg, controller, names), target, probe, net)
    {
      var i := 0;
      ghost var whole := RecheckEach(View(), Rechecked(cfg, controller, names), target, probe, net);
      assert names[0..] == names;
      while i < |names|
        invariant 0 <= i <= |names|
        invariant RecheckEach(View(), Rechecked(cfg, controller, names[i..]), target, probe, net) == whole
      {
        var name := names[i];
        assert names[i..][1..] == names[i + 1..];
        i := i + 1;
        if name != controller && IsWorker(Roles(cfg, name)) {
          var r := net(name, probe);
          if !r.ok { return false; }
          trace := trace + [Observed(name, r.status)];
          if !AtTarget(r.status, target) { return false; }
        }
      }
      ok := true;
    }

    method PreflightNodes(plan: seq<Planned>) returns (ok: bool)
      ensures ok <==> forall p :: p in plan ==> PassesPreflight(p, net)
    {
      var i := 0;
      while i < |plan|
        invariant 0 <= i <= |plan| && forall j :: 0 <= j < i ==> PassesPreflight(plan[j], net)
      {
        var r := net(plan[i].name, Preflight);
        if !r.ok || !r.status.compatible || !r.status.identity || r.status.downgrade {
          assert plan[i] in plan && !PassesPreflight(plan[i], net);
          return false;
        }
        i := i + 1;
      }
      ok := true;
    }

    method PrepareRun(plan: seq<Planned>, targeted: bool) returns (ok: bool)
      requires plan != []
      modifies this`trace
      ensures (View(), ok) == Prepare(old(View()), plan, cfg, target, targeted, net)
    {
      ok := PreflightNodes(plan);
      if !ok { return; }
      if |plan| == 1 && plan[0].stage == ControllerLast && targeted {
        ok := ValidateControllerLastWorkers(plan[0].name, PreflightRecheck);
        if !ok { return; }
      }
      var controllers := ControllersOf(cfg, SortedNames(cfg.Keys));
      if |controllers| != 1 { return false; }
      ok := net(controllers[0], AcquireCoordinator).ok;
    }

    /** One turn of the loop for a node that is not blocked. */
    method TakeTurn(p: Planned, locked: bool) returns (outcome: Outcome)
      requires p.name in machines
      modifies this
      ensures (View(), outcome) == Attempt(old(View()), p, cfg, target, locked, net)
    {
      if locked && !net(p.name, RefreshCoordinator).ok { return Blocked; }
      if p.stage == ControllerLast {
        var ready := ValidateControllerLastWorkers(p.name, Recheck);
        if !ready { return Blocked; }
      }
      outcome := UpgradeServerNode(p);
    }

    method RunStages(plan: seq<Planned>, locked: bool) returns (outs: seq<NodeOutcome>)
      requires Known(View(), plan)
      modifies this
      ensures (View(), outs) == RunPlan(old(View()), plan, cfg, target, locked, false, net)
    {
      outs := [];
      var blocked := false;
      var i := 0;
      ghost var whole := RunPlan(View(), plan, cfg, target, locked, false, net);
      assert plan[0..] == plan && [] + whole.1 == whole.1;
      while i < |plan|
        invariant 0 <= i <= |plan| && Known(View(), plan[i..])
        invariant Remains(View(), outs, plan[i..], cfg, target, locked, blocked, net, whole)
      {
        var p := plan[i];
        assert p in plan[i..] && plan[i..][1..] == plan[i + 1..];
        TurnTaken(View(), outs, plan[i..], cfg, target, locked, blocked, net, whole);
        var outcome := Blocked;
        if !blocked { outcome := TakeTurn(p, locked); }
        outs := outs + [NodeOutcome(p.name, outcome)];
        blocked := blocked || outcome == Blocked || Blocks(p.stage, outcome);
        i := i + 1;
      }
      assert outs + [] == outs;
    }

    /** The whole command, after its plan is made. */
    method RunUpgradeServers(plan: seq<Planned>, targeted: bool) returns (outs: seq<NodeOutcome>)
      requires Known(View(), plan) && plan != []
      modifies this
      ensures (View(), outs) == Execute(old(View()), plan, cfg, target, targeted, net)
    {
      if plan[0].stage == Legacy {
        outs := RunStages(plan, false);
        return;
      }
      PrepareKeepsMachines(View(), plan, cfg, target, targeted, net);
      var ready := PrepareRun(plan, targeted);
      if !ready { return AllBlocked(plan); }
      outs := RunStages(plan, true);
    }

    /** From the selected servers to their outcomes. An enrolled selection without repetitions
        is upgraded safely whatever the network answers, and legacy servers never block. */
    method UpgradeSelection(names: seq<string>, targeted: bool) returns (outs: Option<seq<NodeOutcome>>)
      requires forall n :: n in names ==> n in machines
      modifies this
      ensures outs.Some? <==> Plannable(cfg, names)
      ensures outs.None? ==> View() == old(View())
      ensures outs.Some? && Enrolled(cfg, names) && Distinct(names) ==>
                var plan := StagedPlan(cfg, names);
                && PlanRan(old(View()), View(), plan, cfg, target)
                && |outs.value| == |plan| && (forall i :: 0 <= i < |plan| ==> outs.value[i].name == plan[i].name)
                && Stopped(old(View()), View(), plan, outs.value)
      ensures outs.Some? && !Enrolled(cfg, names) ==>
                |outs.value| == |names| && forall i :: 0 <= i < |names| ==> outs.value[i].outcome != Blocked
    {
      var plan := PlanNodeUpgrade(cfg, names);
      if plan.None? { return None; }
      ghost var before := View();
      if Enrolled(cfg, names) {
        PlannedIsKnown(before, cfg, names);
        StagedPlanIsOrdered(cfg, names);
        if Distinct(names) {
          StagedPlanIsDistinct(cfg, names);
          StagedUpgradeIsSafe(before, plan.value, cfg, target, targeted, net);
        }
      } else {
        LegacyNeverBlocks(before, plan.value, cfg, target, net);
      }
      var reported := RunUpgradeServers(plan.value, targeted);
      outs := Some(reported);
    }
  }
}
