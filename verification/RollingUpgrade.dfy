/** The staged upgrade of a cluster: a worker-first, controller-last plan, the coordinator
    lock, the recheck of every worker before the controller, and the block flag. */
module RollingUpgrade {
  import opened Counting
  import opened Names
  import opened NodeUpgrade
  import opened Options

  const CONTROL_PLANE := "control-plane"
  const WORKER := "worker"

  datatype Server = Server(roles: seq<string>)

  type Config = map<string, Server>

  datatype Planned = Planned(name: string, stage: Stage)

  datatype NodeOutcome = NodeOutcome(name: string, outcome: Outcome)

  /** What a run does to the outside, in order: statuses read in a recheck, and the moment
      a node's transaction is begun. */
  datatype Event = Observed(worker: string, status: Status) | Begun(node: string)

  datatype Fleet = Fleet(machines: map<string, Machine>, trace: seq<Event>)

  type Network = (string, Call) -> Reply

  function On(net: Network, name: string): Oracle {
    c => net(name, c)
  }

  // ---------------------------------------------------------------- the plan

  predicate IsController(roles: seq<string>) {
    CONTROL_PLANE in roles
  }

  predicate IsWorker(roles: seq<string>) {
    roles != [] && WORKER in roles && CONTROL_PLANE !in roles
  }

  function Roles(cfg: Config, name: string): seq<string> {
    if name in cfg then cfg[name].roles else []
  }

  predicate Enrolled(cfg: Config, names: seq<string>) {
    exists n :: n in names && Roles(cfg, n) != []
  }

  /** Which selections of servers can be planned. */
  predicate Plannable(cfg: Config, names: seq<string>) {
    && names != []
    && (Enrolled(cfg, names) ==>
          && (forall n :: n in names ==> IsController(Roles(cfg, n)) || IsWorker(Roles(cfg, n)))
          && |ControllersOf(cfg, names)| <= 1)
  }

  function WorkersOf(cfg: Config, names: seq<string>): seq<string> {
    if names == [] then []
    else
      var last := names[|names| - 1];
      WorkersOf(cfg, names[..|names| - 1]) + if IsWorker(Roles(cfg, last)) then [last] else []
  }

  function ControllersOf(cfg: Config, names: seq<string>): seq<string> {
    if names == [] then []
    else
      var last := names[|names| - 1];
      ControllersOf(cfg, names[..|names| - 1]) + if IsController(Roles(cfg, last)) then [last] else []
  }

  /** The workers in the order given, the first of them the canary. */
  function WorkerPlan(workers: seq<string>): seq<Planned> {
    seq(|workers|, i requires 0 <= i < |workers| => Planned(workers[i], if i == 0 then Canary else Workers))
  }

  /** The workers of a selection in name order, and then its controller. */
  function StagedPlan(cfg: Config, names: seq<string>): seq<Planned> {
    var controllers := ControllersOf(cfg, names);
    WorkerPlan(SortedList(WorkersOf(cfg, names)))
    + if controllers == [] then [] else [Planned(controllers[0], ControllerLast)]
  }

  method AnyEnrolled(cfg: Config, names: seq<string>) returns (enrolled: bool)
    ensures enrolled == Enrolled(cfg, names)
  {
    enrolled := false;
    var i := 0;
    while i < |names| && !enrolled
      invariant 0 <= i <= |names|
      invariant enrolled <==> exists j :: 0 <= j < i && Roles(cfg, names[j]) != []
    {
      enrolled := Roles(cfg, names[i]) != [];
      i := i + 1;
    }
  }

  /** Sort the selected nodes into workers and controllers; a node that is neither ends it. */
  method Partition(cfg: Config, names: seq<string>) returns (ok: bool, workers: seq<string>, controllers: seq<string>)
    ensures ok <==> forall n :: n in names ==> IsController(Roles(cfg, n)) || IsWorker(Roles(cfg, n))
    ensures ok ==> workers == WorkersOf(cfg, names) && controllers == ControllersOf(cfg, names)
  {
    workers, controllers := [], [];
    var i := 0;
    while i < |names|
      invariant 0 <= i <= |names|
      invariant forall j :: 0 <= j < i ==> IsController(Roles(cfg, names[j])) || IsWorker(Roles(cfg, names[j]))
      invariant workers == WorkersOf(cfg, names[..i]) && controllers == ControllersOf(cfg, names[..i])
    {
      var roles := Roles(cfg, names[i]);
      assert names[..i + 1][..i] == names[..i];
      if CONTROL_PLANE in roles {
        controllers := controllers + [names[i]];
      } else if WORKER in roles {
        workers := workers + [names[i]];
      } else {
        assert names[i] in names;
        return false, workers, controllers;
      }
      i := i + 1;
    }
    assert names[..i] == names;
    ok := true;
  }

  /** A legacy plan keeps the order given; a selection with enrolled nodes is staged. */
  method PlanNodeUpgrade(cfg: Config, names: seq<string>) returns (plan: Option<seq<Planned>>)
    ensures plan.Some? <==> Plannable(cfg, names)
    ensures plan.Some? && !Enrolled(cfg, names) ==>
              |plan.value| == |names| && forall i :: 0 <= i < |names| ==> plan.value[i] == Planned(names[i], Legacy)
    ensures plan.Some? && Enrolled(cfg, names) ==> plan.value == StagedPlan(cfg, names)
  {
    if names == [] { return None; }
    var enrolled := AnyEnrolled(cfg, names);
    if !enrolled {
      return Some(seq(|names|, k requires 0 <= k < |names| => Planned(names[k], Legacy)));
    }
    var ok, workers, controllers := Partition(cfg, names);
    if !ok || |controllers| > 1 { return None; }
    var staged := WorkerPlan(SortedList(workers));
    if |controllers| == 1 {
      staged := staged + [Planned(controllers[0], ControllerLast)];
    }
    plan := Some(staged);
  }

  function PlanNames(plan: seq<Planned>): seq<string> {
    seq(|plan|, i requires 0 <= i < |plan| => plan[i].name)
  }

  predicate DistinctNames(plan: seq<Planned>) {
    forall i, j :: 0 <= i < j < |plan| ==> plan[i].name != plan[j].name
  }

  lemma RolesExclude(cfg: Config, name: string)
    ensures !(IsController(Roles(cfg, name)) && IsWorker(Roles(cfg, name)))
  {
  }

  lemma CountOneMore(rest: seq<string>, one: seq<string>, other: seq<string>, x: string)
    requires multiset(one) + multiset(other) == multiset(rest)
    ensures multiset(one + [x]) + multiset(other) == multiset(rest + [x])
    ensures multiset(one) + multiset(other + [x]) == multiset(rest + [x])
  {
  }

  lemma {:induction false} PartitionCovers(cfg: Config, names: seq<string>)
    requires forall i :: 0 <= i < |names| ==> IsController(Roles(cfg, names[i])) || IsWorker(Roles(cfg, names[i]))
    ensures multiset(WorkersOf(cfg, names)) + multiset(ControllersOf(cfg, names)) == multiset(names)
  {
    if names == [] {
    } else {
      var init, last := names[..|names| - 1], names[|names| - 1];
      PartitionCovers(cfg, init);
      RolesExclude(cfg, last);
      CountOneMore(init, WorkersOf(cfg, init), ControllersOf(cfg, init), last);
      assert names == init + [last];
      if IsController(Roles(cfg, last)) {
        assert WorkersOf(cfg, names) == WorkersOf(cfg, init);
      } else {
        assert ControllersOf(cfg, names) == ControllersOf(cfg, init);
      }
    }
  }

  lemma WorkerPlanNames(workers: seq<string>)
    ensures PlanNames(WorkerPlan(workers)) == workers
  {
  }

  lemma PlanNamesAppend(a: seq<Planned>, b: seq<Planned>)
    ensures PlanNames(a + b) == PlanNames(a) + PlanNames(b)
  {
  }

  lemma StagedPlanNames(cfg: Config, names: seq<string>)
    requires |ControllersOf(cfg, names)| <= 1
    ensures PlanNames(StagedPlan(cfg, names)) == SortedList(WorkersOf(cfg, names)) + ControllersOf(cfg, names)
  {
    var workers, controllers := SortedList(WorkersOf(cfg, names)), ControllersOf(cfg, names);
    WorkerPlanNames(workers);
    if controllers == [] {
      assert StagedPlan(cfg, names) == WorkerPlan(workers);
    } else {
      var tail := [Planned(controllers[0], ControllerLast)];
      PlanNamesAppend(WorkerPlan(workers), tail);
      assert PlanNames(tail) == controllers;
    }
  }

  /** A staged plan covers the selection: every selected server as often as it was selected. */
  lemma StagedPlanCovers(cfg: Config, names: seq<string>)
    requires Plannable(cfg, names) && Enrolled(cfg, names)
    ensures multiset(PlanNames(StagedPlan(cfg, names))) == multiset(names)
  {
    forall i | 0 <= i < |names| ensures IsController(Roles(cfg, names[i])) || IsWorker(Roles(cfg, names[i])) {
      assert names[i] in names;
    }
    StagedPlanNames(cfg, names);
    PartitionCovers(cfg, names);
  }

  /** It names no server twice if the selection does not. */
  lemma StagedPlanIsDistinct(cfg: Config, names: seq<string>)
    requires Plannable(cfg, names) && Enrolled(cfg, names) && Distinct(names)
    ensures DistinctNames(StagedPlan(cfg, names))
  {
    var plan := StagedPlan(cfg, names);
    StagedPlanCovers(cfg, names);
    PermutedDistinct(PlanNames(plan), names);
    forall i, j | 0 <= i < j < |plan| ensures plan[i].name != plan[j].name {
      assert PlanNames(plan)[i] != PlanNames(plan)[j];
    }
  }

  lemma WorkerPlanIsOrdered(workers: seq<string>)
    requires NonDecreasing(workers)
    ensures var plan := WorkerPlan(workers);
            && (forall i :: 0 <= i < |plan| ==> plan[i].stage == Canary || plan[i].stage == Workers)
            && (forall i, j :: 0 <= i < j < |plan| ==> plan[i].name == plan[j].name || Less(plan[i].name, plan[j].name))
  {
  }

  /** A staged plan has no legacy node, its workers are in name order, and its controller, if
      any, comes last. */
  lemma StagedPlanIsOrdered(cfg: Config, names: seq<string>)
    ensures var plan := StagedPlan(cfg, names);
            && (forall i :: 0 <= i < |plan| ==> plan[i].stage != Legacy)
            && (forall i :: 0 <= i < |plan| && plan[i].stage == ControllerLast ==> i == |plan| - 1)
            && (forall i, j :: 0 <= i < j < |plan| && plan[j].stage != ControllerLast ==>
                  plan[i].name == plan[j].name || Less(plan[i].name, plan[j].name))
  {
    var plan, workers := StagedPlan(cfg, names), WorkerPlan(SortedList(WorkersOf(cfg, names)));
    WorkerPlanIsOrdered(SortedList(WorkersOf(cfg, names)));
    assert workers <= plan && |plan| <= |workers| + 1;
    assert |plan| > |workers| ==> plan[|workers|].stage == ControllerLast;
  }

  // ---------------------------------------------------------------- the run

  /** Every enrolled worker but the controller itself, in name order. */
  function OtherWorkers(cfg: Config, controller: string): seq<string> {
    SortedNames(set n | n in cfg && n != controller && IsWorker(cfg[n].roles))
  }

  predicate AtTarget(s: Status, target: string) {
    s.identity && s.version == target && s.protocol && s.upgradeCapability
  }

  /** Probe each worker in turn; the first that does not answer at the target ends it. */
  function RecheckEach(f: Fleet, workers: seq<string>, target: string, probe: Call, net: Network): (Fleet, bool)
    decreases |workers|
  {
    if workers == [] then (f, true)
    else
      var r := net(workers[0], probe);
      if !r.ok then (f, false)
      else
        var f1 := f.(trace := f.trace + [Observed(workers[0], r.status)]);
        if !AtTarget(r.status, target) then (f1, false) else RecheckEach(f1, workers[1..], target, probe, net)
  }

  /** The lock and, for the controller, the recheck that stand before a node's upgrade. */
  function Admit(f: Fleet, p: Planned, cfg: Config, target: string, locked: bool, net: Network): (Fleet, bool) {
    if locked && !net(p.name, RefreshCoordinator).ok then (f, false)
    else if p.stage == ControllerLast then RecheckEach(f, OtherWorkers(cfg, p.name), target, Recheck, net)
    else (f, true)
  }

  function UpgradeOne(f: Fleet, p: Planned, cfg: Config, target: string, net: Network): (Fleet, Outcome)
    requires p.name in f.machines
  {
    var enrolled := Roles(cfg, p.name) != [];
    var (m, outcome) := UpgradeNode(f.machines[p.name], enrolled, p.stage, target, On(net, p.name));
    (Fleet(f.machines[p.name := m],
           if MayBegin(enrolled, On(net, p.name)) then f.trace + [Begun(p.name)] else f.trace), outcome)
  }

  predicate Blocks(stage: Stage, outcome: Outcome) {
    stage != Legacy && (outcome == Failed || outcome == RolledBack)
  }

  predicate Known(f: Fleet, plan: seq<Planned>) {
    forall p :: p in plan ==> p.name in f.machines
  }

  /** One unblocked turn of the loop. */
  function Attempt(f: Fleet, p: Planned, cfg: Config, target: string, locked: bool, net: Network): (Fleet, Outcome)
    requires p.name in f.machines
  {
    var (f1, admitted) := Admit(f, p, cfg, target, locked, net);
    AdmitKeepsMachines(f, p, cfg, target, locked, net);
    if !admitted then (f1, Blocked) else UpgradeOne(f1, p, cfg, target, net)
  }

  /** A turn, blocked or not: the outcome, and whether the rest of the plan is blocked. */
  function Turn(f: Fleet, p: Planned, cfg: Config, target: string, locked: bool, blocked: bool, net: Network): (Fleet, Outcome, bool)
    requires p.name in f.machines
  {
    var (f1, outcome) := if blocked then (f, Blocked) else Attempt(f, p, cfg, target, locked, net);
    (f1, outcome, blocked || outcome == Blocked || Blocks(p.stage, outcome))
  }

  function RunPlan(f: Fleet, plan: seq<Planned>, cfg: Config, target: string, locked: bool, blocked: bool, net: Network): (Fleet, seq<NodeOutcome>)
    requires Known(f, plan)
    decreases |plan|
  {
    if plan == [] then (f, [])
    else
      var p := plan[0];
      var (f1, outcome, stop) := Turn(f, p, cfg, target, locked, blocked, net);
      TurnKeepsKeys(f, p, cfg, target, locked, blocked, net);
      var (f', rest) := RunPlan(f1, plan[1..], cfg, target, locked, stop, net);
      (f', [NodeOutcome(p.name, outcome)] + rest)
  }

  lemma TurnKeepsKeys(f: Fleet, p: Planned, cfg: Config, target: string, locked: bool, blocked: bool, net: Network)
    requires p.name in f.machines
    ensures var f1 := Turn(f, p, cfg, target, locked, blocked, net).0;
            && f1.machines.Keys == f.machines.Keys
            && forall n :: n in f.machines && n != p.name ==> f1.machines[n] == f.machines[n]
  {
    AttemptKeepsKeys(f, p, cfg, target, locked, net);
  }

  lemma AttemptKeepsKeys(f: Fleet, p: Planned, cfg: Config, target: string, locked: bool, net: Network)
    requires p.name in f.machines
    ensures var f' := Attempt(f, p, cfg, target, locked, net).0;
            && f'.machines.Keys == f.machines.Keys
            && forall n :: n in f.machines && n != p.name ==> f'.machines[n] == f.machines[n]
  {
    AdmitKeepsMachines(f, p, cfg, target, locked, net);
  }

  lemma {:induction false} RecheckKeepsMachines(f: Fleet, workers: seq<string>, target: string, probe: Call, net: Network)
    ensures RecheckEach(f, workers, target, probe, net).0.machines == f.machines
    decreases |workers|
  {
    if workers == [] {
    } else {
      var r := net(workers[0], probe);
      RecheckKeepsMachines(f.(trace := f.trace + [Observed(workers[0], r.status)]), workers[1..], target, probe, net);
    }
  }

  lemma AdmitKeepsMachines(f: Fleet, p: Planned, cfg: Config, target: string, locked: bool, net: Network)
    ensures Admit(f, p, cfg, target, locked, net).0.machines == f.machines
  {
    RecheckKeepsMachines(f, OtherWorkers(cfg, p.name), target, Recheck, net);
  }

  predicate PassesPreflight(p: Planned, net: Network) {
    var r := net(p.name, Preflight);
    r.ok && r.status.compatible && r.status.identity && !r.status.downgrade
  }

  function AllBlocked(plan: seq<Planned>): seq<NodeOutcome> {
    seq(|plan|, i requires 0 <= i < |plan| => NodeOutcome(plan[i].name, Blocked))
  }

  /** What must succeed before a staged plan touches a node: every planned node's preflight,
      the recheck for a controller asked for by name, and the coordinator lock. */
  function Prepare(f: Fleet, plan: seq<Planned>, cfg: Config, target: string, targeted: bool, net: Network): (Fleet, bool)
    requires plan != []
  {
    if exists p :: p in plan && !PassesPreflight(p, net) then (f, false)
    else
      var (f1, ok) := if |plan| == 1 && plan[0].stage == ControllerLast && targeted
                      then RecheckEach(f, OtherWorkers(cfg, plan[0].name), target, PreflightRecheck, net) else (f, true);
      var controllers := ControllersOf(cfg, SortedNames(cfg.Keys));
      (f1, ok && |controllers| == 1 && net(controllers[0], AcquireCoordinator).ok)
  }

  lemma PrepareKeepsMachines(f: Fleet, plan: seq<Planned>, cfg: Config, target: string, targeted: bool, net: Network)
    requires plan != []
    ensures Prepare(f, plan, cfg, target, targeted, net).0.machines == f.machines
  {
    RecheckKeepsMachines(f, OtherWorkers(cfg, plan[0].name), target, PreflightRecheck, net);
  }

  /** A whole run over a plan. `targeted` says one server was asked for by name. */
  function Execute(f: Fleet, plan: seq<Planned>, cfg: Config, target: string, targeted: bool, net: Network): (Fleet, seq<NodeOutcome>)
    requires Known(f, plan) && plan != []
  {
    if plan[0].stage == Legacy then RunPlan(f, plan, cfg, target, false, false, net)
    else
      var (f1, ready) := Prepare(f, plan, cfg, target, targeted, net);
      PrepareKeepsMachines(f, plan, cfg, target, targeted, net);
      if !ready then (f1, AllBlocked(plan)) else RunPlan(f1, plan, cfg, target, true, false, net)
  }

  // ---------------------------------------------------------------- results

  /** The events just before position `k` are one observation of each of these workers, in
      order, all at the target. */
  ghost predicate JustObserved(trace: seq<Event>, k: nat, workers: seq<string>, target: string) {
    && |workers| <= k <= |trace|
    && forall i :: 0 <= i < |workers| ==> IsObservation(trace[k - |workers| + i], workers[i], target)
  }

  predicate IsObservation(e: Event, worker: string, target: string) {
    && e.Observed? && e.worker == worker
    && e.status.version == target && e.status.identity && e.status.protocol && e.status.upgradeCapability
  }

  lemma {:induction false} RecheckObserves(f: Fleet, workers: seq<string>, target: string, probe: Call, net: Network)
    ensures var (f', ok) := RecheckEach(f, workers, target, probe, net);
            && f.trace <= f'.trace
            && (forall k :: |f.trace| <= k < |f'.trace| ==> f'.trace[k].Observed?)
            && (ok ==> |f'.trace| == |f.trace| + |workers| && JustObserved(f'.trace, |f'.trace|, workers, target))
    decreases |workers|
  {
    if workers == [] {
    } else {
      var r := net(workers[0], probe);
      if r.ok && AtTarget(r.status, target) {
        var f1 := f.(trace := f.trace + [Observed(workers[0], r.status)]);
        RecheckObserves(f1, workers[1..], target, probe, net);
        var (f', ok) := RecheckEach(f1, workers[1..], target, probe, net);
        if ok {
          forall i | 0 <= i < |workers| ensures IsObservation(f'.trace[|f.trace| + i], workers[i], target) {
            if i > 0 { assert workers[i] == workers[1..][i - 1]; }
          }
        }
      }
    }
  }

  /** The node begun at position `k` is planned and, if it is the controller, was begun
      right after every other worker had been observed at the target. */
  ghost predicate Accounted(trace: seq<Event>, k: nat, plan: seq<Planned>, cfg: Config, target: string)
    requires k < |trace| && trace[k].Begun?
  {
    exists p ::
      && p in plan && p.name == trace[k].node
      && (p.stage == ControllerLast ==> JustObserved(trace, k, OtherWorkers(cfg, p.name), target))
  }

  lemma ObservedExtends(t: seq<Event>, t': seq<Event>, k: nat, workers: seq<string>, target: string)
    requires t <= t' && JustObserved(t, k, workers, target)
    ensures JustObserved(t', k, workers, target)
  {
    forall i | 0 <= i < |workers| ensures IsObservation(t'[k - |workers| + i], workers[i], target) {
      assert IsObservation(t[k - |workers| + i], workers[i], target);
    }
  }

  /** What one run over a plan does, beginning after whatever is already in the trace. */
  ghost predicate PlanRan(f: Fleet, f': Fleet, plan: seq<Planned>, cfg: Config, target: string) {
    && f'.machines.Keys == f.machines.Keys
    && f.trace <= f'.trace
    && (forall k :: |f.trace| <= k < |f'.trace| && f'.trace[k].Begun? ==> Accounted(f'.trace, k, plan, cfg, target))
    && (forall n :: n in f.machines && f'.machines[n] != f.machines[n] ==> Begun(n) in f'.trace[|f.trace|..])
  }

  /** One turn on its own behaves like a plan of one node. */
  lemma AttemptRuns(f: Fleet, p: Planned, cfg: Config, target: string, locked: bool, net: Network)
    requires p.name in f.machines
    ensures PlanRan(f, Attempt(f, p, cfg, target, locked, net).0, [p], cfg, target)
  {
    AdmitKeepsMachines(f, p, cfg, target, locked, net);
    RecheckObserves(f, OtherWorkers(cfg, p.name), target, Recheck, net);
    var (f1, admitted) := Admit(f, p, cfg, target, locked, net);
    var (f', _) := Attempt(f, p, cfg, target, locked, net);
    assert f1.trace <= f'.trace <= f1.trace + [Begun(p.name)];
    forall k | |f.trace| <= k < |f'.trace| && f'.trace[k].Begun? ensures Accounted(f'.trace, k, [p], cfg, target) {
      assert k == |f1.trace| by { assert forall i :: |f.trace| <= i < |f1.trace| ==> f'.trace[i] == f1.trace[i]; }
      if p.stage == ControllerLast { ObservedExtends(f1.trace, f'.trace, k, OtherWorkers(cfg, p.name), target); }
      assert p in [p];
    }
    forall n | n in f.machines && f'.machines[n] != f.machines[n] ensures Begun(n) in f'.trace[|f.trace|..] {
      assert f'.trace[|f.trace|..][|f1.trace| - |f.trace|] == Begun(n);
    }
  }

  /** Two stretches of a run, one after the other. */
  lemma RanThenRan(f: Fleet, f1: Fleet, f': Fleet, a: seq<Planned>, b: seq<Planned>, cfg: Config, target: string)
    requires PlanRan(f, f1, a, cfg, target) && PlanRan(f1, f', b, cfg, target)
    ensures PlanRan(f, f', a + b, cfg, target)
  {
    assert forall i :: 0 <= i < |f1.trace| ==> f'.trace[i] == f1.trace[i];
    forall k | |f.trace| <= k < |f'.trace| && f'.trace[k].Begun? ensures Accounted(f'.trace, k, a + b, cfg, target) {
      if k < |f1.trace| {
        assert Accounted(f1.trace, k, a, cfg, target);
        var p :| p in a && p.name == f1.trace[k].node
          && (p.stage == ControllerLast ==> JustObserved(f1.trace, k, OtherWorkers(cfg, p.name), target));
        if p.stage == ControllerLast { ObservedExtends(f1.trace, f'.trace, k, OtherWorkers(cfg, p.name), target); }
        assert p in a + b;
      } else {
        assert Accounted(f'.trace, k, b, cfg, target);
        var p :| p in b && p.name == f'.trace[k].node
          && (p.stage == ControllerLast ==> JustObserved(f'.trace, k, OtherWorkers(cfg, p.name), target));
        assert p in a + b;
      }
    }
    forall n | n in f.machines && f'.machines[n] != f.machines[n] ensures Begun(n) in f'.trace[|f.trace|..] {
      if f'.machines[n] != f1.machines[n] {
        var k :| 0 <= k < |f'.trace[|f1.trace|..]| && f'.trace[|f1.trace|..][k] == Begun(n);
        assert f'.trace[|f.trace|..][|f1.trace| - |f.trace| + k] == Begun(n);
      } else {
        var k :| 0 <= k < |f1.trace[|f.trace|..]| && f1.trace[|f.trace|..][k] == Begun(n);
        assert f'.trace[|f.trace|..][k] == Begun(n);
      }
    }
  }

  lemma TurnRuns(f: Fleet, p: Planned, cfg: Config, target: string, locked: bool, blocked: bool, net: Network)
    requires p.name in f.machines
    ensures PlanRan(f, Turn(f, p, cfg, target, locked, blocked, net).0, [p], cfg, target)
  {
    if !blocked { AttemptRuns(f, p, cfg, target, locked, net); }
  }

  lemma {:induction false} RunPlanRuns(f: Fleet, plan: seq<Planned>, cfg: Config, target: string, locked: bool, blocked: bool, net: Network)
    requires Known(f, plan)
    ensures PlanRan(f, RunPlan(f, plan, cfg, target, locked, blocked, net).0, plan, cfg, target)
    decreases |plan|
  {
    if plan == [] {
    } else {
      var (f1, _, stop) := Turn(f, plan[0], cfg, target, locked, blocked, net);
      TurnKeepsKeys(f, plan[0], cfg, target, locked, blocked, net);
      TurnRuns(f, plan[0], cfg, target, locked, blocked, net);
      RunPlanRuns(f1, plan[1..], cfg, target, locked, stop, net);
      RanThenRan(f, f1, RunPlan(f1, plan[1..], cfg, target, locked, stop, net).0, [plan[0]], plan[1..], cfg, target);
      assert plan == [plan[0]] + plan[1..];
    }
  }

  /** One outcome per planned node, in plan order. */
  lemma {:induction false} OneOutcomeEach(f: Fleet, plan: seq<Planned>, cfg: Config, target: string, locked: bool, blocked: bool, net: Network)
    requires Known(f, plan)
    ensures var outs := RunPlan(f, plan, cfg, target, locked, blocked, net).1;
            |outs| == |plan| && forall i :: 0 <= i < |plan| ==> outs[i].name == plan[i].name
    decreases |plan|
  {
    if plan == [] {
    } else {
      var (f1, _, stop) := Turn(f, plan[0], cfg, target, locked, blocked, net);
      TurnKeepsKeys(f, plan[0], cfg, target, locked, blocked, net);
      OneOutcomeEach(f1, plan[1..], cfg, target, locked, stop, net);
    }
  }

  /** A blocked plan changes nothing and reports every node blocked. */
  lemma {:induction false} BlockedChangesNothing(f: Fleet, plan: seq<Planned>, cfg: Config, target: string, locked: bool, net: Network)
    requires Known(f, plan)
    ensures RunPlan(f, plan, cfg, target, locked, true, net).0 == f
    ensures forall o :: o in RunPlan(f, plan, cfg, target, locked, true, net).1 ==> o.outcome == Blocked
    decreases |plan|
  {
    if plan == [] {
    } else {
      BlockedChangesNothing(f, plan[1..], cfg, target, locked, net);
    }
  }

  /** After the first node that is not upgraded, every later node of a staged plan is
      reported blocked and its machine is exactly as it was. */
  ghost predicate Stopped(f: Fleet, f': Fleet, plan: seq<Planned>, outs: seq<NodeOutcome>) {
    |outs| == |plan| &&
    forall i, j :: 0 <= i < j < |plan| && outs[i].outcome != Upgraded ==>
      && outs[j].outcome == Blocked
      && plan[j].name in f.machines && plan[j].name in f'.machines
      && f'.machines[plan[j].name] == f.machines[plan[j].name]
  }

  lemma {:induction false} FirstFailureStops(f: Fleet, plan: seq<Planned>, cfg: Config, target: string, locked: bool, blocked: bool, net: Network)
    requires Known(f, plan) && DistinctNames(plan)
    requires forall p :: p in plan ==> p.stage != Legacy
    ensures var (f', outs) := RunPlan(f, plan, cfg, target, locked, blocked, net); Stopped(f, f', plan, outs)
    decreases |plan|
  {
    if plan == [] {
    } else {
      var p, rest := plan[0], plan[1..];
      assert p in plan && plan == [p] + rest;
      var (f1, outcome, stop) := Turn(f, p, cfg, target, locked, blocked, net);
      TurnKeepsKeys(f, p, cfg, target, locked, blocked, net);
      OneOutcomeEach(f1, rest, cfg, target, locked, stop, net);
      FirstFailureStops(f1, rest, cfg, target, locked, stop, net);
      if stop { BlockedChangesNothing(f1, rest, cfg, target, locked, net); }
      NotUpgradedStops(f, p, cfg, target, locked, blocked, net);
      OthersFollow(plan);
      var (f', outs) := RunPlan(f1, rest, cfg, target, locked, stop, net);
      StoppedCons(f, f1, f', p, rest, NodeOutcome(p.name, outcome), outs);
    }
  }

  lemma NotUpgradedStops(f: Fleet, p: Planned, cfg: Config, target: string, locked: bool, blocked: bool, net: Network)
    requires p.name in f.machines && p.stage != Legacy
    ensures var (_, outcome, stop) := Turn(f, p, cfg, target, locked, blocked, net); outcome != Upgraded ==> stop
  {
  }

  lemma OthersFollow(plan: seq<Planned>)
    requires plan != [] && DistinctNames(plan)
    ensures DistinctNames(plan[1..]) && forall n :: n in plan[1..] ==> n.name != plan[0].name
  {
    forall n | n in plan[1..] ensures n.name != plan[0].name {
      var j :| 0 <= j < |plan[1..]| && plan[1..][j] == n;
      assert plan[j + 1] == n;
    }
  }

  lemma StoppedCons(f: Fleet, f1: Fleet, f': Fleet, p: Planned, rest: seq<Planned>, first: NodeOutcome, outs: seq<NodeOutcome>)
    requires Stopped(f1, f', rest, outs) && Known(f, rest)
    requires f1.machines.Keys == f.machines.Keys
    requires forall n :: n in f.machines && n != p.name ==> f1.machines[n] == f.machines[n]
    requires forall n :: n in rest ==> n.name != p.name
    requires first.outcome != Upgraded ==> f' == f1 && forall o :: o in outs ==> o.outcome == Blocked
    ensures Stopped(f, f', [p] + rest, [first] + outs)
  {
    forall j | 0 <= j < |rest| ensures rest[j].name in f.machines && f1.machines[rest[j].name] == f.machines[rest[j].name] {
      assert rest[j] in rest;
    }
  }

  lemma NeverBlocked(f: Fleet, p: Planned, cfg: Config, target: string, net: Network)
    requires p.name in f.machines
    ensures UpgradeOne(f, p, cfg, target, net).1 != Blocked
  {
  }

  /** Legacy servers are independent: none of them is ever blocked. */
  lemma {:induction false} LegacyNeverBlocks(f: Fleet, plan: seq<Planned>, cfg: Config, target: string, net: Network)
    requires Known(f, plan) && forall p :: p in plan ==> p.stage == Legacy
    ensures var outs := RunPlan(f, plan, cfg, target, false, false, net).1;
            |outs| == |plan| && forall i :: 0 <= i < |outs| ==> outs[i].outcome != Blocked
    decreases |plan|
  {
    if plan == [] {
    } else {
      assert plan[0] in plan;
      NeverBlocked(f, plan[0], cfg, target, net);
      AttemptKeepsKeys(f, plan[0], cfg, target, false, net);
      LegacyNeverBlocks(Attempt(f, plan[0], cfg, target, false, net).0, plan[1..], cfg, target, net);
    }
  }

  /** A whole run, whatever the probes, installs and locks answer: one outcome per planned
      node, in plan order; a machine changes only if its transaction was begun; the
      controller is begun only right after every other enrolled worker was observed at the
      target; and nothing changes past the first node that was not upgraded. */
  lemma StagedUpgradeIsSafe(f: Fleet, plan: seq<Planned>, cfg: Config, target: string, targeted: bool, net: Network)
    requires Known(f, plan) && plan != [] && DistinctNames(plan)
    requires forall p :: p in plan ==> p.stage != Legacy
    ensures var (f', outs) := Execute(f, plan, cfg, target, targeted, net);
            && PlanRan(f, f', plan, cfg, target)
            && |outs| == |plan| && (forall i :: 0 <= i < |plan| ==> outs[i].name == plan[i].name)
            && Stopped(f, f', plan, outs)
  {
    assert plan[0] in plan;
    var (f1, ready) := Prepare(f, plan, cfg, target, targeted, net);
    PrepareRuns(f, plan, cfg, target, targeted, net);
    assert [] + plan == plan;
    if ready {
      var (f', outs) := RunPlan(f1, plan, cfg, target, true, false, net);
      RunPlanRuns(f1, plan, cfg, target, true, false, net);
      OneOutcomeEach(f1, plan, cfg, target, true, false, net);
      RanThenRan(f, f1, f', [], plan, cfg, target);
      FirstFailureStops(f1, plan, cfg, target, true, false, net);
      assert Execute(f, plan, cfg, target, targeted, net) == (f', outs);
    } else {
      BlockedIsSafe(f, f1, plan, cfg, target);
    }
  }

  lemma PrepareRuns(f: Fleet, plan: seq<Planned>, cfg: Config, target: string, targeted: bool, net: Network)
    requires plan != []
    ensures var f1 := Prepare(f, plan, cfg, target, targeted, net).0;
            f1.machines == f.machines && PlanRan(f, f1, [], cfg, target)
  {
    PrepareKeepsMachines(f, plan, cfg, target, targeted, net);
    RecheckObserves(f, OtherWorkers(cfg, plan[0].name), target, PreflightRecheck, net);
  }

  lemma NothingRan(f: Fleet, plan: seq<Planned>, cfg: Config, target: string)
    ensures PlanRan(f, f, plan, cfg, target)
  {
  }

  lemma BlockedIsSafe(f: Fleet, f1: Fleet, plan: seq<Planned>, cfg: Config, target: string)
    requires Known(f, plan) && f1.machines == f.machines && PlanRan(f, f1, [], cfg, target)
    ensures PlanRan(f, f1, plan, cfg, target) && Stopped(f, f1, plan, AllBlocked(plan))
  {
    NothingRan(f1, plan, cfg, target);
    RanThenRan(f, f1, f1, [], plan, cfg, target);
    assert [] + plan == plan;
    BlockedIsStopped(f, f1, plan);
  }

  lemma BlockedIsStopped(f: Fleet, f1: Fleet, plan: seq<Planned>)
    requires Known(f, plan) && f1.machines == f.machines
    ensures Stopped(f, f1, plan, AllBlocked(plan))
  {
    forall i | 0 <= i < |plan| ensures plan[i].name in f.machines { assert plan[i] in plan; }
  }
}
