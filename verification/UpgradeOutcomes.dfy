/** What the answers of the network alone decide about a staged upgrade: which nodes are
    begun, upgraded and blocked. */
module UpgradeOutcomes {
  import opened Names
  import opened NodeUpgrade
  import opened RollingUpgrade

  // ---------------------------------------------------------------- gates, over the network

  /** A live worker at the target release, under its own identity and with the protocol. */
  predicate AtRelease(r: Reply, target: string) {
    r.ok && r.status.version == target && r.status.identity && r.status.protocol && r.status.upgradeCapability
  }

  ghost predicate WorkersAtRelease(cfg: Config, controller: string, target: string, probe: Call, net: Network) {
    forall n :: n in cfg && n != controller && "worker" in cfg[n].roles && "control-plane" !in cfg[n].roles
                ==> AtRelease(net(n, probe), target)
  }

  predicate Fit(r: Reply) {
    r.ok && r.status.compatible && r.status.identity && !r.status.downgrade
  }

  /** The one server with the control-plane role gave the coordinator lock. */
  ghost predicate Coordinated(cfg: Config, net: Network) {
    exists c :: && c in cfg && "control-plane" in cfg[c].roles && net(c, AcquireCoordinator).ok
                && forall d :: d in cfg && "control-plane" in cfg[d].roles ==> d == c
  }

  /** What must be true before the first node of a staged plan is touched. */
  ghost predicate Prepared(plan: seq<Planned>, cfg: Config, target: string, targeted: bool, net: Network) {
    && (forall p :: p in plan ==> Fit(net(p.name, Preflight)))
    && (targeted && |plan| == 1 && plan[0].stage == ControllerLast ==>
          WorkersAtRelease(cfg, plan[0].name, target, PreflightRecheck, net))
    && Coordinated(cfg, net)
  }

  /** What must be true right before a node of a staged plan is upgraded. */
  ghost predicate Admitted(p: Planned, cfg: Config, target: string, net: Network) {
    && net(p.name, RefreshCoordinator).ok
    && (p.stage == ControllerLast ==> WorkersAtRelease(cfg, p.name, target, Recheck, net))
  }

  predicate HasRoles(cfg: Config, name: string) {
    name in cfg && cfg[name].roles != []
  }

  /** A node that is admitted and whose every call goes well. */
  ghost predicate Passes(p: Planned, cfg: Config, target: string, net: Network) {
    var o, enrolled := On(net, p.name), HasRoles(cfg, p.name);
    && Admitted(p, cfg, target, net) && Begins(enrolled, o) && o(Begin).ok && Succeeds(enrolled, p.stage, target, o)
  }

  ghost predicate AllPass(plan: seq<Planned>, cfg: Config, target: string, net: Network) {
    forall p :: p in plan ==> Passes(p, cfg, target, net)
  }

  // ---------------------------------------------------------------- the recheck

  lemma {:induction false} RecheckSucceedsExactly(f: Fleet, workers: seq<string>, target: string, probe: Call, net: Network)
    ensures RecheckEach(f, workers, target, probe, net).1 <==> forall n :: n in workers ==> AtRelease(net(n, probe), target)
    decreases |workers|
  {
    if workers == [] {
    } else {
      assert workers == [workers[0]] + workers[1..];
      var r := net(workers[0], probe);
      RecheckSucceedsExactly(f.(trace := f.trace + [Observed(workers[0], r.status)]), workers[1..], target, probe, net);
    }
  }

  lemma RecheckIsOfWorkers(f: Fleet, cfg: Config, controller: string, target: string, probe: Call, net: Network)
    ensures RecheckEach(f, OtherWorkers(cfg, controller), target, probe, net).1
       <==> WorkersAtRelease(cfg, controller, target, probe, net)
  {
    var workers := OtherWorkers(cfg, controller);
    RecheckSucceedsExactly(f, workers, target, probe, net);
    forall n ensures n in workers <==> n in cfg && n != controller && "worker" in cfg[n].roles && "control-plane" !in cfg[n].roles {
      assert n in Elements(workers) <==> n in workers;
    }
  }

  // ---------------------------------------------------------------- preparation

  lemma {:induction false} ControllersListed(cfg: Config, names: seq<string>, n: string)
    ensures n in ControllersOf(cfg, names) <==> n in names && n in cfg && "control-plane" in cfg[n].roles
  {
    if names == [] {
    } else {
      var k := |names| - 1;
      ControllersListed(cfg, names[..k], n);
      assert names == names[..k] + [names[k]];
    }
  }

  lemma {:induction false} ControllersSorted(cfg: Config, names: seq<string>)
    requires Sorted(names)
    ensures Sorted(ControllersOf(cfg, names))
  {
    if names == [] {
    } else {
      var k := |names| - 1;
      ControllersSorted(cfg, names[..k]);
      var before := ControllersOf(cfg, names[..k]);
      forall i | 0 <= i < |before| ensures Less(before[i], names[k]) {
        ControllersListed(cfg, names[..k], before[i]);
        var j :| 0 <= j < k && names[j] == before[i];
      }
    }
  }

  lemma CoordinatorIsUnique(cfg: Config, net: Network)
    ensures var cs := ControllersOf(cfg, SortedNames(cfg.Keys));
            Coordinated(cfg, net) <==> |cs| == 1 && net(cs[0], AcquireCoordinator).ok
  {
    var names := SortedNames(cfg.Keys);
    var cs := ControllersOf(cfg, names);
    forall n ensures n in cs <==> n in cfg && "control-plane" in cfg[n].roles {
      ControllersListed(cfg, names, n);
      assert n in Elements(names) <==> n in names;
    }
    ControllersSorted(cfg, names);
    if |cs| == 1 { assert cs[0] in cs; assert forall d :: d in cs ==> d == cs[0]; }
    if |cs| > 1 { assert cs[0] in cs && cs[1] in cs && Less(cs[0], cs[1]); LessIrreflexive(cs[0], cs[1]); }
  }

  lemma FitPassesPreflight(plan: seq<Planned>, net: Network)
    ensures (exists p :: p in plan && !PassesPreflight(p, net)) <==> !(forall p :: p in plan ==> Fit(net(p.name, Preflight)))
  {
    if p :| p in plan && !PassesPreflight(p, net) { assert !Fit(net(p.name, Preflight)); }
    if p :| p in plan && !Fit(net(p.name, Preflight)) { assert !PassesPreflight(p, net); }
  }

  lemma PreparedExactly(f: Fleet, plan: seq<Planned>, cfg: Config, target: string, targeted: bool, net: Network)
    requires plan != []
    ensures Prepare(f, plan, cfg, target, targeted, net).1 <==> Prepared(plan, cfg, target, targeted, net)
  {
    FitPassesPreflight(plan, net);
    CoordinatorIsUnique(cfg, net);
    RecheckIsOfWorkers(f, cfg, plan[0].name, target, PreflightRecheck, net);
  }

  // ---------------------------------------------------------------- the run

  lemma TurnExactly(f: Fleet, p: Planned, cfg: Config, target: string, net: Network)
    requires p.name in f.machines && p.stage != Legacy
    ensures var (f', outcome, stop) := Turn(f, p, cfg, target, true, false, net);
            && (outcome == Upgraded <==> Passes(p, cfg, target, net))
            && (outcome == Blocked <==> !Admitted(p, cfg, target, net))
            && (stop <==> outcome != Upgraded)
  {
    RecheckIsOfWorkers(f, cfg, p.name, target, Recheck, net);
    AdmitKeepsMachines(f, p, cfg, target, true, net);
    UpgradedExactly(f.machines[p.name], HasRoles(cfg, p.name), p.stage, target, On(net, p.name));
  }

  /** The outcomes of a run are that of its first turn and those of the rest. */
  lemma RunHead(f: Fleet, plan: seq<Planned>, cfg: Config, target: string, net: Network)
    requires Known(f, plan) && plan != []
    ensures var (f1, outcome, stop) := Turn(f, plan[0], cfg, target, true, false, net);
            && Known(f1, plan[1..])
            && RunPlan(f, plan, cfg, target, true, false, net)
            == (var (f', rest) := RunPlan(f1, plan[1..], cfg, target, true, stop, net); (f', [NodeOutcome(plan[0].name, outcome)] + rest))
  {
    TurnKeepsKeys(f, plan[0], cfg, target, true, false, net);
  }

  lemma AllPassHead(plan: seq<Planned>, i: nat, cfg: Config, target: string, net: Network)
    requires 0 < i <= |plan|
    ensures AllPass(plan[..i], cfg, target, net) <==> Passes(plan[0], cfg, target, net) && AllPass(plan[1..][..i - 1], cfg, target, net)
  {
    assert plan[..i] == [plan[0]] + plan[1..][..i - 1];
  }

  /** A node of a staged plan is upgraded exactly when it and every node before it pass, and
      blocked exactly when one before it does not pass or it is not admitted itself. */
  ghost predicate Decided(outcome: Outcome, plan: seq<Planned>, i: nat, cfg: Config, target: string, net: Network)
    requires i < |plan|
  {
    && (outcome == Upgraded <==> AllPass(plan[..i + 1], cfg, target, net))
    && (outcome == Blocked <==> !(AllPass(plan[..i], cfg, target, net) && Admitted(plan[i], cfg, target, net)))
  }

  lemma DecidedLater(outcome: Outcome, plan: seq<Planned>, i: nat, cfg: Config, target: string, net: Network)
    requires 0 < i < |plan|
    requires if Passes(plan[0], cfg, target, net) then Decided(outcome, plan[1..], i - 1, cfg, target, net) else outcome == Blocked
    ensures Decided(outcome, plan, i, cfg, target, net)
  {
    AllPassHead(plan, i, cfg, target, net);
    AllPassHead(plan, i + 1, cfg, target, net);
    assert plan[1..][i - 1] == plan[i];
  }

  /** The outcome at a place of the plan: that of the first turn, or of the rest. */
  lemma RunOutcome(f: Fleet, plan: seq<Planned>, cfg: Config, target: string, net: Network, i: nat)
    requires Known(f, plan) && i < |plan|
    ensures var (f1, outcome, stop) := Turn(f, plan[0], cfg, target, true, false, net);
            && Known(f1, plan[1..])
            && |RunPlan(f, plan, cfg, target, true, false, net).1| == |plan|
            && |RunPlan(f1, plan[1..], cfg, target, true, stop, net).1| == |plan| - 1
            && RunPlan(f, plan, cfg, target, true, false, net).1[i].outcome
               == if i == 0 then outcome else RunPlan(f1, plan[1..], cfg, target, true, stop, net).1[i - 1].outcome
  {
    RunHead(f, plan, cfg, target, net);
    OneOutcomeEach(f, plan, cfg, target, true, false, net);
  }

  lemma RestIsBlocked(f: Fleet, plan: seq<Planned>, cfg: Config, target: string, net: Network, i: nat)
    requires Known(f, plan) && i < |RunPlan(f, plan, cfg, target, true, true, net).1|
    ensures RunPlan(f, plan, cfg, target, true, true, net).1[i].outcome == Blocked
  {
    BlockedChangesNothing(f, plan, cfg, target, true, net);
  }

  lemma {:induction false} RunDecided(f: Fleet, plan: seq<Planned>, cfg: Config, target: string, net: Network, i: nat)
    requires Known(f, plan) && i < |plan| && AllStaged(plan)
    ensures var outs := RunPlan(f, plan, cfg, target, true, false, net).1;
            |outs| == |plan| && Decided(outs[i].outcome, plan, i, cfg, target, net)
    decreases |plan|
  {
    RunOutcome(f, plan, cfg, target, net, i);
    TurnExactly(f, plan[0], cfg, target, net);
    if i == 0 {
      AllPassHead(plan, 1, cfg, target, net);
    } else {
      var (f1, _, stop) := Turn(f, plan[0], cfg, target, true, false, net);
      if stop {
        RestIsBlocked(f1, plan[1..], cfg, target, net, i - 1);
      } else {
        RestIsStaged(plan);
        RunDecided(f1, plan[1..], cfg, target, net, i - 1);
      }
      DecidedLater(RunPlan(f, plan, cfg, target, true, false, net).1[i].outcome, plan, i, cfg, target, net);
    }
  }

  /** No node of the plan is a legacy server. */
  predicate AllStaged(plan: seq<Planned>) {
    forall i :: 0 <= i < |plan| ==> plan[i].stage != Legacy
  }

  lemma RestIsStaged(plan: seq<Planned>)
    requires plan != [] && AllStaged(plan)
    ensures AllStaged(plan[1..])
  {
  }

  /** The outcome of every node of a staged upgrade, decided by the answers alone. */
  lemma OutcomesExactly(f: Fleet, plan: seq<Planned>, cfg: Config, target: string, targeted: bool, net: Network, i: nat)
    requires Known(f, plan) && i < |plan| && AllStaged(plan)
    ensures var outs := Execute(f, plan, cfg, target, targeted, net).1;
            var ready := Prepared(plan, cfg, target, targeted, net);
            && |outs| == |plan|
            && (outs[i].outcome == Upgraded <==> ready && AllPass(plan[..i + 1], cfg, target, net))
            && (outs[i].outcome == Blocked <==>
                  !(ready && AllPass(plan[..i], cfg, target, net) && Admitted(plan[i], cfg, target, net)))
  {
    PreparedExactly(f, plan, cfg, target, targeted, net);
    PrepareKeepsMachines(f, plan, cfg, target, targeted, net);
    var (f1, ready) := Prepare(f, plan, cfg, target, targeted, net);
    if ready { RunDecided(f1, plan, cfg, target, net, i); }
  }

  // ---------------------------------------------------------------- what is begun

  lemma AttemptTrace(f: Fleet, p: Planned, cfg: Config, target: string, net: Network)
    requires p.name in f.machines
    ensures var (f1, admitted) := Admit(f, p, cfg, target, true, net);
            Turn(f, p, cfg, target, true, false, net).0.trace
            == f1.trace + if admitted && MayBegin(HasRoles(cfg, p.name), On(net, p.name)) then [Begun(p.name)] else []
  {
    AdmitKeepsMachines(f, p, cfg, target, true, net);
  }

  lemma AdmitObserves(f: Fleet, p: Planned, cfg: Config, target: string, net: Network)
    ensures var (f1, admitted) := Admit(f, p, cfg, target, true, net);
            && (admitted <==> Admitted(p, cfg, target, net))
            && f.trace <= f1.trace && forall n :: Begun(n) !in f1.trace[|f.trace|..]
  {
    RecheckIsOfWorkers(f, cfg, p.name, target, Recheck, net);
    RecheckObserves(f, OtherWorkers(cfg, p.name), target, Recheck, net);
    var f1 := Admit(f, p, cfg, target, true, net).0;
    var seen := f1.trace[|f.trace|..];
    forall k | 0 <= k < |seen| ensures seen[k].Observed? { assert seen[k] == f1.trace[|f.trace| + k]; }
  }

  lemma TurnBegins(f: Fleet, p: Planned, cfg: Config, target: string, net: Network, n: string)
    requires p.name in f.machines
    ensures var f' := Turn(f, p, cfg, target, true, false, net).0;
            && f.trace <= f'.trace
            && (Begun(n) in f'.trace[|f.trace|..] <==>
                  n == p.name && Admitted(p, cfg, target, net) && Begins(HasRoles(cfg, n), On(net, n)))
  {
    AttemptTrace(f, p, cfg, target, net);
    AdmitObserves(f, p, cfg, target, net);
    BeginsIsGate(HasRoles(cfg, p.name), On(net, p.name));
    var (f1, admitted) := Admit(f, p, cfg, target, true, net);
    var last := if admitted && MayBegin(HasRoles(cfg, p.name), On(net, p.name)) then [Begun(p.name)] else [];
    assert (f1.trace + last)[|f.trace|..] == f1.trace[|f.trace|..] + last;
  }

  /** A node of a staged plan without repetitions is begun exactly when everything before the
      plan succeeded, every node before it passed, and it is admitted and may be touched. */
  lemma {:induction false} BegunExactly(f: Fleet, plan: seq<Planned>, cfg: Config, target: string, net: Network, n: string)
    requires Known(f, plan) && AllStaged(plan)
    ensures var f' := RunPlan(f, plan, cfg, target, true, false, net).0;
            && f.trace <= f'.trace
            && (Begun(n) in f'.trace[|f.trace|..] <==> BeginsSomewhere(plan, n, cfg, target, net))
    decreases |plan|
  {
    if plan == [] {
    } else {
      TurnExactly(f, plan[0], cfg, target, net);
      TurnBegins(f, plan[0], cfg, target, net, n);
      RunHead(f, plan, cfg, target, net);
      var (f1, _, stop) := Turn(f, plan[0], cfg, target, true, false, net);
      if stop {
        BlockedChangesNothing(f1, plan[1..], cfg, target, true, net);
      } else {
        RestIsStaged(plan);
        BegunExactly(f1, plan[1..], cfg, target, net, n);
      }
      BegunInEither(f.trace, f1.trace, RunPlan(f1, plan[1..], cfg, target, true, stop, net).0.trace, Begun(n));
      BeginsAtHead(plan, n, cfg, target, net);
    }
  }

  lemma BegunInEither(t: seq<Event>, t1: seq<Event>, t': seq<Event>, e: Event)
    requires t <= t1 <= t'
    ensures t <= t' && (e in t'[|t|..] <==> e in t1[|t|..] || e in t'[|t1|..])
  {
    assert t'[|t|..] == t1[|t|..] + t'[|t1|..];
  }

  ghost predicate BeginsSomewhere(plan: seq<Planned>, n: string, cfg: Config, target: string, net: Network) {
    exists i :: 0 <= i < |plan| && BeginsAt(plan, i, n, cfg, target, net)
  }

  ghost predicate BeginsAt(plan: seq<Planned>, i: nat, n: string, cfg: Config, target: string, net: Network) {
    && i < |plan| && plan[i].name == n && AllPass(plan[..i], cfg, target, net)
    && Admitted(plan[i], cfg, target, net) && Begins(HasRoles(cfg, n), On(net, n))
  }

  lemma BeginsAtHead(plan: seq<Planned>, n: string, cfg: Config, target: string, net: Network)
    requires plan != []
    ensures BeginsSomewhere(plan, n, cfg, target, net) <==>
      || (plan[0].name == n && Admitted(plan[0], cfg, target, net) && Begins(HasRoles(cfg, n), On(net, n)))
      || (Passes(plan[0], cfg, target, net) && BeginsSomewhere(plan[1..], n, cfg, target, net))
  {
    var rest := plan[1..];
    forall i | 0 < i < |plan|
      ensures BeginsAt(plan, i, n, cfg, target, net) <==> Passes(plan[0], cfg, target, net) && BeginsAt(rest, i - 1, n, cfg, target, net)
    {
      assert plan[..i] == [plan[0]] + rest[..i - 1];
    }
    assert plan[..0] == [];
    assert BeginsAt(plan, 0, n, cfg, target, net) <==> plan[0].name == n && Admitted(plan[0], cfg, target, net) && Begins(HasRoles(cfg, n), On(net, n));
    if Passes(plan[0], cfg, target, net) && BeginsSomewhere(rest, n, cfg, target, net) {
      var i :| 0 <= i < |rest| && BeginsAt(rest, i, n, cfg, target, net);
      assert BeginsAt(plan, i + 1, n, cfg, target, net);
    }
    if i :| 0 < i < |plan| && BeginsAt(plan, i, n, cfg, target, net) {
      assert BeginsAt(rest, i - 1, n, cfg, target, net);
    }
  }

  /** Whatever the network answers, a machine of a staged plan changes only after every
      planned node passed its preflight, the only server with the control-plane role gave the
      coordinator lock and kept it, and the node's own gates; the controller only after every
      other worker answered at the release. */
  lemma ChangedOnlyWhenReady(f: Fleet, plan: seq<Planned>, cfg: Config, target: string, targeted: bool, net: Network, n: string)
    requires Known(f, plan) && plan != [] && n in f.machines && AllStaged(plan)
    ensures var f' := Execute(f, plan, cfg, target, targeted, net).0;
            n in f'.machines && f'.machines[n] != f.machines[n] ==>
              && Prepared(plan, cfg, target, targeted, net)
              && BeginsSomewhere(plan, n, cfg, target, net)
  {
    PreparedExactly(f, plan, cfg, target, targeted, net);
    PrepareKeepsMachines(f, plan, cfg, target, targeted, net);
    var (f1, ready) := Prepare(f, plan, cfg, target, targeted, net);
    if ready {
      RunPlanRuns(f1, plan, cfg, target, true, false, net);
      BegunExactly(f1, plan, cfg, target, net, n);
    }
  }

  // ---------------------------------------------------------------- roles

  lemma PlannedAt(cfg: Config, names: seq<string>, i: nat)
    requires i < |StagedPlan(cfg, names)|
    ensures var sorted, controllers := SortedList(WorkersOf(cfg, names)), ControllersOf(cfg, names);
            && (i < |sorted| ==> StagedPlan(cfg, names)[i] == Planned(sorted[i], if i == 0 then Canary else Workers))
            && (i >= |sorted| ==> controllers != [] && StagedPlan(cfg, names)[i] == Planned(controllers[0], ControllerLast))
  {
  }

  lemma SortedIsListed(cfg: Config, names: seq<string>, i: nat)
    requires i < |SortedList(WorkersOf(cfg, names))|
    ensures SortedList(WorkersOf(cfg, names))[i] in WorkersOf(cfg, names)
  {
    var sorted := SortedList(WorkersOf(cfg, names));
    assert sorted[i] in multiset(sorted);
  }

  /** Which stage a server gets: the one with the control-plane role comes last, the others
      have the worker role, and the first of them is the canary. */
  lemma RolesDecideStage(cfg: Config, names: seq<string>, i: nat)
    requires i < |StagedPlan(cfg, names)|
    ensures var p := StagedPlan(cfg, names)[i];
            && p.name in cfg && p.name in names
            && (p.stage == ControllerLast <==> "control-plane" in cfg[p.name].roles)
            && (p.stage != ControllerLast ==> "worker" in cfg[p.name].roles)
            && (p.stage == Canary <==> i == 0 && p.stage != ControllerLast)
  {
    var name := StagedPlan(cfg, names)[i].name;
    PlannedAt(cfg, names, i);
    if i < |SortedList(WorkersOf(cfg, names))| {
      SortedIsListed(cfg, names, i);
      WorkersListed(cfg, names, name);
    } else {
      ControllersListed(cfg, names, name);
    }
  }

  lemma {:induction false} WorkersListed(cfg: Config, names: seq<string>, n: string)
    ensures n in WorkersOf(cfg, names) <==>
              n in names && n in cfg && "worker" in cfg[n].roles && "control-plane" !in cfg[n].roles
  {
    if names == [] {
    } else {
      var k := |names| - 1;
      WorkersListed(cfg, names[..k], n);
      assert names == names[..k] + [names[k]];
    }
  }

  predicate NoRoles(cfg: Config, n: string) {
    n !in cfg || cfg[n].roles == []
  }

  predicate HasRole(cfg: Config, n: string, role: string) {
    n in cfg && role in cfg[n].roles
  }

  lemma {:induction false} ControllersRepeat(cfg: Config, names: seq<string>)
    ensures |ControllersOf(cfg, names)| <= 1 <==>
              forall i, j :: 0 <= i < j < |names| ==> !(HasRole(cfg, names[i], "control-plane") && HasRole(cfg, names[j], "control-plane"))
    ensures ControllersOf(cfg, names) == [] <==> forall i :: 0 <= i < |names| ==> !HasRole(cfg, names[i], "control-plane")
  {
    if names == [] {
    } else {
      var k := |names| - 1;
      ControllersRepeat(cfg, names[..k]);
      assert names == names[..k] + [names[k]];
    }
  }

  /** A selection can be planned exactly when it is not empty and either no server in it has
      roles, or each has the control-plane or the worker role and the control-plane role comes
      up at most once. */
  lemma PlannableExactly(cfg: Config, names: seq<string>)
    ensures Plannable(cfg, names) <==>
      && names != []
      && (|| (forall n :: n in names ==> NoRoles(cfg, n))
          || (&& (forall n :: n in names ==> HasRole(cfg, n, "control-plane") || HasRole(cfg, n, "worker"))
              && forall i, j :: 0 <= i < j < |names| ==>
                   !(HasRole(cfg, names[i], "control-plane") && HasRole(cfg, names[j], "control-plane"))))
  {
    ControllersRepeat(cfg, names);
    forall n ensures IsController(Roles(cfg, n)) <==> HasRole(cfg, n, "control-plane") { }
    forall n ensures IsController(Roles(cfg, n)) || IsWorker(Roles(cfg, n)) <==> HasRole(cfg, n, "control-plane") || HasRole(cfg, n, "worker") { }
    forall n ensures Roles(cfg, n) != [] <==> !NoRoles(cfg, n) { }
    if names != [] { assert names[0] in names; }
  }

  // ---------------------------------------------------------------- legacy servers

  /** Legacy servers are upgraded each on its own: what happens to the others does not matter. */
  lemma {:induction false} LegacyDecided(f: Fleet, plan: seq<Planned>, cfg: Config, target: string, net: Network, i: nat)
    requires Known(f, plan) && i < |plan| && forall j :: 0 <= j < |plan| ==> plan[j].stage == Legacy
    ensures var outs := RunPlan(f, plan, cfg, target, false, false, net).1;
            var o, enrolled := On(net, plan[i].name), HasRoles(cfg, plan[i].name);
            && |outs| == |plan|
            && (outs[i].outcome == Upgraded <==> Begins(enrolled, o) && o(Begin).ok && Succeeds(enrolled, Legacy, target, o))
    decreases |plan|
  {
    LegacyTurn(f, plan[0], cfg, target, net);
    var (f1, outcome, stop) := Turn(f, plan[0], cfg, target, false, false, net);
    TurnKeepsKeys(f, plan[0], cfg, target, false, false, net);
    if i > 0 { LegacyDecided(f1, plan[1..], cfg, target, net, i - 1); } else { OneOutcomeEach(f1, plan[1..], cfg, target, false, stop, net); }
  }

  /** A plan of legacy servers is run without preparation or lock. */
  lemma LegacyOutcomes(f: Fleet, plan: seq<Planned>, cfg: Config, target: string, targeted: bool, net: Network, i: nat)
    requires Known(f, plan) && i < |plan| && forall j :: 0 <= j < |plan| ==> plan[j].stage == Legacy
    ensures var outs := Execute(f, plan, cfg, target, targeted, net).1;
            var o, enrolled := On(net, plan[i].name), HasRoles(cfg, plan[i].name);
            && |outs| == |plan|
            && (outs[i].outcome == Upgraded <==> Begins(enrolled, o) && o(Begin).ok && Succeeds(enrolled, Legacy, target, o))
  {
    LegacyDecided(f, plan, cfg, target, net, i);
  }

  lemma LegacyTurn(f: Fleet, p: Planned, cfg: Config, target: string, net: Network)
    requires p.name in f.machines && p.stage == Legacy
    ensures var (_, outcome, stop) := Turn(f, p, cfg, target, false, false, net);
            var o, enrolled := On(net, p.name), HasRoles(cfg, p.name);
            && !stop
            && (outcome == Upgraded <==> Begins(enrolled, o) && o(Begin).ok && Succeeds(enrolled, Legacy, target, o))
  {
    UpgradedExactly(f.machines[p.name], HasRoles(cfg, p.name), Legacy, target, On(net, p.name));
  }
}
