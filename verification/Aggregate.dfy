/** Merging the runtime snapshots that the nodes took of themselves into one snapshot of
    the environment, node by node in name order. Times are natural numbers and 0 is unset. */
module Aggregate {
  import opened Labels
  import opened Names

  datatype Service = Service(
    name: string, image: string, revisionImages: map<string, string>, replicas: int, containers: seq<string>,
    configHash: string, runtimeID: string, persistent: bool,
    currentRevision: string, previousRevision: string, warmingRevisions: seq<string>, deployStrategy: string,
    activeContainers: seq<string>, warmingContainers: seq<string>)

  type Services = map<string, Service>

  datatype NodeSnapshot = NodeSnapshot(node: string, services: Services, capturedAt: nat)

  datatype Snapshot = Snapshot(
    project: string, environment: string, node: string, targetNodes: seq<string>,
    services: Services, nodes: map<string, NodeSnapshot>, capturedAt: nat)

  // ---------------------------------------------------------------- merging two reports

  function MergeRuntimeID(existing: string, incoming: string): string {
    if existing == incoming then existing else ""
  }

  function MergeConfigHash(existing: string, incoming: string): string {
    if existing == "" then incoming
    else if incoming != "" && existing != incoming then ""
    else existing
  }

  /** The first report of a service. Revision images and warming revisions are not carried. */
  function Copied(s: Service): Service {
    s.(revisionImages := map[], warmingRevisions := [])
  }

  function MergeInto(e: Service, s: Service): Service {
    e.(replicas := e.replicas + s.replicas,
       containers := e.containers + s.containers,
       image := if e.image == "" then s.image else e.image,
       configHash := MergeConfigHash(e.configHash, s.configHash),
       runtimeID := MergeRuntimeID(e.runtimeID, s.runtimeID),
       persistent := e.persistent || s.persistent,
       currentRevision := MergeLabel(e.currentRevision, s.currentRevision),
       previousRevision := MergeLabel(e.previousRevision, s.previousRevision),
       deployStrategy := MergeLabel(e.deployStrategy, s.deployStrategy),
       activeContainers := e.activeContainers + s.activeContainers,
       warmingContainers := e.warmingContainers + s.warmingContainers)
  }

  // ---------------------------------------------------------------- the aggregate

  predicate Covers(snaps: map<string, Snapshot>, names: seq<string>) {
    forall n :: n in names ==> n in snaps
  }

  /** The reports of one service, in the order of the nodes that carry it. */
  function Carriers(snaps: map<string, Snapshot>, names: seq<string>, service: string): seq<Service>
    requires Covers(snaps, names)
  {
    if names == [] then []
    else
      var last := snaps[names[|names| - 1]].services;
      Carriers(snaps, names[..|names| - 1], service) + if service in last then [last[service]] else []
  }

  function MergeAll(cs: seq<Service>): Service
    requires cs != []
  {
    if |cs| == 1 then Copied(cs[0]) else MergeInto(MergeAll(cs[..|cs| - 1]), cs[|cs| - 1])
  }

  function ServiceNames(snaps: map<string, Snapshot>, names: seq<string>): set<string>
    requires Covers(snaps, names)
  {
    set n, s | n in names && s in snaps[n].services :: s
  }

  lemma {:induction false} CarriedIffNamed(snaps: map<string, Snapshot>, names: seq<string>, service: string)
    requires Covers(snaps, names)
    ensures Carriers(snaps, names, service) != [] <==> service in ServiceNames(snaps, names)
  {
    if names == [] {
    } else {
      var k := |names| - 1;
      CarriedIffNamed(snaps, names[..k], service);
      assert names == names[..k] + [names[k]];
    }
  }

  function MergedServices(snaps: map<string, Snapshot>, names: seq<string>): Services
    requires Covers(snaps, names)
  {
    map s | s in ServiceNames(snaps, names) :: CarriedIffNamed(snaps, names, s); MergeAll(Carriers(snaps, names, s))
  }

  function Newest(snaps: map<string, Snapshot>, names: seq<string>): nat
    requires Covers(snaps, names)
  {
    if names == [] then 0
    else
      var newest, last := Newest(snaps, names[..|names| - 1]), snaps[names[|names| - 1]].capturedAt;
      if last > newest then last else newest
  }

  function Embedded(name: string, s: Snapshot): NodeSnapshot {
    NodeSnapshot(name, s.services, s.capturedAt)
  }

  /** The snapshot of one node taken back out of an aggregate. */
  function Extracted(project: string, environment: string, n: NodeSnapshot): Snapshot {
    Snapshot(project, environment, n.node, [], n.services, map[], n.capturedAt)
  }

  function AggregateOf(project: string, environment: string, snaps: map<string, Snapshot>, now: nat): Snapshot {
    var names := SortedNames(snaps.Keys);
    SortedCovers(snaps);
    var newest := Newest(snaps, names);
    Snapshot(project, environment, "", names, MergedServices(snaps, names),
             map n | n in snaps :: Embedded(n, snaps[n]), if newest == 0 then now else newest)
  }

  lemma SortedCovers(snaps: map<string, Snapshot>)
    ensures Covers(snaps, SortedNames(snaps.Keys))
    ensures forall n :: n in snaps <==> n in SortedNames(snaps.Keys)
  {
    forall n ensures n in snaps <==> n in SortedNames(snaps.Keys) {
      assert n in snaps.Keys <==> n in Elements(SortedNames(snaps.Keys));
    }
  }

  // ---------------------------------------------------------------- the loops

  /** One service after one more node was folded in. */
  function FoldedAt(services: Services, more: Services, s: string): Service
    requires s in services || s in more
  {
    if s !in more then services[s] else if s in services then MergeInto(services[s], more[s]) else Copied(more[s])
  }

  function FoldedIn(services: Services, more: Services): Services {
    map s | s in services.Keys + more.Keys :: FoldedAt(services, more, s)
  }

  /** The state of the fold while the services in `todo` are still to come. */
  function FoldedSome(services: Services, more: Services, todo: set<string>): Services {
    map s | s in services.Keys + (more.Keys - todo) ::
      if s in more && s !in todo then FoldedAt(services, more, s) else services[s]
  }

  /** Folding in walks a node's services in an arbitrary order. */
  method FoldNode(services: Services, more: Services) returns (r: Services)
    ensures r == FoldedIn(services, more)
  {
    r := services;
    var todo := more.Keys;
    FoldEnds(services, more);
    while todo != {}
      invariant todo <= more.Keys && r == FoldedSome(services, more, todo)
      decreases |todo|
    {
      var s :| s in todo;
      FoldOneMore(services, more, todo, s);
      r := FoldService(r, more, s);
      todo := todo - {s};
    }
  }

  method FoldService(services: Services, more: Services, s: string) returns (r: Services)
    requires s in more
    ensures r == services[s := FoldedAt(services, more, s)]
  {
    if s in services {
      r := services[s := MergeInto(services[s], more[s])];
    } else {
      r := services[s := Copied(more[s])];
    }
  }

  lemma FoldEnds(services: Services, more: Services)
    ensures FoldedSome(services, more, more.Keys) == services
    ensures FoldedSome(services, more, {}) == FoldedIn(services, more)
  {
  }

  lemma FoldOneMore(services: Services, more: Services, todo: set<string>, s: string)
    requires s in todo && todo <= more.Keys
    ensures var r := FoldedSome(services, more, todo);
            r[s := FoldedAt(r, more, s)] == FoldedSome(services, more, todo - {s})
  {
  }

  lemma MergeOneMore(snaps: map<string, Snapshot>, names: seq<string>, name: string, s: string)
    requires Covers(snaps, names) && name in snaps
    ensures var before, after := MergedServices(snaps, names), MergedServices(snaps, names + [name]);
            && (s in after <==> s in before || s in snaps[name].services)
            && (s in after ==> after[s] == FoldedAt(before, snaps[name].services, s))
  {
    var more := names + [name];
    assert more[..|names|] == names;
    CarriedIffNamed(snaps, names, s);
    CarriedIffNamed(snaps, more, s);
    var cs := Carriers(snaps, names, s);
    if s in snaps[name].services {
      assert Carriers(snaps, more, s) == cs + [snaps[name].services[s]];
      assert (cs + [snaps[name].services[s]])[..|cs|] == cs;
    } else {
      assert Carriers(snaps, more, s) == cs;
    }
  }

  lemma MergedStep(snaps: map<string, Snapshot>, names: seq<string>, name: string)
    requires Covers(snaps, names) && name in snaps
    ensures MergedServices(snaps, names + [name]) == FoldedIn(MergedServices(snaps, names), snaps[name].services)
  {
    forall s { MergeOneMore(snaps, names, name, s); }
  }

  method AggregateServices(snaps: map<string, Snapshot>, names: seq<string>) returns (services: Services, newest: nat)
    requires Covers(snaps, names)
    ensures services == MergedServices(snaps, names) && newest == Newest(snaps, names)
  {
    services, newest := map[], 0;
    var i := 0;
    while i < |names|
      invariant 0 <= i <= |names|
      invariant Covers(snaps, names[..i])
      invariant services == MergedServices(snaps, names[..i]) && newest == Newest(snaps, names[..i])
    {
      assert names[i] in names;
      var snap := snaps[names[i]];
      assert names[..i + 1] == names[..i] + [names[i]];
      MergedStep(snaps, names[..i], names[i]);
      NewestStep(snaps, names[..i], names[i]);
      if snap.capturedAt > newest { newest := snap.capturedAt; }
      services := FoldNode(services, snap.services);
      i := i + 1;
    }
    assert names[..i] == names;
  }

  lemma NewestStep(snaps: map<string, Snapshot>, names: seq<string>, name: string)
    requires Covers(snaps, names) && name in snaps
    ensures Covers(snaps, names + [name])
    ensures var newest := Newest(snaps, names);
            Newest(snaps, names + [name]) == if snaps[name].capturedAt > newest then snaps[name].capturedAt else newest
  {
    assert (names + [name])[..|names|] == names;
  }

  method AggregateSnapshots(project: string, environment: string, snaps: map<string, Snapshot>, now: nat) returns (r: Snapshot)
    ensures r == AggregateOf(project, environment, snaps, now)
  {
    var names := SortedNames(snaps.Keys);
    SortedCovers(snaps);
    var services, newest := AggregateServices(snaps, names);
    r := Snapshot(project, environment, "", names, services,
                  map n | n in snaps :: Embedded(n, snaps[n]), if newest == 0 then now else newest);
  }

  // ---------------------------------------------------------------- results

  function Column<T>(cs: seq<Service>, field: Service -> T): seq<T> {
    seq(|cs|, i requires 0 <= i < |cs| => field(cs[i]))
  }

  function Sum(s: seq<int>): int {
    if s == [] then 0 else Sum(s[..|s| - 1]) + s[|s| - 1]
  }

  function Concat(s: seq<seq<string>>): seq<string> {
    if s == [] then [] else Concat(s[..|s| - 1]) + s[|s| - 1]
  }

  function Replicas(s: Service): int { s.replicas }
  function Containers(s: Service): seq<string> { s.containers }
  function ActiveContainers(s: Service): seq<string> { s.activeContainers }
  function WarmingContainers(s: Service): seq<string> { s.warmingContainers }
  function ConfigHash(s: Service): string { s.configHash }
  function CurrentRevision(s: Service): string { s.currentRevision }
  function PreviousRevision(s: Service): string { s.previousRevision }
  function DeployStrategy(s: Service): string { s.deployStrategy }

  /** The first image that is not empty. */
  ghost predicate FirstImage(cs: seq<Service>, image: string) {
    || (image == "" && forall c :: c in cs ==> c.image == "")
    || (image != "" && exists k :: 0 <= k < |cs| && cs[k].image == image && forall j :: 0 <= j < k ==> cs[j].image == "")
  }

  ghost predicate AllReport(cs: seq<Service>, id: string) {
    forall c :: c in cs ==> c.runtimeID == id
  }

  /** What a merged service keeps of the reports it came from. */
  ghost predicate Conserves(m: Service, cs: seq<Service>)
    requires cs != []
  {
    KeepsContents(m, cs) && KeepsLabels(m, cs) && KeepsIdentity(m, cs)
  }

  ghost predicate KeepsContents(m: Service, cs: seq<Service>) {
    && m.replicas == Sum(Column(cs, Replicas))
    && m.containers == Concat(Column(cs, Containers))
    && m.activeContainers == Concat(Column(cs, ActiveContainers))
    && m.warmingContainers == Concat(Column(cs, WarmingContainers))
  }

  ghost predicate KeepsLabels(m: Service, cs: seq<Service>) {
    && m.configHash == FoldLabels(Column(cs, ConfigHash))
    && m.currentRevision == FoldLabels(Column(cs, CurrentRevision))
    && m.previousRevision == FoldLabels(Column(cs, PreviousRevision))
    && m.deployStrategy == FoldLabels(Column(cs, DeployStrategy))
  }

  ghost predicate KeepsIdentity(m: Service, cs: seq<Service>)
    requires cs != []
  {
    && m.name == cs[0].name && FirstImage(cs, m.image)
    && m.revisionImages == map[] && m.warmingRevisions == []
    && (m.persistent <==> exists c :: c in cs && c.persistent)
    && (forall r :: r != "" ==> (m.runtimeID == r <==> AllReport(cs, r)))
  }

  lemma ColumnInit<T>(cs: seq<Service>, field: Service -> T)
    requires cs != []
    ensures Column(cs, field) != []
    ensures Column(cs, field)[..|cs| - 1] == Column(cs[..|cs| - 1], field)
    ensures Column(cs, field)[|cs| - 1] == field(cs[|cs| - 1])
  {
  }

  lemma {:induction false} MergeKeepsContents(cs: seq<Service>)
    requires cs != []
    ensures KeepsContents(MergeAll(cs), cs)
  {
    var init := cs[..|cs| - 1];
    ColumnInit(cs, Replicas);
    ColumnInit(cs, Containers);
    ColumnInit(cs, ActiveContainers);
    ColumnInit(cs, WarmingContainers);
    if init == [] {
    } else {
      MergeKeepsContents(init);
    }
  }

  /** One more report merged into a column of labels. */
  lemma LabelStep(cs: seq<Service>, field: Service -> string)
    requires cs != []
    ensures FoldLabels(Column(cs, field)) == MergeLabel(FoldLabels(Column(cs[..|cs| - 1], field)), field(cs[|cs| - 1]))
  {
    ColumnInit(cs, field);
  }

  lemma HashMergesLikeLabel(existing: string, incoming: string)
    ensures MergeConfigHash(existing, incoming) == MergeLabel(existing, incoming)
  {
  }

  lemma {:induction false} MergeKeepsLabels(cs: seq<Service>)
    requires cs != []
    ensures KeepsLabels(MergeAll(cs), cs)
  {
    var init, last := cs[..|cs| - 1], cs[|cs| - 1];
    LabelStep(cs, ConfigHash);
    LabelStep(cs, CurrentRevision);
    LabelStep(cs, PreviousRevision);
    LabelStep(cs, DeployStrategy);
    if init == [] {
    } else {
      MergeKeepsLabels(init);
      HashMergesLikeLabel(MergeAll(init).configHash, last.configHash);
    }
  }

  lemma {:induction false} MergeKeepsIdentity(cs: seq<Service>)
    requires cs != []
    ensures KeepsIdentity(MergeAll(cs), cs)
  {
    var n := |cs| - 1;
    if n == 0 {
      FirstIdentity(cs[0]);
      assert cs == [cs[0]];
    } else {
      MergeKeepsIdentity(cs[..n]);
      IdentityStep(cs[..n], MergeAll(cs[..n]), cs[n]);
      MergeLast(cs);
    }
  }

  lemma MergeLast(cs: seq<Service>)
    requires |cs| > 1
    ensures var init, last := cs[..|cs| - 1], cs[|cs| - 1]; cs == init + [last] && MergeAll(cs) == MergeInto(MergeAll(init), last)
  {
  }

  lemma FirstIdentity(c: Service)
    ensures KeepsIdentity(Copied(c), [c])
  {
    FirstImageStep([], "", c);
    assert [] + [c] == [c];
    assert c in [c];
  }

  lemma IdentityStep(cs: seq<Service>, m: Service, c: Service)
    requires cs != [] && KeepsIdentity(m, cs)
    ensures KeepsIdentity(MergeInto(m, c), cs + [c])
  {
    FirstImageStep(cs, m.image, c);
    RuntimeStep(cs, m.runtimeID, c);
    assert c in cs + [c] && forall x :: x in cs ==> x in cs + [c];
  }

  lemma MergeConserves(cs: seq<Service>)
    requires cs != []
    ensures Conserves(MergeAll(cs), cs)
  {
    MergeKeepsContents(cs);
    MergeKeepsLabels(cs);
    MergeKeepsIdentity(cs);
  }

  lemma FirstImageStep(cs: seq<Service>, image: string, c: Service)
    requires FirstImage(cs, image)
    ensures FirstImage(cs + [c], if image == "" then c.image else image)
  {
    if image == "" {
      forall j | 0 <= j < |cs| ensures (cs + [c])[j].image == "" { assert cs[j] in cs; }
      assert (cs + [c])[|cs|] == c;
    } else {
      var k :| 0 <= k < |cs| && cs[k].image == image && forall j :: 0 <= j < k ==> cs[j].image == "";
      assert (cs + [c])[k] == cs[k];
    }
  }

  lemma RuntimeStep(cs: seq<Service>, id: string, c: Service)
    requires cs != [] && forall r :: r != "" ==> (id == r <==> AllReport(cs, r))
    ensures forall r :: r != "" ==> (MergeRuntimeID(id, c.runtimeID) == r <==> AllReport(cs + [c], r))
  {
    forall r | r != "" ensures AllReport(cs + [c], r) <==> AllReport(cs, r) && c.runtimeID == r {
      assert c in cs + [c];
      assert forall x :: x in cs ==> x in cs + [c];
    }
  }

  lemma {:induction false} NewestIsMaximum(snaps: map<string, Snapshot>, names: seq<string>)
    requires Covers(snaps, names)
    ensures forall n :: n in names ==> snaps[n].capturedAt <= Newest(snaps, names)
    ensures Newest(snaps, names) == 0 || exists n :: n in names && snaps[n].capturedAt == Newest(snaps, names)
  {
    if names == [] {
    } else {
      var k := |names| - 1;
      assert names == names[..k] + [names[k]];
      NewestIsMaximum(snaps, names[..k]);
      assert names[k] in names;
    }
  }

  /** The services are the union over the nodes, each made of exactly the reports of the nodes
      that carry it, in name order. */
  ghost predicate ConservesServices(services: Services, snaps: map<string, Snapshot>, names: seq<string>)
    requires Covers(snaps, names)
  {
    forall s ::
      && (s in services <==> exists n :: n in names && s in snaps[n].services)
      && (s in services ==> exists cs, at :: cs != [] && ReportsOf(snaps, names, s, cs, at) && Conserves(services[s], cs))
  }

  /** The reports of one service: those of the nodes at the places `at`, which are exactly the
      places of the nodes that carry it, in order. */
  ghost predicate ReportsOf(snaps: map<string, Snapshot>, names: seq<string>, service: string, cs: seq<Service>, at: seq<nat>)
    requires Covers(snaps, names)
  {
    && |at| == |cs| && (forall i, j :: 0 <= i < j < |at| ==> at[i] < at[j])
    && (forall i :: 0 <= i < |at| ==> at[i] < |names| && Reports(snaps, names, service, at[i], cs[i]))
    && (forall k: nat :: k < |names| && service in snaps[names[k]].services ==> k in at)
  }

  ghost predicate Reports(snaps: map<string, Snapshot>, names: seq<string>, service: string, k: nat, c: Service)
    requires Covers(snaps, names) && k < |names|
  {
    service in snaps[names[k]].services && snaps[names[k]].services[service] == c
  }

  lemma {:induction false} CarriersAreReports(snaps: map<string, Snapshot>, names: seq<string>, service: string) returns (at: seq<nat>)
    requires Covers(snaps, names)
    ensures ReportsOf(snaps, names, service, Carriers(snaps, names, service), at)
  {
    if names == [] {
      at := [];
    } else {
      var n := |names| - 1;
      var before := CarriersAreReports(snaps, names[..n], service);
      ReportsCarryOver(snaps, names, service, Carriers(snaps, names[..n], service), before);
      at := if service in snaps[names[n]].services then before + [n] else before;
    }
  }

  lemma ReportsCarryOver(snaps: map<string, Snapshot>, names: seq<string>, service: string, cs: seq<Service>, at: seq<nat>)
    requires names != [] && Covers(snaps, names) && ReportsOf(snaps, names[..|names| - 1], service, cs, at)
    ensures var n := |names| - 1;
            if service in snaps[names[n]].services
            then ReportsOf(snaps, names, service, cs + [snaps[names[n]].services[service]], at + [n])
            else ReportsOf(snaps, names, service, cs, at)
  {
    var n := |names| - 1;
    forall i | 0 <= i < |at| ensures at[i] < n && Reports(snaps, names, service, at[i], cs[i]) {
      assert Reports(snaps, names[..n], service, at[i], cs[i]);
    }
    forall k: nat | k < n && service in snaps[names[k]].services ensures k in at { assert names[..n][k] == names[k]; }
  }

  lemma ServicesConserved(snaps: map<string, Snapshot>, names: seq<string>)
    requires Covers(snaps, names)
    ensures ConservesServices(MergedServices(snaps, names), snaps, names)
  {
    var services := MergedServices(snaps, names);
    forall s
      ensures s in services <==> exists n :: n in names && s in snaps[n].services
      ensures s in services ==> exists cs, at :: cs != [] && ReportsOf(snaps, names, s, cs, at) && Conserves(services[s], cs)
    {
      CarriedIffNamed(snaps, names, s);
      if s in services {
        MergeConserves(Carriers(snaps, names, s));
        var at := CarriersAreReports(snaps, names, s);
      }
    }
  }

  /** The capture time is the newest one, or the present if no node has one. */
  ghost predicate IsNewest(t: nat, snaps: map<string, Snapshot>, now: nat) {
    if exists n :: n in snaps && snaps[n].capturedAt != 0
    then (exists n :: n in snaps && snaps[n].capturedAt == t) && (forall n :: n in snaps ==> snaps[n].capturedAt <= t)
    else t == now
  }

  /** Aggregation conserves services and capture time, and every node's snapshot can be taken
      back out of it unchanged. */
  lemma AggregateConserves(project: string, environment: string, snaps: map<string, Snapshot>, now: nat)
    ensures var names, a := SortedNames(snaps.Keys), AggregateOf(project, environment, snaps, now);
            && Covers(snaps, names) && (forall n :: n in names <==> n in snaps)
            && a.project == project && a.environment == environment && a.node == "" && a.targetNodes == names
            && ConservesServices(a.services, snaps, names)
            && IsNewest(a.capturedAt, snaps, now)
            && a.nodes.Keys == snaps.Keys
            && (forall n :: n in snaps ==>
                  Extracted(project, environment, a.nodes[n])
                  == snaps[n].(project := project, environment := environment, node := n, targetNodes := [], nodes := map[]))
  {
    var names := SortedNames(snaps.Keys);
    SortedCovers(snaps);
    NewestConserved(snaps, names, now);
    ServicesConserved(snaps, names);
  }

  lemma NewestConserved(snaps: map<string, Snapshot>, names: seq<string>, now: nat)
    requires Covers(snaps, names) && forall n :: n in snaps <==> n in names
    ensures IsNewest(if Newest(snaps, names) == 0 then now else Newest(snaps, names), snaps, now)
  {
    NewestIsMaximum(snaps, names);
  }
}
