/** Repairing replicated state: collect every reachable node's copies, choose the freshest of
    each, rebuild the aggregate from the chosen node snapshots, and write the choice back
    to every reachable node. Times are numbers and 0 is unset. */
module Repair {
  import opened Options
  import opened Names
  import opened Selection
  import opened Aggregate
  import opened History

  datatype HistoryDoc = HistoryDoc(project: string, environment: string, lastUpdated: int, deployments: seq<Option<Deployment>>)

  datatype Desired = Desired(revisionID: string, createdAt: nat, body: string)

  /** The state documents of one node; a document that cannot be read counts as absent. */
  datatype Docs = Docs(history: Option<HistoryDoc>, desired: Option<Desired>, actual: Option<Snapshot>, nodeActual: map<string, Snapshot>)

  /** The reachable nodes. */
  type Store = map<string, Docs>

  // ---------------------------------------------------------------- which copy is better

  function Freshness(h: HistoryDoc): int {
    NewestOf(h.lastUpdated, Present(h.deployments))
  }

  function NewestOf(t: int, ds: seq<Deployment>): int
    decreases |ds|
  {
    if ds == [] then t else NewestOf(if ds[0].timestamp > t then ds[0].timestamp else t, ds[1..])
  }

  predicate HistoryUsable(h: HistoryDoc) {
    |Present(h.deployments)| > 0
  }

  predicate HistoryBetter(a: HistoryDoc, b: HistoryDoc) {
    if Freshness(a) != Freshness(b) then Freshness(a) > Freshness(b)
    else |Present(a.deployments)| > |Present(b.deployments)|
  }

  predicate DesiredUsable(d: Desired) {
    d.revisionID != "" && d.createdAt != 0
  }

  predicate DesiredBetter(a: Desired, b: Desired) {
    if a.createdAt != b.createdAt then a.createdAt > b.createdAt else Less(b.revisionID, a.revisionID)
  }

  predicate ActualUsable(s: Snapshot) {
    s.capturedAt != 0
  }

  predicate NodeUsable(s: Snapshot, node: string) {
    ActualUsable(s) && (s.node == "" || s.node == node)
  }

  predicate ActualBetter(a: Snapshot, b: Snapshot) {
    if a.capturedAt != b.capturedAt then a.capturedAt > b.capturedAt else |a.services| > |b.services|
  }

  lemma ComparisonsRank()
    ensures Ranks(HistoryBetter) && Ranks(DesiredBetter) && Ranks(ActualBetter)
  {
    forall a: Desired, b: Desired | DesiredBetter(a, b) ensures !DesiredBetter(b, a) {
      if a.createdAt == b.createdAt { LessIrreflexive(b.revisionID, a.revisionID); }
    }
    forall a: Desired, b: Desired, c: Desired | DesiredBetter(a, c) ensures DesiredBetter(a, b) || DesiredBetter(b, c) {
      if a.createdAt == b.createdAt == c.createdAt && !DesiredBetter(a, b) {
        LessTotal(a.revisionID, b.revisionID);
        if a.revisionID != b.revisionID { LessTransitive(c.revisionID, a.revisionID, b.revisionID); }
      }
    }
  }

  // ---------------------------------------------------------------- collecting

  /** What each reachable server contributes, in the order of the servers. */
  function Collect<T>(servers: seq<string>, store: Store, pick: Docs -> seq<T>): seq<T> {
    if servers == [] then []
    else
      var last := servers[|servers| - 1];
      Collect(servers[..|servers| - 1], store, pick) + if last in store then pick(store[last]) else []
  }

  function HistoryOf(d: Docs): seq<HistoryDoc> {
    if d.history.Some? && HistoryUsable(d.history.value) then [d.history.value] else []
  }

  function DesiredOf(d: Docs): seq<Desired> {
    if d.desired.Some? && DesiredUsable(d.desired.value) then [d.desired.value] else []
  }

  function ActualOf(d: Docs): seq<Snapshot> {
    if d.actual.Some? && ActualUsable(d.actual.value) then [d.actual.value] else []
  }

  /** A node's snapshot embedded in an aggregate, if the node is one of the servers. */
  function EmbeddedFor(d: Docs, servers: seq<string>, n: string): seq<Snapshot> {
    if ActualOf(d) != [] && n in d.actual.value.nodes && n in servers
    then [Extracted(d.actual.value.project, d.actual.value.environment, d.actual.value.nodes[n])] else []
  }

  /** A node's own snapshot document, read once for every time the node is listed. */
  function DocsFor(d: Docs, servers: seq<string>, n: string): seq<Snapshot> {
    if servers == [] then []
    else
      var last := servers[|servers| - 1];
      DocsFor(d, servers[..|servers| - 1], n)
      + if last == n && n in d.nodeActual && NodeUsable(d.nodeActual[n], n) then [d.nodeActual[n]] else []
  }

  function NodeCandidates(servers: seq<string>, n: string): Docs -> seq<Snapshot> {
    d => EmbeddedFor(d, servers, n) + DocsFor(d, servers, n)
  }

  // ---------------------------------------------------------------- choosing

  datatype Choice = Choice(history: Option<HistoryDoc>, desired: Option<Desired>, actual: Option<Snapshot>, nodes: map<string, Snapshot>)

  function BestNode(servers: seq<string>, store: Store, n: string): Option<Snapshot> {
    Best(Collect(servers, store, NodeCandidates(servers, n)), c => NodeUsable(c, n), ActualBetter)
  }

  function BestNodes(servers: seq<string>, store: Store): map<string, Snapshot> {
    map n | n in servers && BestNode(servers, store, n).Some? :: BestNode(servers, store, n).value
  }

  function Choose(project: string, environment: string, servers: seq<string>, store: Store, now: nat): Choice {
    var nodes := BestNodes(servers, store);
    var actual := Best(Collect(servers, store, ActualOf), ActualUsable, ActualBetter);
    Choice(Best(Collect(servers, store, HistoryOf), HistoryUsable, HistoryBetter),
           Best(Collect(servers, store, DesiredOf), DesiredUsable, DesiredBetter),
           ActualChoice(project, environment, actual, nodes, now), nodes)
  }

  function ActualChoice(project: string, environment: string, actual: Option<Snapshot>, nodes: map<string, Snapshot>, now: nat): Option<Snapshot> {
    if nodes == map[] then actual
    else if actual.Some? then Some(AggregateOf(actual.value.project, actual.value.environment, nodes, now))
    else
      var a := AggregateOf(project, environment, nodes, now);
      if ActualUsable(a) then Some(a) else None
  }

  // ---------------------------------------------------------------- writing

  datatype Write = ReadPrevious | WriteHistory | WriteDesired | WriteActual | WriteNode(name: string) | DeleteNode(stale: string)

  /** A node document is filed under its node's name. */
  function Filed(n: string, s: Snapshot): Snapshot {
    if s.node == "" then s.(node := n) else s
  }

  /** Node documents that the previous aggregate knew and the chosen state no longer does. */
  function Stale(previous: Option<Snapshot>, c: Choice): set<string> {
    var active := ((if c.actual.Some? then Elements(c.actual.value.targetNodes) else {}) + c.nodes.Keys) - {""};
    if previous.None? || active == {} then {}
    else (Elements(previous.value.targetNodes) + previous.value.nodes.Keys) - {""} - active
  }

  /** The aggregate is read before it is overwritten, if there is anything to prune by. */
  predicate ReadsPrevious(c: Choice) {
    c.actual.Some? || c.nodes != map[]
  }

  /** The previous aggregate as the pruning sees it: one that cannot be read counts as none. */
  function Previous(d: Docs, c: Choice, lands: Write -> bool): Option<Snapshot> {
    if ReadsPrevious(c) && lands(ReadPrevious) then d.actual else None
  }

  predicate NodeWritten(n: string, lands: Write -> bool) {
    n != "" && lands(WriteNode(n))
  }

  /** A node's documents after the choice was written to it; `lands` says which writes succeed. */
  function Written(d: Docs, c: Choice, project: string, environment: string, stamp: int, lands: Write -> bool): Docs {
    Docs(if c.history.Some? && lands(WriteHistory)
         then Some(HistoryDoc(project, environment, stamp, c.history.value.deployments)) else d.history,
         if c.desired.Some? && lands(WriteDesired) then c.desired else d.desired,
         if c.actual.Some? && lands(WriteActual) then c.actual else d.actual,
         (d.nodeActual + map n | n in c.nodes && NodeWritten(n, lands) :: Filed(n, c.nodes[n]))
         - (set n | n in Stale(Previous(d, c, lands), c) && lands(DeleteNode(n))))
  }

  const ALWAYS: Write -> bool := w => true

  /** Some call that writing the choice makes did not succeed. */
  predicate Misses(d: Docs, c: Choice, lands: Write -> bool) {
    || (c.history.Some? && !lands(WriteHistory))
    || (c.desired.Some? && !lands(WriteDesired))
    || (c.actual.Some? && !lands(WriteActual))
    || (exists n :: n in c.nodes && !NodeWritten(n, lands))
    || (ReadsPrevious(c) && !lands(ReadPrevious))
    || (exists n :: n in Stale(Previous(d, c, lands), c) && !lands(DeleteNode(n)))
  }

  /** A node that reported no failed write holds the whole choice. */
  lemma NothingMissed(d: Docs, c: Choice, project: string, environment: string, stamp: int, lands: Write -> bool)
    requires !Misses(d, c, lands)
    ensures Written(d, c, project, environment, stamp, lands) == Written(d, c, project, environment, stamp, ALWAYS)
    ensures "" !in c.nodes
  {
    var filed := map n | n in c.nodes && NodeWritten(n, lands) :: Filed(n, c.nodes[n]);
    assert filed == map n | n in c.nodes && NodeWritten(n, ALWAYS) :: Filed(n, c.nodes[n]);
    var stale := Stale(Previous(d, c, lands), c);
    assert Previous(d, c, lands) == Previous(d, c, ALWAYS);
    assert (set n | n in stale && lands(DeleteNode(n))) == (set n | n in stale && ALWAYS(DeleteNode(n)));
    assert "" in c.nodes ==> !NodeWritten("", lands);
  }

  /** A call that does not succeed changes nothing and is reported, and a document for which
      there is no choice is left alone. */
  lemma FailedWriteLeaves(d: Docs, c: Choice, project: string, environment: string, stamp: int, lands: Write -> bool)
    ensures var d' := Written(d, c, project, environment, stamp, lands);
            && (!lands(WriteHistory) || c.history.None? ==> d'.history == d.history)
            && (!lands(WriteDesired) || c.desired.None? ==> d'.desired == d.desired)
            && (!lands(WriteActual) || c.actual.None? ==> d'.actual == d.actual)
            && (forall n :: !lands(WriteNode(n)) && n in d'.nodeActual ==> n in d.nodeActual && d'.nodeActual[n] == d.nodeActual[n])
            && (forall n :: !lands(DeleteNode(n)) && n in d.nodeActual ==> n in d'.nodeActual)
    ensures !lands(WriteHistory) && c.history.Some? ==> Misses(d, c, lands)
    ensures !lands(WriteDesired) && c.desired.Some? ==> Misses(d, c, lands)
    ensures !lands(WriteActual) && c.actual.Some? ==> Misses(d, c, lands)
    ensures !lands(ReadPrevious) && (c.actual.Some? || c.nodes != map[]) ==> Misses(d, c, lands)
    ensures (exists n :: n in c.nodes && !lands(WriteNode(n))) ==> Misses(d, c, lands)
  {
    if n :| n in c.nodes && !lands(WriteNode(n)) { assert !NodeWritten(n, lands); }
  }

  /** A node that reported no failed call holds the choice wherever there is one. */
  lemma HoldsChoice(d: Docs, c: Choice, project: string, environment: string, stamp: int, lands: Write -> bool)
    requires !Misses(d, c, lands)
    ensures var d' := Written(d, c, project, environment, stamp, lands);
            && (c.history.Some? ==> d'.history == Some(HistoryDoc(project, environment, stamp, c.history.value.deployments)))
            && (c.desired.Some? ==> d'.desired == c.desired)
            && (c.actual.Some? ==> d'.actual == c.actual)
  {
  }

  /** Some chosen name keeps its document, so there is something to prune by. */
  predicate Active(c: Choice, n: string) {
    n != "" && (n in c.nodes || (c.actual.Some? && n in c.actual.value.targetNodes))
  }

  /** Which node documents a node has once every call succeeded: the chosen ones, and of those
      it had all but the ones its previous aggregate knew and the chosen state does not,
      provided that the chosen state names any node at all. */
  lemma DocumentsExactly(d: Docs, c: Choice, project: string, environment: string, stamp: int, lands: Write -> bool, n: string)
    requires !Misses(d, c, lands)
    ensures var d' := Written(d, c, project, environment, stamp, lands);
            var known := d.actual.Some? && n != "" && (n in d.actual.value.targetNodes || n in d.actual.value.nodes);
            && (n in d'.nodeActual <==>
                  n in c.nodes || (n in d.nodeActual && !(known && !Active(c, n) && exists a :: Active(c, a))))
            && (n in c.nodes ==> d'.nodeActual[n] == c.nodes[n].(node := if c.nodes[n].node == "" then n else c.nodes[n].node))
            && (n !in c.nodes && n in d'.nodeActual ==> d'.nodeActual[n] == d.nodeActual[n])
  {
    NothingMissed(d, c, project, environment, stamp, lands);
    var previous := Previous(d, c, lands);
    StaleExactly(previous, c, n);
    if exists a :: Active(c, a) { assert ReadsPrevious(c); }
  }

  lemma StaleExactly(previous: Option<Snapshot>, c: Choice, n: string)
    ensures n in Stale(previous, c) <==>
      && previous.Some? && n != "" && (n in previous.value.targetNodes || n in previous.value.nodes)
      && !Active(c, n) && exists a :: Active(c, a)
  {
    var active := ((if c.actual.Some? then Elements(c.actual.value.targetNodes) else {}) + c.nodes.Keys) - {""};
    forall a ensures a in active <==> Active(c, a) { }
    if active != {} { var a :| a in active; }
  }

  // ---------------------------------------------------------------- lemmas about collecting

  lemma {:induction false} CollectedFrom<T>(servers: seq<string>, store: Store, pick: Docs -> seq<T>, x: T)
    ensures x in Collect(servers, store, pick) <==> exists s :: s in servers && s in store && x in pick(store[s])
  {
    if servers == [] {
    } else {
      var k := |servers| - 1;
      CollectedFrom(servers[..k], store, pick, x);
      assert servers == servers[..k] + [servers[k]];
    }
  }

  lemma {:induction false} DocIsItself(d: Docs, servers: seq<string>, n: string, s: Snapshot)
    ensures s in DocsFor(d, servers, n) <==>
              n in servers && n in d.nodeActual && NodeUsable(d.nodeActual[n], n) && s == d.nodeActual[n]
  {
    if servers == [] {
    } else {
      var k := |servers| - 1;
      DocIsItself(d, servers[..k], n, s);
      assert servers == servers[..k] + [servers[k]];
    }
  }

  /** Some node offers a usable copy of `n`'s snapshot with this content. */
  ghost predicate Offers(d: Docs, servers: seq<string>, n: string, s: Snapshot) {
    n in servers && s.capturedAt != 0 && (s.node == "" || s.node == n) &&
    (|| (d.actual.Some? && d.actual.value.capturedAt != 0 && n in d.actual.value.nodes
         && s == Extracted(d.actual.value.project, d.actual.value.environment, d.actual.value.nodes[n]))
     || (n in d.nodeActual && s == d.nodeActual[n]))
  }

  /** A node's candidates for `n` that are usable are what it offers. */
  lemma CandidateIsOffer(d: Docs, servers: seq<string>, n: string, o: Snapshot)
    ensures o in NodeCandidates(servers, n)(d) && NodeUsable(o, n) <==> Offers(d, servers, n, o)
  {
    DocIsItself(d, servers, n, o);
    assert ActualOf(d) != [] <==> d.actual.Some? && d.actual.value.capturedAt != 0;
  }

  lemma BestNodeIsOffered(servers: seq<string>, store: Store, n: string)
    ensures BestNode(servers, store, n).Some? <==>
              exists s, o :: s in servers && s in store && Offers(store[s], servers, n, o)
    ensures BestNode(servers, store, n).Some? ==>
              exists s :: s in servers && s in store && Offers(store[s], servers, n, BestNode(servers, store, n).value)
  {
    var pick := NodeCandidates(servers, n);
    var cs := Collect(servers, store, pick);
    BestIsCandidate(cs, c => NodeUsable(c, n), ActualBetter);
    if BestNode(servers, store, n).Some? {
      var o := BestNode(servers, store, n).value;
      CollectedFrom(servers, store, pick, o);
      var s :| s in servers && s in store && o in pick(store[s]);
      CandidateIsOffer(store[s], servers, n, o);
    }
    if s, o :| s in servers && s in store && Offers(store[s], servers, n, o) {
      CandidateIsOffer(store[s], servers, n, o);
      CollectedFrom(servers, store, pick, o);
      assert o in cs && NodeUsable(o, n);
    }
  }

  // ---------------------------------------------------------------- repairing twice

  /** The reached nodes, each after a repair whose every write succeeded. */
  function Repaired(c: Choice, project: string, environment: string, store: Store, reached: set<string>, stamps: string -> int): Store
    requires reached <= store.Keys
  {
    map s | s in reached :: Written(store[s], c, project, environment, stamps(s), ALWAYS)
  }

  /** A second repair sees at least one of the nodes that the first one wrote to. */
  predicate Revisits(servers: seq<string>, store: Store, servers': seq<string>, reached: set<string>) {
    && store.Keys <= Elements(servers) && Elements(servers') == Elements(servers)
    && reached != {} && reached <= store.Keys
  }

  lemma SameServers(servers: seq<string>, servers': seq<string>, n: string)
    requires Elements(servers') == Elements(servers)
    ensures n in servers' <==> n in servers
  {
    assert n in servers <==> n in Elements(servers);
    assert n in servers' <==> n in Elements(servers');
  }

  lemma HistoryStays(c: Choice, project: string, environment: string, servers: seq<string>, store: Store,
                     servers': seq<string>, reached: set<string>, stamps: string -> int)
    requires Revisits(servers, store, servers', reached)
    requires c.history == Best(Collect(servers, store, HistoryOf), HistoryUsable, HistoryBetter)
    ensures var h := Best(Collect(servers', Repaired(c, project, environment, store, reached, stamps), HistoryOf), HistoryUsable, HistoryBetter);
            && (h.Some? <==> c.history.Some?)
            && (h.Some? ==> h.value.deployments == c.history.value.deployments)
  {
    var cs, store' := Collect(servers, store, HistoryOf), Repaired(c, project, environment, store, reached, stamps);
    var cs' := Collect(servers', store', HistoryOf);
    BestIsCandidate(cs, HistoryUsable, HistoryBetter);
    BestIsCandidate(cs', HistoryUsable, HistoryBetter);
    forall h ensures h in cs' ==> c.history.Some? && h.deployments == c.history.value.deployments {
      CollectedFrom(servers', store', HistoryOf, h);
      if s :| s in servers' && s in store' && h in HistoryOf(store'[s]) {
        SameServers(servers, servers', s);
        if c.history.None? {
          CollectedFrom(servers, store, HistoryOf, h);
        }
      }
    }
    if c.history.Some? {
      var s :| s in reached;
      SameServers(servers, servers', s);
      assert s in Elements(servers);
      var h := store'[s].history.value;
      CollectedFrom(servers', store', HistoryOf, h);
      assert h in HistoryOf(store'[s]);
    }
  }

  lemma DesiredStays(c: Choice, project: string, environment: string, servers: seq<string>, store: Store,
                     servers': seq<string>, reached: set<string>, stamps: string -> int)
    requires Revisits(servers, store, servers', reached)
    requires c.desired == Best(Collect(servers, store, DesiredOf), DesiredUsable, DesiredBetter)
    ensures Best(Collect(servers', Repaired(c, project, environment, store, reached, stamps), DesiredOf), DesiredUsable, DesiredBetter)
         == c.desired
  {
    var cs, store' := Collect(servers, store, DesiredOf), Repaired(c, project, environment, store, reached, stamps);
    var cs' := Collect(servers', store', DesiredOf);
    BestIsCandidate(cs, DesiredUsable, DesiredBetter);
    BestIsCandidate(cs', DesiredUsable, DesiredBetter);
    forall d ensures d in cs' ==> c.desired == Some(d) {
      CollectedFrom(servers', store', DesiredOf, d);
      if s :| s in servers' && s in store' && d in DesiredOf(store'[s]) {
        SameServers(servers, servers', s);
        if c.desired.None? {
          CollectedFrom(servers, store, DesiredOf, d);
        }
      }
    }
    if c.desired.Some? {
      var s :| s in reached;
      SameServers(servers, servers', s);
      assert s in Elements(servers);
      CollectedFrom(servers', store', DesiredOf, c.desired.value);
      assert c.desired.value in DesiredOf(store'[s]);
    }
  }

  /** Whatever the first repair chose as the aggregate is what the second finds stored. */
  lemma ActualStays(c: Choice, project: string, environment: string, servers: seq<string>, store: Store,
                    servers': seq<string>, reached: set<string>, stamps: string -> int)
    requires Revisits(servers, store, servers', reached)
    requires c.actual.Some? ==> ActualUsable(c.actual.value)
    requires c.actual.None? ==> Best(Collect(servers, store, ActualOf), ActualUsable, ActualBetter).None?
    ensures Best(Collect(servers', Repaired(c, project, environment, store, reached, stamps), ActualOf), ActualUsable, ActualBetter)
         == c.actual
  {
    var cs, store' := Collect(servers, store, ActualOf), Repaired(c, project, environment, store, reached, stamps);
    var cs' := Collect(servers', store', ActualOf);
    BestIsCandidate(cs, ActualUsable, ActualBetter);
    BestIsCandidate(cs', ActualUsable, ActualBetter);
    forall a ensures a in cs' ==> c.actual == Some(a) {
      CollectedFrom(servers', store', ActualOf, a);
      if s :| s in servers' && s in store' && a in ActualOf(store'[s]) {
        SameServers(servers, servers', s);
        if c.actual.None? {
          CollectedFrom(servers, store, ActualOf, a);
        }
      }
    }
    if c.actual.Some? {
      var s :| s in reached;
      SameServers(servers, servers', s);
      assert s in Elements(servers);
      CollectedFrom(servers', store', ActualOf, c.actual.value);
      assert c.actual.value in ActualOf(store'[s]);
    }
  }

  /** Same services and capture time. */
  predicate SameContent(a: Snapshot, b: Snapshot) {
    a.services == b.services && a.capturedAt == b.capturedAt
  }

  /** The snapshots chosen for the nodes, and the aggregate made of them. */
  ghost predicate Chosen(c: Choice, servers: seq<string>, store: Store) {
    && c.nodes == BestNodes(servers, store)
    && (c.nodes == map[] ==> c.actual == Best(Collect(servers, store, ActualOf), ActualUsable, ActualBetter))
    && (c.nodes != map[] ==>
          c.actual.Some? && ActualUsable(c.actual.value)
          && c.actual.value.nodes == map n | n in c.nodes :: Embedded(n, c.nodes[n]))
  }

  /** A written node keeps the chosen snapshot of a node under its name. */
  lemma WrittenKeeps(c: Choice, project: string, environment: string, d: Docs, stamp: int, n: string)
    requires n in c.nodes && n != ""
    ensures var d' := Written(d, c, project, environment, stamp, ALWAYS);
            n in d'.nodeActual && d'.nodeActual[n] == Filed(n, c.nodes[n])
  {
    assert n !in Stale(Previous(d, c, ALWAYS), c);
  }

  /** What a written node offers for a chosen node has the chosen content. */
  lemma WrittenOffersOnly(c: Choice, project: string, environment: string, d: Docs, servers: seq<string>, stamp: int, n: string, o: Snapshot)
    requires n in c.nodes && n != "" && c.actual.Some? && n in c.actual.value.nodes
    requires c.actual.value.nodes[n] == Embedded(n, c.nodes[n])
    requires Offers(Written(d, c, project, environment, stamp, ALWAYS), servers, n, o)
    ensures SameContent(o, c.nodes[n])
  {
    WrittenKeeps(c, project, environment, d, stamp, n);
  }

  /** The aggregate a written node holds offers every chosen node. */
  lemma WrittenOffersIt(c: Choice, project: string, environment: string, d: Docs, servers: seq<string>, stamp: int, n: string)
    requires n in servers && n in c.nodes && c.nodes[n].capturedAt != 0
    requires c.actual.Some? && ActualUsable(c.actual.value) && n in c.actual.value.nodes
    requires c.actual.value.nodes[n] == Embedded(n, c.nodes[n])
    ensures Offers(Written(d, c, project, environment, stamp, ALWAYS), servers, n,
                   Extracted(c.actual.value.project, c.actual.value.environment, Embedded(n, c.nodes[n])))
  {
  }

  /** A written node offers the chosen content of a chosen snapshot, and nothing else. */
  lemma WrittenOffers(c: Choice, project: string, environment: string, servers: seq<string>, store: Store,
                      servers': seq<string>, s: string, stamp: int, n: string, o: Snapshot)
    requires Chosen(c, servers, store) && s in servers && s in store
    requires Elements(servers') == Elements(servers) && n in c.nodes && n != ""
    ensures var d := Written(store[s], c, project, environment, stamp, ALWAYS);
            && (Offers(d, servers', n, o) ==> SameContent(o, c.nodes[n]))
            && Offers(d, servers', n, Extracted(c.actual.value.project, c.actual.value.environment, Embedded(n, c.nodes[n])))
  {
    SameServers(servers, servers', n);
    BestNodeIsOffered(servers, store, n);
    WrittenOffersIt(c, project, environment, store[s], servers', stamp, n);
    if Offers(Written(store[s], c, project, environment, stamp, ALWAYS), servers', n, o) {
      WrittenOffersOnly(c, project, environment, store[s], servers', stamp, n, o);
    }
  }

  /** A written node offers nothing for a node that was not chosen. */
  lemma WrittenOffersNoMore(c: Choice, project: string, environment: string, servers: seq<string>, store: Store,
                            servers': seq<string>, s: string, stamp: int, n: string, o: Snapshot)
    requires Chosen(c, servers, store) && s in servers && s in store
    requires Elements(servers') == Elements(servers) && n !in c.nodes
    ensures !Offers(Written(store[s], c, project, environment, stamp, ALWAYS), servers', n, o)
  {
    SameServers(servers, servers', n);
    BestNodeIsOffered(servers, store, n);
    assert !Offers(store[s], servers, n, o);
    if c.nodes == map[] {
      var cs := Collect(servers, store, ActualOf);
      BestIsCandidate(cs, ActualUsable, ActualBetter);
      if c.actual.Some? {
        CollectedFrom(servers, store, ActualOf, c.actual.value);
        var s0 :| s0 in servers && s0 in store && c.actual.value in ActualOf(store[s0]);
        assert !Offers(store[s0], servers, n, o);
      }
    }
  }

  lemma NodeStaysIn(c: Choice, project: string, environment: string, servers: seq<string>, store: Store,
                    servers': seq<string>, reached: set<string>, stamps: string -> int, n: string)
    requires Revisits(servers, store, servers', reached) && Chosen(c, servers, store) && n in c.nodes && n != ""
    ensures n in servers' && BestNode(servers', Repaired(c, project, environment, store, reached, stamps), n).Some?
  {
    var store' := Repaired(c, project, environment, store, reached, stamps);
    SameServers(servers, servers', n);
    var r :| r in reached;
    assert r in Elements(servers);
    SameServers(servers, servers', r);
    WrittenOffers(c, project, environment, servers, store, servers', r, stamps(r), n, c.nodes[n]);
    var o := Extracted(c.actual.value.project, c.actual.value.environment, Embedded(n, c.nodes[n]));
    OfferedIsFound(servers', store', r, n, o);
  }

  lemma OfferedIsFound(servers: seq<string>, store: Store, s: string, n: string, o: Snapshot)
    requires s in servers && s in store && Offers(store[s], servers, n, o)
    ensures BestNode(servers, store, n).Some?
  {
    BestNodeIsOffered(servers, store, n);
  }

  lemma NodeAgrees(c: Choice, project: string, environment: string, servers: seq<string>, store: Store,
                   servers': seq<string>, reached: set<string>, stamps: string -> int, n: string)
    requires Revisits(servers, store, servers', reached) && Chosen(c, servers, store) && n in c.nodes && n != ""
    ensures var best := BestNode(servers', Repaired(c, project, environment, store, reached, stamps), n);
            best.Some? ==> SameContent(best.value, c.nodes[n])
  {
    var store' := Repaired(c, project, environment, store, reached, stamps);
    forall s, o | s in servers' && s in store' && Offers(store'[s], servers', n, o) ensures SameContent(o, c.nodes[n]) {
      SameServers(servers, servers', s);
      WrittenOffers(c, project, environment, servers, store, servers', s, stamps(s), n, o);
    }
    BestNodeIsOffered(servers', store', n);
  }

  lemma NodeStaysOut(c: Choice, project: string, environment: string, servers: seq<string>, store: Store,
                     servers': seq<string>, reached: set<string>, stamps: string -> int, n: string)
    requires Revisits(servers, store, servers', reached) && Chosen(c, servers, store) && n !in c.nodes
    ensures BestNode(servers', Repaired(c, project, environment, store, reached, stamps), n).None?
  {
    var store' := Repaired(c, project, environment, store, reached, stamps);
    forall s, o | s in servers' && s in store' ensures !Offers(store'[s], servers', n, o) {
      SameServers(servers, servers', s);
      WrittenOffersNoMore(c, project, environment, servers, store, servers', s, stamps(s), n, o);
    }
    BestNodeIsOffered(servers', store', n);
  }

  lemma NodesStay(c: Choice, project: string, environment: string, servers: seq<string>, store: Store,
                  servers': seq<string>, reached: set<string>, stamps: string -> int)
    requires Revisits(servers, store, servers', reached) && Chosen(c, servers, store) && "" !in c.nodes
    ensures var nodes := BestNodes(servers', Repaired(c, project, environment, store, reached, stamps));
            nodes.Keys == c.nodes.Keys && forall n :: n in nodes ==> SameContent(nodes[n], c.nodes[n])
  {
    forall n | n in c.nodes { NodeStaysIn(c, project, environment, servers, store, servers', reached, stamps, n); }
    forall n | n in c.nodes { NodeAgrees(c, project, environment, servers, store, servers', reached, stamps, n); }
    forall n | n !in c.nodes { NodeStaysOut(c, project, environment, servers, store, servers', reached, stamps, n); }
  }

  lemma {:induction false} CarriersAgree(snaps: map<string, Snapshot>, snaps': map<string, Snapshot>, names: seq<string>, service: string)
    requires Covers(snaps, names) && Covers(snaps', names)
    requires forall n :: n in names ==> SameContent(snaps'[n], snaps[n])
    ensures Carriers(snaps', names, service) == Carriers(snaps, names, service)
  {
    if names == [] {
    } else {
      CarriersAgree(snaps, snaps', names[..|names| - 1], service);
    }
  }

  lemma {:induction false} NewestAgree(snaps: map<string, Snapshot>, snaps': map<string, Snapshot>, names: seq<string>)
    requires Covers(snaps, names) && Covers(snaps', names)
    requires forall n :: n in names ==> SameContent(snaps'[n], snaps[n])
    ensures Newest(snaps', names) == Newest(snaps, names)
  {
    if names == [] {
    } else {
      NewestAgree(snaps, snaps', names[..|names| - 1]);
    }
  }

  lemma MergedAgree(snaps: map<string, Snapshot>, snaps': map<string, Snapshot>, names: seq<string>)
    requires Covers(snaps, names) && Covers(snaps', names)
    requires forall n :: n in names ==> SameContent(snaps'[n], snaps[n])
    ensures MergedServices(snaps', names) == MergedServices(snaps, names)
  {
    assert ServiceNames(snaps', names) == ServiceNames(snaps, names);
    forall s | s in ServiceNames(snaps, names) ensures MergedServices(snaps', names)[s] == MergedServices(snaps, names)[s] {
      CarriersAgree(snaps, snaps', names, s);
    }
  }

  lemma NewestIsSet(snaps: map<string, Snapshot>)
    requires snaps != map[] && forall n :: n in snaps ==> snaps[n].capturedAt != 0
    ensures Covers(snaps, SortedNames(snaps.Keys)) && Newest(snaps, SortedNames(snaps.Keys)) != 0
  {
    SortedCovers(snaps);
    NewestIsMaximum(snaps, SortedNames(snaps.Keys));
    var n :| n in snaps;
    assert n in SortedNames(snaps.Keys);
  }

  /** An aggregate depends on its nodes' services and capture times alone. */
  lemma AggregatesAgree(project: string, environment: string, snaps: map<string, Snapshot>, snaps': map<string, Snapshot>, now: nat, now': nat)
    requires snaps'.Keys == snaps.Keys && snaps != map[]
    requires forall n :: n in snaps ==> SameContent(snaps'[n], snaps[n]) && snaps[n].capturedAt != 0
    ensures AggregateOf(project, environment, snaps', now') == AggregateOf(project, environment, snaps, now)
    ensures AggregateOf(project, environment, snaps, now).capturedAt != 0
  {
    var names := SortedNames(snaps.Keys);
    SortedCovers(snaps);
    SortedCovers(snaps');
    NewestIsSet(snaps);
    NewestAgree(snaps, snaps', names);
    MergedAgree(snaps, snaps', names);
    EmbeddedAgree(snaps, snaps');
  }

  lemma EmbeddedAgree(snaps: map<string, Snapshot>, snaps': map<string, Snapshot>)
    requires snaps'.Keys == snaps.Keys && forall n :: n in snaps ==> SameContent(snaps'[n], snaps[n])
    ensures (map n | n in snaps' :: Embedded(n, snaps'[n])) == (map n | n in snaps :: Embedded(n, snaps[n]))
  {
  }

  lemma ChooseIsChosen(project: string, environment: string, servers: seq<string>, store: Store, now: nat)
    ensures Chosen(Choose(project, environment, servers, store, now), servers, store)
    ensures forall n :: n in BestNodes(servers, store) ==> BestNodes(servers, store)[n].capturedAt != 0
  {
    var c := Choose(project, environment, servers, store, now);
    forall n | n in c.nodes ensures c.nodes[n].capturedAt != 0 { BestNodeIsOffered(servers, store, n); }
    if c.nodes != map[] {
      var actual := Best(Collect(servers, store, ActualOf), ActualUsable, ActualBetter);
      if actual.Some? {
        AggregatesAgree(actual.value.project, actual.value.environment, c.nodes, c.nodes, now, now);
      } else {
        AggregatesAgree(project, environment, c.nodes, c.nodes, now, now);
      }
    }
  }

  /** A second choice agrees with the first: the same deployments, desired revision and
      aggregate, and the same content for every node. */
  predicate SameChoice(c': Choice, c: Choice) {
    && (c'.history.Some? <==> c.history.Some?)
    && (c'.history.Some? ==> c'.history.value.deployments == c.history.value.deployments)
    && c'.desired == c.desired
    && c'.actual == c.actual
    && c'.nodes.Keys == c.nodes.Keys && forall n :: n in c'.nodes ==> SameContent(c'.nodes[n], c.nodes[n])
  }

  lemma ChoosingAgain(project: string, environment: string, servers: seq<string>, store: Store, now: nat,
                      servers': seq<string>, reached: set<string>, stamps: string -> int, now': nat)
    requires Revisits(servers, store, servers', reached)
    requires "" !in Choose(project, environment, servers, store, now).nodes
    ensures var c := Choose(project, environment, servers, store, now);
            SameChoice(Choose(project, environment, servers', Repaired(c, project, environment, store, reached, stamps), now'), c)
  {
    var c := Choose(project, environment, servers, store, now);
    var store' := Repaired(c, project, environment, store, reached, stamps);
    ChooseIsChosen(project, environment, servers, store, now);
    HistoryStays(c, project, environment, servers, store, servers', reached, stamps);
    DesiredStays(c, project, environment, servers, store, servers', reached, stamps);
    BestIsCandidate(Collect(servers, store, ActualOf), ActualUsable, ActualBetter);
    ActualStays(c, project, environment, servers, store, servers', reached, stamps);
    NodesStay(c, project, environment, servers, store, servers', reached, stamps);
    if c.nodes != map[] {
      var first := Best(Collect(servers, store, ActualOf), ActualUsable, ActualBetter);
      var a := c.actual.value;
      AggregatesAgree(a.project, a.environment, c.nodes, BestNodes(servers', store'), now, now');
    }
  }

  /** Repair is idempotent. Take the nodes whose writes all succeeded: collecting and choosing
      again from any of them, in any order of the servers, gives the same choice, whether a
      node's snapshot is read from its own document or out of the aggregate. */
  lemma RepairIsIdempotent(project: string, environment: string, servers: seq<string>, store: Store, now: nat,
                           stamps: string -> int, lands: string -> Write -> bool,
                           servers': seq<string>, reached: set<string>, now': nat)
    requires Revisits(servers, store, servers', reached)
    requires var c := Choose(project, environment, servers, store, now);
             forall s :: s in reached ==> !Misses(store[s], c, lands(s))
    ensures var c := Choose(project, environment, servers, store, now);
            var store' := map s | s in reached :: Written(store[s], c, project, environment, stamps(s), lands(s));
            SameChoice(Choose(project, environment, servers', store', now'), c)
  {
    var c := Choose(project, environment, servers, store, now);
    var store' := map s | s in reached :: Written(store[s], c, project, environment, stamps(s), lands(s));
    forall s | s in reached ensures store'[s] == Written(store[s], c, project, environment, stamps(s), ALWAYS) && "" !in c.nodes {
      NothingMissed(store[s], c, project, environment, stamps(s), lands(s));
    }
    assert store' == Repaired(c, project, environment, store, reached, stamps);
    ChoosingAgain(project, environment, servers, store, now, servers', reached, stamps, now');
  }
}
