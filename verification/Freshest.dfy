/** What a repair chooses, in terms of the times and sizes of the copies it found: the newest
    usable one, and among equally new ones the larger. */
module Freshest {
  import opened Options
  import opened Names
  import opened Selection
  import opened Aggregate
  import opened History
  import opened Repair

  /** The candidate at place `k` of a collection came from the server at place `at[k]`. */
  ghost predicate CollectedAt<T(!new)>(servers: seq<string>, store: Store, pick: Docs -> seq<T>, cs: seq<T>, at: seq<nat>) {
    && |at| == |cs| && (forall j, k :: 0 <= j < k < |at| ==> at[j] <= at[k])
    && (forall k :: 0 <= k < |at| ==> Held(servers, store, pick, at[k], cs[k]))
    && (forall p: nat, x :: Held(servers, store, pick, p, x) ==> FoundAt(cs, at, p, x))
  }

  ghost predicate Held<T>(servers: seq<string>, store: Store, pick: Docs -> seq<T>, p: nat, x: T) {
    p < |servers| && servers[p] in store && x in pick(store[servers[p]])
  }

  ghost predicate FoundAt<T>(cs: seq<T>, at: seq<nat>, p: nat, x: T)
    requires |at| == |cs|
  {
    exists k :: 0 <= k < |at| && at[k] == p && cs[k] == x
  }

  /** One more server adds its candidates at the end. */
  lemma CollectedOneMore<T(!new)>(servers: seq<string>, store: Store, pick: Docs -> seq<T>, cs: seq<T>, at: seq<nat>, more: seq<T>)
    requires servers != [] && CollectedAt(servers[..|servers| - 1], store, pick, cs, at)
    requires var last := servers[|servers| - 1]; more == if last in store then pick(store[last]) else []
    ensures CollectedAt(servers, store, pick, cs + more, at + seq(|more|, i => |servers| - 1))
  {
    var n := |servers| - 1;
    var init, all, at' := servers[..n], cs + more, at + seq(|more|, i => n);
    forall k | 0 <= k < |at'| ensures Held(servers, store, pick, at'[k], all[k]) {
      if k < |cs| { assert Held(init, store, pick, at[k], cs[k]); }
    }
    forall p: nat, x | Held(servers, store, pick, p, x) ensures FoundAt(all, at', p, x) {
      if p < n {
        assert Held(init, store, pick, p, x);
        assert FoundAt(cs, at, p, x);
        var k :| 0 <= k < |at| && at[k] == p && cs[k] == x;
        assert at'[k] == p && all[k] == x;
      } else {
        var k :| 0 <= k < |more| && more[k] == x;
        assert at'[|cs| + k] == p && all[|cs| + k] == x;
      }
    }
    forall j, k | 0 <= j < k < |at'| ensures at'[j] <= at'[k] {
      if j < |at| { assert Held(init, store, pick, at[j], cs[j]); }
    }
  }

  lemma {:induction false} CollectsInOrder<T(!new)>(servers: seq<string>, store: Store, pick: Docs -> seq<T>) returns (at: seq<nat>)
    ensures CollectedAt(servers, store, pick, Collect(servers, store, pick), at)
  {
    if servers == [] {
      at := [];
    } else {
      var n := |servers| - 1;
      var more := if servers[n] in store then pick(store[servers[n]]) else [];
      var before := CollectsInOrder(servers[..n], store, pick);
      CollectedOneMore(servers, store, pick, Collect(servers[..n], store, pick), before, more);
      at := before + seq(|more|, i => n);
    }
  }

  /** The choice comes from the first server that holds as good a candidate: what an earlier
      one holds is worse. */
  lemma FirstServerWins<T(!new)>(servers: seq<string>, store: Store, pick: Docs -> seq<T>, usable: T -> bool, better: (T, T) -> bool)
    returns (p: nat)
    requires Ranks(better) && Best(Collect(servers, store, pick), usable, better).Some?
    ensures var best := Best(Collect(servers, store, pick), usable, better).value;
            && Held(servers, store, pick, p, best)
            && forall q: nat, x :: q < p && Held(servers, store, pick, q, x) && usable(x) ==> better(best, x)
  {
    var cs := Collect(servers, store, pick);
    var at := CollectsInOrder(servers, store, pick);
    BestIsFirstMaximal(cs, usable, better);
    var k: nat :| FirstMaximal(cs, k, usable, better) && Best(cs, usable, better) == Some(cs[k]);
    p := at[k];
    forall q: nat, x | q < p && Held(servers, store, pick, q, x) && usable(x) ensures better(cs[k], x) {
      assert FoundAt(cs, at, q, x);
      var j :| 0 <= j < |at| && at[j] == q && cs[j] == x;
      assert j < k;
    }
  }

  /** Nothing that a reachable server holds is better. */
  lemma NoneIsBetter<T(!new)>(servers: seq<string>, store: Store, pick: Docs -> seq<T>, usable: T -> bool, better: (T, T) -> bool, s: string, x: T)
    requires Ranks(better) && s in servers && s in store && x in pick(store[s]) && usable(x)
    ensures var best := Best(Collect(servers, store, pick), usable, better);
            best.Some? && !better(x, best.value)
  {
    var cs := Collect(servers, store, pick);
    BestIsFirstMaximal(cs, usable, better);
    CollectedFrom(servers, store, pick, x);
    var j :| 0 <= j < |cs| && cs[j] == x;
  }

  // ---------------------------------------------------------------- histories

  /** `t` is the newest time of a history: its own or that of an entry. */
  ghost predicate NewestTime(h: HistoryDoc, t: int) {
    && h.lastUpdated <= t && (forall d :: d in h.deployments && d.Some? ==> d.value.timestamp <= t)
    && (t == h.lastUpdated || exists d :: d in h.deployments && d.Some? && d.value.timestamp == t)
  }

  lemma {:induction false} NewestOfBounds(t: int, ds: seq<Deployment>)
    ensures var r := NewestOf(t, ds);
            && t <= r && (forall d :: d in ds ==> d.timestamp <= r)
            && (r == t || exists d :: d in ds && d.timestamp == r)
    decreases |ds|
  {
    if ds == [] {
    } else {
      NewestOfBounds(if ds[0].timestamp > t then ds[0].timestamp else t, ds[1..]);
      assert ds == [ds[0]] + ds[1..];
    }
  }

  lemma {:induction false} PresentMembers<T>(s: seq<Option<T>>, x: T)
    ensures x in Present(s) <==> Some(x) in s
  {
    if s == [] {
    } else {
      PresentMembers(s[1..], x);
      assert s == [s[0]] + s[1..];
    }
  }

  lemma NewestTimeIsFreshness(h: HistoryDoc, t: int)
    ensures NewestTime(h, t) <==> t == Freshness(h)
  {
    var ds := Present(h.deployments);
    NewestOfBounds(h.lastUpdated, ds);
    forall d: Deployment ensures d in ds <==> Some(d) in h.deployments { PresentMembers(h.deployments, d); }
    assert forall d :: d in h.deployments && d.Some? ==> d.value in ds;
    assert forall d :: d in ds ==> Some(d) in h.deployments;
  }

  /** The number of entries that are not null. */
  function Entries(ds: seq<Option<Deployment>>): nat {
    if ds == [] then 0 else Entries(ds[..|ds| - 1]) + if ds[|ds| - 1].Some? then 1 else 0
  }

  lemma {:induction false} EntriesArePresent(ds: seq<Option<Deployment>>)
    ensures Entries(ds) == |Present(ds)|
  {
    if ds == [] {
    } else {
      var n := |ds| - 1;
      EntriesArePresent(ds[..n]);
      assert ds == ds[..n] + [ds[n]];
      PresentAppend(ds[..n], [ds[n]]);
    }
  }

  predicate HoldsHistory(store: Store, s: string, h: HistoryDoc) {
    s in store && store[s].history == Some(h) && Entries(h.deployments) > 0
  }

  /** Not newer, and with no more entries if equally new. */
  ghost predicate HistoryUpTo(h: HistoryDoc, best: HistoryDoc) {
    forall t, u :: NewestTime(h, t) && NewestTime(best, u) ==>
      t < u || (t == u && Entries(h.deployments) <= Entries(best.deployments))
  }

  /** Older, or equally new and with fewer entries. */
  ghost predicate HistoryBelow(h: HistoryDoc, best: HistoryDoc) {
    forall t, u :: NewestTime(h, t) && NewestTime(best, u) ==>
      t < u || (t == u && Entries(h.deployments) < Entries(best.deployments))
  }

  lemma BetterIsAbove(h: HistoryDoc, best: HistoryDoc)
    requires HistoryBetter(best, h)
    ensures HistoryBelow(h, best)
  {
    EntriesArePresent(h.deployments);
    EntriesArePresent(best.deployments);
    forall t, u | NewestTime(h, t) && NewestTime(best, u)
      ensures t < u || (t == u && Entries(h.deployments) < Entries(best.deployments))
    {
      NewestTimeIsFreshness(h, t);
      NewestTimeIsFreshness(best, u);
    }
  }

  lemma NotBetterIsUpTo(h: HistoryDoc, best: HistoryDoc)
    requires !HistoryBetter(h, best)
    ensures HistoryUpTo(h, best)
  {
    EntriesArePresent(h.deployments);
    EntriesArePresent(best.deployments);
    forall t, u | NewestTime(h, t) && NewestTime(best, u)
      ensures t < u || (t == u && Entries(h.deployments) <= Entries(best.deployments))
    {
      NewestTimeIsFreshness(h, t);
      NewestTimeIsFreshness(best, u);
    }
  }

  lemma HistoryIsUpTo(servers: seq<string>, store: Store, s: string, h: HistoryDoc)
    requires s in servers && HoldsHistory(store, s, h)
    ensures var best := Best(Collect(servers, store, HistoryOf), HistoryUsable, HistoryBetter);
            best.Some? && HistoryUpTo(h, best.value)
  {
    ComparisonsRank();
    EntriesArePresent(h.deployments);
    NoneIsBetter(servers, store, HistoryOf, HistoryUsable, HistoryBetter, s, h);
    NotBetterIsUpTo(h, Best(Collect(servers, store, HistoryOf), HistoryUsable, HistoryBetter).value);
  }

  ghost predicate ChosenHistoryAt(servers: seq<string>, store: Store, p: nat, best: HistoryDoc) {
    && p < |servers| && HoldsHistory(store, servers[p], best)
    && forall q, h :: 0 <= q < p && HoldsHistory(store, servers[q], h) ==> HistoryBelow(h, best)
  }

  lemma HistoryChosenAt(servers: seq<string>, store: Store) returns (p: nat)
    requires Best(Collect(servers, store, HistoryOf), HistoryUsable, HistoryBetter).Some?
    ensures ChosenHistoryAt(servers, store, p, Best(Collect(servers, store, HistoryOf), HistoryUsable, HistoryBetter).value)
  {
    ComparisonsRank();
    var best := Best(Collect(servers, store, HistoryOf), HistoryUsable, HistoryBetter).value;
    p := FirstServerWins(servers, store, HistoryOf, HistoryUsable, HistoryBetter);
    EntriesArePresent(best.deployments);
    forall q, h | 0 <= q < p && HoldsHistory(store, servers[q], h) ensures HistoryBelow(h, best) {
      EntriesArePresent(h.deployments);
      assert Held(servers, store, HistoryOf, q, h) && HistoryUsable(h);
      BetterIsAbove(h, best);
    }
  }

  /** The chosen history is that of the first reachable server whose history is as fresh as any. */
  lemma HistoryIsFreshest(project: string, environment: string, servers: seq<string>, store: Store, now: nat)
    ensures var best := Choose(project, environment, servers, store, now).history;
            && (best.Some? ==> exists p :: ChosenHistoryAt(servers, store, p, best.value))
            && (forall s, h :: s in servers && HoldsHistory(store, s, h) ==> best.Some? && HistoryUpTo(h, best.value))
  {
    var best := Choose(project, environment, servers, store, now).history;
    if best.Some? { var p := HistoryChosenAt(servers, store); }
    forall s, h | s in servers && HoldsHistory(store, s, h) ensures best.Some? && HistoryUpTo(h, best.value) {
      HistoryIsUpTo(servers, store, s, h);
    }
  }

  // ---------------------------------------------------------------- desired revisions

  predicate HoldsDesired(store: Store, s: string, d: Desired) {
    s in store && store[s].desired == Some(d) && d.revisionID != "" && d.createdAt != 0
  }

  /** Created no later, and with no later revision ID if created at the same time. */
  predicate DesiredUpTo(d: Desired, best: Desired) {
    d.createdAt < best.createdAt
    || (d.createdAt == best.createdAt && (d.revisionID == best.revisionID || Less(d.revisionID, best.revisionID)))
  }

  ghost predicate ChosenDesiredAt(servers: seq<string>, store: Store, p: nat, best: Desired) {
    && p < |servers| && HoldsDesired(store, servers[p], best)
    && forall q, d :: 0 <= q < p && HoldsDesired(store, servers[q], d) ==>
         DesiredUpTo(d, best) && (d.createdAt, d.revisionID) != (best.createdAt, best.revisionID)
  }

  lemma DesiredChosenAt(servers: seq<string>, store: Store) returns (p: nat)
    requires Best(Collect(servers, store, DesiredOf), DesiredUsable, DesiredBetter).Some?
    ensures ChosenDesiredAt(servers, store, p, Best(Collect(servers, store, DesiredOf), DesiredUsable, DesiredBetter).value)
  {
    ComparisonsRank();
    var best := Best(Collect(servers, store, DesiredOf), DesiredUsable, DesiredBetter).value;
    p := FirstServerWins(servers, store, DesiredOf, DesiredUsable, DesiredBetter);
    forall q, d | 0 <= q < p && HoldsDesired(store, servers[q], d)
      ensures DesiredUpTo(d, best) && (d.createdAt, d.revisionID) != (best.createdAt, best.revisionID)
    {
      assert Held(servers, store, DesiredOf, q, d) && DesiredUsable(d);
      if d.createdAt == best.createdAt { LessIrreflexive(d.revisionID, best.revisionID); }
    }
  }

  /** The chosen desired revision is the one created last, of those created at the same time the
      one with the last revision ID, and of equal ones that of the first reachable server. */
  lemma DesiredIsFreshest(project: string, environment: string, servers: seq<string>, store: Store, now: nat)
    ensures var best := Choose(project, environment, servers, store, now).desired;
            && (best.Some? ==> exists p :: ChosenDesiredAt(servers, store, p, best.value))
            && (forall s, d :: s in servers && HoldsDesired(store, s, d) ==> best.Some? && DesiredUpTo(d, best.value))
  {
    var best := Choose(project, environment, servers, store, now).desired;
    if best.Some? { var p := DesiredChosenAt(servers, store); }
    forall s, d | s in servers && HoldsDesired(store, s, d) ensures best.Some? && DesiredUpTo(d, best.value) {
      ComparisonsRank();
      NoneIsBetter(servers, store, DesiredOf, DesiredUsable, DesiredBetter, s, d);
      LessTotal(d.revisionID, best.value.revisionID);
    }
  }

  // ---------------------------------------------------------------- snapshots

  /** Not captured later, and with no more services if captured at the same time. */
  predicate SnapshotUpTo(s: Snapshot, best: Snapshot) {
    s.capturedAt < best.capturedAt || (s.capturedAt == best.capturedAt && |s.services| <= |best.services|)
  }

  /** Captured earlier, or at the same time and with fewer services. */
  predicate SnapshotBelow(s: Snapshot, best: Snapshot) {
    s.capturedAt < best.capturedAt || (s.capturedAt == best.capturedAt && |s.services| < |best.services|)
  }

  ghost predicate ChosenSnapshotAt(servers: seq<string>, store: Store, n: string, p: nat, best: Snapshot) {
    && p < |servers| && servers[p] in store && Offers(store[servers[p]], servers, n, best)
    && forall q, o :: 0 <= q < p && servers[q] in store && Offers(store[servers[q]], servers, n, o) ==> SnapshotBelow(o, best)
  }

  lemma SnapshotChosenAt(servers: seq<string>, store: Store, n: string) returns (p: nat)
    requires n in servers && BestNode(servers, store, n).Some?
    ensures ChosenSnapshotAt(servers, store, n, p, BestNode(servers, store, n).value)
  {
    ComparisonsRank();
    var pick, best := NodeCandidates(servers, n), BestNode(servers, store, n).value;
    BestIsCandidate(Collect(servers, store, pick), c => NodeUsable(c, n), ActualBetter);
    p := FirstServerWins(servers, store, pick, c => NodeUsable(c, n), ActualBetter);
    CandidateIsOffer(store[servers[p]], servers, n, best);
    forall q, o | 0 <= q < p && servers[q] in store && Offers(store[servers[q]], servers, n, o) ensures SnapshotBelow(o, best) {
      CandidateIsOffer(store[servers[q]], servers, n, o);
      assert Held(servers, store, pick, q, o);
    }
  }

  ghost predicate OfferedBy(servers: seq<string>, store: Store, s: string, n: string, o: Snapshot) {
    s in servers && s in store && Offers(store[s], servers, n, o)
  }

  /** The snapshot chosen for a node is that of the first reachable server to offer one, in its
      own documents or inside its aggregate, that is as fresh as any. */
  lemma SnapshotsAreFreshest(servers: seq<string>, store: Store, n: string)
    ensures n in BestNodes(servers, store) ==> exists p :: ChosenSnapshotAt(servers, store, n, p, BestNodes(servers, store)[n])
    ensures forall s, o :: OfferedBy(servers, store, s, n, o) ==>
              n in BestNodes(servers, store) && SnapshotUpTo(o, BestNodes(servers, store)[n])
  {
    if n in BestNodes(servers, store) { var p := SnapshotChosenAt(servers, store, n); }
    forall s, o | OfferedBy(servers, store, s, n, o)
      ensures n in BestNodes(servers, store) && SnapshotUpTo(o, BestNodes(servers, store)[n])
    {
      ComparisonsRank();
      CandidateIsOffer(store[s], servers, n, o);
      NoneIsBetter(servers, store, NodeCandidates(servers, n), c => NodeUsable(c, n), ActualBetter, s, o);
    }
  }

  predicate HoldsActual(store: Store, s: string, a: Snapshot) {
    s in store && store[s].actual == Some(a) && a.capturedAt != 0
  }

  ghost predicate ChosenActualAt(servers: seq<string>, store: Store, p: nat, best: Snapshot) {
    && p < |servers| && HoldsActual(store, servers[p], best)
    && forall q, a :: 0 <= q < p && HoldsActual(store, servers[q], a) ==> SnapshotBelow(a, best)
  }

  /** The freshest stored aggregate. */
  lemma StoredAggregate(servers: seq<string>, store: Store)
    ensures var best := Best(Collect(servers, store, ActualOf), ActualUsable, ActualBetter);
            && (best.Some? ==> exists p :: ChosenActualAt(servers, store, p, best.value))
            && (forall s, a :: s in servers && HoldsActual(store, s, a) ==> best.Some? && SnapshotUpTo(a, best.value))
  {
    ComparisonsRank();
    var best := Best(Collect(servers, store, ActualOf), ActualUsable, ActualBetter);
    if best.Some? {
      var p := FirstServerWins(servers, store, ActualOf, ActualUsable, ActualBetter);
      forall q, a | 0 <= q < p && HoldsActual(store, servers[q], a) ensures SnapshotBelow(a, best.value) {
        assert Held(servers, store, ActualOf, q, a) && ActualUsable(a);
      }
      assert ChosenActualAt(servers, store, p, best.value);
    }
    forall s, a | s in servers && HoldsActual(store, s, a) ensures best.Some? && SnapshotUpTo(a, best.value) {
      NoneIsBetter(servers, store, ActualOf, ActualUsable, ActualBetter, s, a);
    }
  }

  /** The chosen aggregate is rebuilt from the chosen snapshots of the nodes, under the project
      and environment of the freshest stored aggregate or else of the command; without any node
      snapshot it is that stored aggregate itself. */
  lemma AggregateIsRebuilt(project: string, environment: string, servers: seq<string>, store: Store, now: nat)
    ensures var stored := Best(Collect(servers, store, ActualOf), ActualUsable, ActualBetter);
            var c := Choose(project, environment, servers, store, now);
            if c.nodes == map[] then c.actual == stored
            else if stored.Some? then c.actual == Some(AggregateOf(stored.value.project, stored.value.environment, c.nodes, now))
            else c.actual == Some(AggregateOf(project, environment, c.nodes, now))
  {
    ChooseIsChosen(project, environment, servers, store, now);
  }
}
