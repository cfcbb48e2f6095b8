/** Which leases are left behind, read off the events of a run. */
module LeaseLeaks {
  import opened LeaseServer
  import opened Leases
  import opened Options

  /** At step `i` the server grants or extends the lease of `c` on `n`. */
  ghost predicate GrantedAt(trace: seq<Event>, states: seq<System>, i: nat, c: Client, n: Node) {
    && i < |trace| && i < |states|
    && ((trace[i].Serve? && trace[i].c == c && trace[i].n == n) || trace[i] == LateServe(c, n))
    && (Live(Slot(states[i], n), states[i].now) ==> states[i].slots[n].id == c)
  }

  /** The server carries out a release of `c` on `n`. */
  predicate Releases(e: Event, c: Client, n: Node) {
    e == Release(c, n, true) || e == LateRelease(c, n)
  }

  ghost predicate NotReleasedSince(trace: seq<Event>, i: nat, c: Client, n: Node) {
    forall j :: i < j < |trace| ==> !Releases(trace[j], c, n)
  }

  /** The grant of step `i` is still in force when the trace ends. */
  ghost predicate InForce(trace: seq<Event>, states: seq<System>, i: nat, c: Client, n: Node) {
    && GrantedAt(trace, states, i, c, n) && NotReleasedSince(trace, i, c, n)
    && |states| == |trace| + 1 && states[|trace|].now < states[i].now + TTL
  }

  /** The file of a node comes from a grant that was not released. */
  ghost predicate Sourced(trace: seq<Event>, states: seq<System>, n: Node) {
    |states| == |trace| + 1 &&
    (n in states[|trace|].slots ==>
      exists i: nat :: SourceAt(trace, states, i, states[|trace|].slots[n], n))
  }

  ghost predicate SourceAt(trace: seq<Event>, states: seq<System>, i: nat, lease: Lease, n: Node) {
    && GrantedAt(trace, states, i, lease.id, n) && NotReleasedSince(trace, i, lease.id, n)
    && lease.expires == states[i].now + TTL
  }

  lemma {:induction false} TimeGrows(wants: map<Client, set<Node>>, trace: seq<Event>, states: seq<System>, i: nat, k: nat)
    requires IsRun(wants, trace, states) && i <= k <= |trace|
    ensures states[i].now <= states[k].now
    decreases k - i
  {
    if i == k {
    } else {
      TimeGrows(wants, trace, states, i, k - 1);
      assert states[k] == Next(states[k - 1], trace[k - 1]);
    }
  }

  /** A grant of a shorter trace is one of the longer. */
  lemma GrantExtends(trace: seq<Event>, states: seq<System>, k: nat, i: nat, c: Client, n: Node)
    requires k <= |trace| && |states| == |trace| + 1
    ensures i < k ==> (GrantedAt(trace[..k], states[..k + 1], i, c, n) <==> GrantedAt(trace, states, i, c, n))
  {
  }

  // ---------------------------------------------------------------- a lease has its grant

  lemma SourceCarriesOver(trace: seq<Event>, states: seq<System>, i: nat, lease: Lease, n: Node)
    requires |trace| > 0 && |states| == |trace| + 1
    requires SourceAt(trace[..|trace| - 1], states[..|trace|], i, lease, n) && !Releases(trace[|trace| - 1], lease.id, n)
    ensures SourceAt(trace, states, i, lease, n)
  {
    GrantExtends(trace, states, |trace| - 1, i, lease.id, n);
    forall j | i < j < |trace| ensures !Releases(trace[j], lease.id, n) {
      if j < |trace| - 1 { assert trace[..|trace| - 1][j] == trace[j]; }
    }
  }

  /** What a grant writes, if the lease it extends began earlier. */
  lemma GrantWrites(s: System, e: Event, c: Client, n: Node)
    requires Enabled(s, e) && ((e.Serve? && e.c == c && e.n == n) || e == LateServe(c, n))
    requires Live(Slot(s, n), s.now) ==> s.slots[n].id == c && s.slots[n].expires <= s.now + TTL
    ensures var t := Next(s, e); n in t.slots && t.slots[n].id == c && t.slots[n].expires == s.now + TTL
  {
  }

  lemma SourceIsEarlier(wants: map<Client, set<Node>>, trace: seq<Event>, states: seq<System>, n: Node)
    requires IsRun(wants, trace, states) && Sourced(trace, states, n) && n in states[|trace|].slots
    ensures states[|trace|].slots[n].expires <= states[|trace|].now + TTL
  {
    var i: nat :| SourceAt(trace, states, i, states[|trace|].slots[n], n);
    TimeGrows(wants, trace, states, i, |trace|);
  }

  lemma FreshSource(wants: map<Client, set<Node>>, trace: seq<Event>, states: seq<System>, c: Client, n: Node)
    requires IsRun(wants, trace, states) && |trace| > 0 && GrantedAt(trace, states, |trace| - 1, c, n)
    requires Sourced(trace[..|trace| - 1], states[..|trace|], n)
    ensures n in states[|trace|].slots && SourceAt(trace, states, |trace| - 1, states[|trace|].slots[n], n)
  {
    var k := |trace| - 1;
    assert states[k + 1] == Next(states[k], trace[k]) && states[..k + 1][k] == states[k];
    RunPrefix(wants, trace, states, k);
    if n in states[k].slots { SourceIsEarlier(wants, trace[..k], states[..k + 1], n); }
    GrantWrites(states[k], trace[k], c, n);
  }

  lemma OldSource(wants: map<Client, set<Node>>, trace: seq<Event>, states: seq<System>, n: Node)
    requires IsRun(wants, trace, states) && |trace| > 0 && n in states[|trace|].slots
    requires Sourced(trace[..|trace| - 1], states[..|trace|], n)
    requires var e, s := trace[|trace| - 1], states[|trace| - 1];
             (e.Serve? || e.LateServe?) && e.n == n ==> Live(Slot(s, n), s.now) && s.slots[n].id != e.c
    ensures Sourced(trace, states, n)
  {
    var k := |trace| - 1;
    assert states[k + 1] == Next(states[k], trace[k]) && states[..k + 1][k] == states[k];
    SlotUnchanged(states[k], trace[k], n);
    var i: nat :| SourceAt(trace[..k], states[..k + 1], i, states[k].slots[n], n);
    SourceCarriesOver(trace, states, i, states[k + 1].slots[n], n);
  }

  lemma {:induction false} EveryLeaseIsSourced(wants: map<Client, set<Node>>, trace: seq<Event>, states: seq<System>, n: Node)
    requires IsRun(wants, trace, states)
    ensures Sourced(trace, states, n)
    decreases |trace|
  {
    if trace == [] {
    } else if n in states[|trace|].slots {
      var k := |trace| - 1;
      RunPrefix(wants, trace, states, k);
      EveryLeaseIsSourced(wants, trace[..k], states[..k + 1], n);
      var e := trace[k];
      if (e.Serve? || e.LateServe?) && e.n == n && GrantedAt(trace, states, k, e.c, n) {
        FreshSource(wants, trace, states, e.c, n);
      } else {
        OldSource(wants, trace, states, n);
      }
    }
  }

  /** Handling an acquire leaves every other file, and a file held live by another client. */
  lemma GrantLeaves(s: System, c: Client, m: Node, n: Node)
    requires m == n ==> Live(Slot(s, n), s.now) && s.slots[n].id != c
    ensures Slot(Granting(s, c, m), n) == Slot(s, n)
  {
  }

  /** Handling a release leaves every file but one of that client. */
  lemma ReleaseLeaves(s: System, c: Client, m: Node, n: Node)
    ensures var t := Releasing(s, c, m);
            && (n in t.slots ==> Slot(t, n) == Slot(s, n) && !(m == n && s.slots[n].id == c))
            && (!(m == n && n in s.slots && s.slots[n].id == c) ==> Slot(t, n) == Slot(s, n))
  {
  }

  lemma ServeLeaves(s: System, e: Event, n: Node)
    requires Enabled(s, e) && (e.Serve? || e.LateServe?)
    requires e.n == n ==> Live(Slot(s, n), s.now) && s.slots[n].id != e.c
    ensures Slot(Next(s, e), n) == Slot(s, n)
  {
    GrantLeaves(s, e.c, e.n, n);
    assert Next(s, e).slots == Granting(s, e.c, e.n).slots;
  }

  lemma DropLeaves(s: System, e: Event, n: Node)
    requires Enabled(s, e) && (e.Release? || e.LateRelease?) && n in Next(s, e).slots
    ensures Slot(Next(s, e), n) == Slot(s, n) && !Releases(e, Next(s, e).slots[n].id, n)
  {
    ReleaseLeaves(s, e.c, e.n, n);
  }

  /** Only a grant or a release on a node changes its file. */
  lemma SlotUnchanged(s: System, e: Event, n: Node)
    requires Enabled(s, e) && n in Next(s, e).slots
    requires (e.Serve? || e.LateServe?) && e.n == n ==> Live(Slot(s, n), s.now) && s.slots[n].id != e.c
    ensures Slot(Next(s, e), n) == Slot(s, n) && !Releases(e, Next(s, e).slots[n].id, n)
  {
    if e.Serve? || e.LateServe? {
      ServeLeaves(s, e, n);
    } else if e.Release? || e.LateRelease? {
      DropLeaves(s, e, n);
    }
  }

  // ---------------------------------------------------------------- a grant in force has its lease

  /** The file of `n` holds a lease of `c` at least as long as the grant of a given time. */
  ghost predicate Keeps(s: System, granted: nat, c: Client, n: Node) {
    s.now < granted + TTL ==> n in s.slots && s.slots[n].id == c && granted + TTL <= s.slots[n].expires
  }

  lemma GrantStillKeeps(s: System, d: Client, m: Node, granted: nat, c: Client, n: Node)
    requires Keeps(s, granted, c, n)
    ensures Keeps(Granting(s, d, m), granted, c, n)
  {
  }

  lemma NextStillKeeps(s: System, e: Event, granted: nat, c: Client, n: Node)
    requires Enabled(s, e) && Keeps(s, granted, c, n) && !Releases(e, c, n)
    ensures Keeps(Next(s, e), granted, c, n)
  {
    if e.Serve? || e.LateServe? {
      GrantStillKeeps(s, e.c, e.n, granted, c, n);
      assert Next(s, e).slots == Granting(s, e.c, e.n).slots;
    } else if e.Release? || e.LateRelease? {
      ReleaseLeaves(s, e.c, e.n, n);
    }
  }

  lemma GrantKeeps(s: System, e: Event, c: Client, n: Node)
    requires Enabled(s, e) && ((e.Serve? && e.c == c && e.n == n) || e == LateServe(c, n))
    requires Live(Slot(s, n), s.now) ==> s.slots[n].id == c
    ensures Keeps(Next(s, e), s.now, c, n)
  {
  }

  lemma {:induction false} GrantStaysInForce(wants: map<Client, set<Node>>, trace: seq<Event>, states: seq<System>, i: nat, k: nat, c: Client, n: Node)
    requires IsRun(wants, trace, states) && i < k <= |trace|
    requires GrantedAt(trace, states, i, c, n) && NotReleasedSince(trace, i, c, n)
    ensures Keeps(states[k], states[i].now, c, n)
    decreases k
  {
    assert states[k] == Next(states[k - 1], trace[k - 1]);
    if k == i + 1 {
      GrantKeeps(states[i], trace[i], c, n);
    } else {
      GrantStaysInForce(wants, trace, states, i, k - 1, c, n);
      NextStillKeeps(states[k - 1], trace[k - 1], states[i].now, c, n);
    }
  }

  // ---------------------------------------------------------------- main results

  /** In every run, a node is locked by a client exactly when some grant to that client, in
      time or late, has neither run out nor been followed by a release that was carried out. */
  lemma LockedExactlyByGrants(wants: map<Client, set<Node>>, trace: seq<Event>, states: seq<System>, c: Client, n: Node)
    requires IsRun(wants, trace, states)
    ensures OwnsLive(states[|trace|], c, n) <==> exists i: nat :: InForce(trace, states, i, c, n)
  {
    EveryLeaseIsSourced(wants, trace, states, n);
    var s := states[|trace|];
    if OwnsLive(s, c, n) {
      var i: nat :| SourceAt(trace, states, i, s.slots[n], n);
      assert InForce(trace, states, i, c, n);
    }
    if i: nat :| InForce(trace, states, i, c, n) {
      GrantStaysInForce(wants, trace, states, i, |trace|, c, n);
    }
  }

  /** What can go wrong between a client and a node: a granted or refused request whose
      answer is lost, a request that arrives late, a release that does not arrive in time. */
  predicate Mishap(e: Event, c: Client, n: Node) {
    (e.Serve? && e.c == c && e.n == n && !e.answered) || e == LateServe(c, n) || e == Release(c, n, false)
  }

  /** Without a mishap a client's lease is one the client knows it holds. */
  lemma {:induction false} OwnedIsHeld(wants: map<Client, set<Node>>, trace: seq<Event>, states: seq<System>, k: nat, c: Client, n: Node)
    requires IsRun(wants, trace, states) && k <= |trace|
    requires forall i :: 0 <= i < k ==> !Mishap(trace[i], c, n)
    ensures OwnedHeld(states[k], c, n)
    decreases k
  {
    if k == 0 {
    } else {
      OwnedIsHeld(wants, trace, states, k - 1, c, n);
      OwnedStaysHeld(states[k - 1], trace[k - 1], c, n);
    }
  }

  ghost predicate OwnedHeld(s: System, c: Client, n: Node) {
    n in s.slots && s.slots[n].id == c ==> (c, n) in s.calls && s.calls[(c, n)].Held?
  }

  /** Someone else's request gives `c` nothing. */
  lemma OthersGiveNothing(s: System, d: Client, m: Node, c: Client, n: Node)
    requires OwnedHeld(s, c, n) && (d, m) != (c, n)
    ensures OwnedHeld(Granting(s, d, m), c, n)
  {
  }

  lemma ServedIsHeld(s: System, e: Event, c: Client, n: Node)
    requires e.Serve? && Enabled(s, e) && !Mishap(e, c, n) && OwnedHeld(s, c, n)
    ensures OwnedHeld(Next(s, e), c, n)
  {
    if (e.c, e.n) != (c, n) { OthersGiveNothing(s, e.c, e.n, c, n); }
  }

  lemma OwnedStaysHeld(s: System, e: Event, c: Client, n: Node)
    requires Enabled(s, e) && !Mishap(e, c, n) && OwnedHeld(s, c, n)
    ensures OwnedHeld(Next(s, e), c, n)
  {
    match e
    case Serve(_, _, _, _) => ServedIsHeld(s, e, c, n);
    case LateServe(d, m) => OthersGiveNothing(s, d, m, c, n);
    case Release(d, m, delivered) => ReleaseLeaves(s, d, m, n);
    case LateRelease(d, m) => ReleaseLeaves(s, d, m, n);
    case _ =>
  }

  /** A failed client leaves a node locked exactly when a grant to it is still in force; and
      then an answer was lost there, a request arrived late, or a release did not arrive. */
  lemma FailureLeavesExactly(wants: map<Client, set<Node>>, trace: seq<Event>, states: seq<System>, c: Client, n: Node)
    requires IsRun(wants, trace, states) && c in wants && n in wants[c]
    requires c in states[|trace|].phase && states[|trace|].phase[c] == Failed
    ensures OwnsLive(states[|trace|], c, n) <==> exists i: nat :: InForce(trace, states, i, c, n)
    ensures OwnsLive(states[|trace|], c, n) ==> exists i :: 0 <= i < |trace| && Mishap(trace[i], c, n)
  {
    LockedExactlyByGrants(wants, trace, states, c, n);
    RunKeeps(wants, trace, states, |trace|);
    var s := states[|trace|];
    assert (c, n) in s.calls;
    assert PhaseFits(s.phase[c], s.calls[(c, n)]);
    if forall i :: 0 <= i < |trace| ==> !Mishap(trace[i], c, n) {
      OwnedIsHeld(wants, trace, states, |trace|, c, n);
    }
  }

  /** A lone client whose only call was missed gives up. */
  lemma GivesUp(s: System, c: Client, n: Node)
    requires s.wants == map[c := {n}] && s.phase == map[c := Acquiring] && s.calls == map[(c, n) := Missed]
    ensures Enabled(s, Conclude(c))
    ensures var s1 := Next(s, Conclude(c));
            Enabled(s1, Close(c)) && Next(s1, Close(c)) == s.(phase := map[c := Failed])
  {
    assert n in s.wants[c] && !s.calls[(c, n)].Held?;
    var s1 := Next(s, Conclude(c));
    assert s1.phase[c] == RollingBack;
    assert Next(s1, Close(c)).phase == map[c := Failed];
  }

  lemma LoneStart(c: Client, n: Node)
    ensures var s := Start(map[c := {n}]);
            s.calls == map[(c, n) := Trying(2)] && s.phase == map[c := Acquiring] && s.slots == map[] && s.adrift == multiset{}
  {
  }

  lemma RunExtends(wants: map<Client, set<Node>>, trace: seq<Event>, states: seq<System>, e: Event)
    requires IsRun(wants, trace, states) && Enabled(states[|trace|], e)
    ensures IsRun(wants, trace + [e], states + [Next(states[|trace|], e)])
  {
  }

  lemma OneStep(wants: map<Client, set<Node>>, e0: Event, s1: System)
    requires Enabled(Start(wants), e0) && s1 == Next(Start(wants), e0)
    ensures IsRun(wants, [e0], [Start(wants), s1])
  {
  }

  lemma TwoSteps(wants: map<Client, set<Node>>, e0: Event, e1: Event, s1: System, s2: System)
    requires IsRun(wants, [e0], [Start(wants), s1]) && Enabled(s1, e1) && s2 == Next(s1, e1)
    ensures IsRun(wants, [e0, e1], [Start(wants), s1, s2])
  {
    RunExtends(wants, [e0], [Start(wants), s1], e1);
    assert [e0] + [e1] == [e0, e1] && [Start(wants), s1] + [s2] == [Start(wants), s1, s2];
  }

  lemma ThreeSteps(wants: map<Client, set<Node>>, e0: Event, e1: Event, e2: Event, s1: System, s2: System, s3: System)
    requires IsRun(wants, [e0, e1], [Start(wants), s1, s2]) && Enabled(s2, e2) && s3 == Next(s2, e2)
    ensures IsRun(wants, [e0, e1, e2], [Start(wants), s1, s2, s3])
  {
    RunExtends(wants, [e0, e1], [Start(wants), s1, s2], e2);
    assert [e0, e1] + [e2] == [e0, e1, e2] && [Start(wants), s1, s2] + [s3] == [Start(wants), s1, s2, s3];
  }

  /** Two steps to give up, after a first event that makes the only call miss. */
  lemma GivingUpRuns(c: Client, n: Node, e: Event) returns (states: seq<System>)
    requires var s := Start(map[c := {n}]);
             Enabled(s, e) && Next(s, e).wants == s.wants && Next(s, e).phase == s.phase && Next(s, e).calls == map[(c, n) := Missed]
    ensures IsRun(map[c := {n}], [e, Conclude(c), Close(c)], states)
    ensures states[3] == Next(Start(map[c := {n}]), e).(phase := map[c := Failed])
  {
    var wants := map[c := {n}];
    var s1 := Next(Start(wants), e);
    LoneStart(c, n);
    GivesUp(s1, c, n);
    var s2 := Next(s1, Conclude(c));
    var s3 := Next(s2, Close(c));
    OneStep(wants, e, s1);
    TwoSteps(wants, e, Conclude(c), s1, s2);
    ThreeSteps(wants, e, Conclude(c), Close(c), s1, s2, s3);
    states := [Start(wants), s1, s2, s3];
  }

  /** "On failure every acquired lease is released" does not hold: the server grants the
      lease, the answer is lost, the client fails, and the node stays locked. */
  lemma FailureCanLeaveALease(c: Client, n: Node)
    ensures exists states: seq<System> ::
              var trace := [Serve(c, n, false, false), Conclude(c), Close(c)];
              IsRun(map[c := {n}], trace, states) && states[3].phase == map[c := Failed] && OwnsLive(states[3], c, n)
  {
    LoneStart(c, n);
    var states := GivingUpRuns(c, n, Serve(c, n, false, false));
  }

  lemma LostThenLate(s: System, c: Client, n: Node)
    requires s.slots == map[] && (c, n) in s.adrift
    ensures Enabled(s, LateServe(c, n)) && !OwnsLive(s, c, n) && OwnsLive(Next(s, LateServe(c, n)), c, n)
  {
  }

  /** Nor does it if the request arrives only after the client gave up. */
  lemma LateRequestLocks(c: Client, n: Node)
    ensures exists states: seq<System> ::
              var trace := [Lose(c, n, false), Conclude(c), Close(c), LateServe(c, n)];
              IsRun(map[c := {n}], trace, states) && states[3].phase == map[c := Failed]
              && !OwnsLive(states[3], c, n) && OwnsLive(states[4], c, n)
  {
    LoneStart(c, n);
    var trace := [Lose(c, n, false), Conclude(c), Close(c)];
    var states := GivingUpRuns(c, n, Lose(c, n, false));
    LostThenLate(states[3], c, n);
    RunExtends(map[c := {n}], trace, states, LateServe(c, n));
    assert trace + [LateServe(c, n)] == [Lose(c, n, false), Conclude(c), Close(c), LateServe(c, n)];
  }
}
