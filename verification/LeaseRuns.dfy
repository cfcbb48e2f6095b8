/** What one client does in the course of a run: how often it asks, the order of its phases, and
    what it releases. */
module LeaseRuns {
  import opened LeaseLeaks
  import opened Leases
  import opened LeaseServer

  // ---------------------------------------------------------------- attempts

  predicate IsAttempt(e: Event, c: Client, n: Node) {
    (e.Lose? || e.Serve?) && e.c == c && e.n == n
  }

  /** How often the client sent its request to the node in the first `k` steps. */
  function Attempts(trace: seq<Event>, k: nat, c: Client, n: Node): nat
    requires k <= |trace|
  {
    if k == 0 then 0 else Attempts(trace, k - 1, c, n) + if IsAttempt(trace[k - 1], c, n) then 1 else 0
  }

  /** Where a call stands after so many attempts. */
  ghost predicate Counted(attempts: nat, s: System, c: Client, n: Node) {
    (c, n) in s.calls &&
    match s.calls[(c, n)]
    case Trying(left) => (attempts == 0 && left == 2) || (attempts == 1 && left == 1)
    case _ => 1 <= attempts <= 2
  }

  lemma CountedNext(attempts: nat, s: System, e: Event, c: Client, n: Node)
    requires Enabled(s, e) && Counted(attempts, s, c, n)
    ensures Counted(if IsAttempt(e, c, n) then attempts + 1 else attempts, Next(s, e), c, n)
  {
  }

  /** However the network behaves, a client sends its request to a node at most twice, and has
      sent it before it counts as answered or missed. */
  lemma {:induction false} AtMostTwoAttempts(wants: map<Client, set<Node>>, trace: seq<Event>, states: seq<System>, k: nat, c: Client, n: Node)
    requires IsRun(wants, trace, states) && k <= |trace| && c in wants && n in wants[c]
    ensures Attempts(trace, k, c, n) <= 2 && Counted(Attempts(trace, k, c, n), states[k], c, n)
    decreases k
  {
    if k == 0 {
      assert (c, n) in states[0].calls && states[0].calls[(c, n)] == Trying(2);
    } else {
      AtMostTwoAttempts(wants, trace, states, k - 1, c, n);
      CountedNext(Attempts(trace, k - 1, c, n), states[k - 1], trace[k - 1], c, n);
    }
  }

  // ---------------------------------------------------------------- phases

  /** The order of a client's phases: it acquires, then holds or rolls back, and ends finished or
      failed accordingly. */
  predicate Follows(p: Phase, q: Phase) {
    match p
    case Acquiring => true
    case Holding => q in {Holding, Finishing, Finished}
    case Finishing => q in {Finishing, Finished}
    case RollingBack => q in {RollingBack, Failed}
    case Failed => q == Failed
    case Finished => q == Finished
  }

  lemma NextFollows(s: System, e: Event, c: Client)
    requires Enabled(s, e) && c in s.phase
    ensures c in Next(s, e).phase && Follows(s.phase[c], Next(s, e).phase[c])
  {
  }

  /** No client goes back in that order. */
  lemma {:induction false} PhasesFollow(wants: map<Client, set<Node>>, trace: seq<Event>, states: seq<System>, i: nat, k: nat, c: Client)
    requires IsRun(wants, trace, states) && i <= k <= |trace| && c in states[i].phase
    ensures c in states[k].phase && Follows(states[i].phase[c], states[k].phase[c])
    decreases k - i
  {
    if i == k {
    } else {
      PhasesFollow(wants, trace, states, i, k - 1, c);
      NextFollows(states[k - 1], trace[k - 1], c);
    }
  }

  // ---------------------------------------------------------------- releases

  ghost predicate AnsweredGrant(trace: seq<Event>, states: seq<System>, j: nat, c: Client, n: Node) {
    GrantedAt(trace, states, j, c, n) && trace[j].Serve? && trace[j].answered
  }

  lemma HeldIsServed(s: System, e: Event, c: Client, n: Node)
    requires Enabled(s, e) && (c, n) in s.calls && !s.calls[(c, n)].Held?
    requires (c, n) in Next(s, e).calls && Next(s, e).calls[(c, n)].Held?
    ensures e.Serve? && e.c == c && e.n == n && e.answered
    ensures Live(Slot(s, n), s.now) ==> s.slots[n].id == c
  {
  }

  lemma NothingHeldAtStart(wants: map<Client, set<Node>>, c: Client, n: Node)
    ensures (c, n) in Start(wants).calls ==> Start(wants).calls[(c, n)] == Trying(2)
  {
  }

  lemma StepIsGrant(wants: map<Client, set<Node>>, trace: seq<Event>, states: seq<System>, k: nat, c: Client, n: Node)
    requires IsRun(wants, trace, states) && 0 < k <= |trace| && (c, n) in states[k].calls && states[k].calls[(c, n)].Held?
    ensures (c, n) in states[k - 1].calls
    ensures states[k - 1].calls[(c, n)].Held? || AnsweredGrant(trace, states, k - 1, c, n)
  {
    var s, e := states[k - 1], trace[k - 1];
    NextShape(s, e);
    if !s.calls[(c, n)].Held? { HeldIsServed(s, e, c, n); }
  }

  ghost predicate IsHeld(s: System, c: Client, n: Node) {
    (c, n) in s.calls && s.calls[(c, n)].Held?
  }

  lemma HeldIsLater(wants: map<Client, set<Node>>, trace: seq<Event>, states: seq<System>, k: nat, c: Client, n: Node)
    requires IsRun(wants, trace, states) && k <= |trace| && IsHeld(states[k], c, n)
    ensures 0 < k && (IsHeld(states[k - 1], c, n) || AnsweredGrant(trace, states, k - 1, c, n))
  {
    NothingHeldAtStart(wants, c, n);
    if k > 0 { StepIsGrant(wants, trace, states, k, c, n); }
  }

  /** A lease counts as acquired only after a grant that was answered. */
  lemma {:induction false} HeldWasGranted(wants: map<Client, set<Node>>, trace: seq<Event>, states: seq<System>, k: nat, c: Client, n: Node)
    returns (j: nat)
    requires IsRun(wants, trace, states) && k <= |trace| && IsHeld(states[k], c, n)
    ensures j < k && AnsweredGrant(trace, states, j, c, n)
    decreases k
  {
    HeldIsLater(wants, trace, states, k, c, n);
    if IsHeld(states[k - 1], c, n) {
      j := HeldWasGranted(wants, trace, states, k - 1, c, n);
    } else {
      j := k - 1;
    }
  }

  /** Only what was granted and answered is released, and only by a client that rolls back or is
      done. */
  lemma ReleasedWasGranted(wants: map<Client, set<Node>>, trace: seq<Event>, states: seq<System>, k: nat, c: Client, n: Node)
    requires IsRun(wants, trace, states) && k < |trace| && trace[k].Release? && trace[k].c == c && trace[k].n == n
    ensures exists j: nat :: j < k && AnsweredGrant(trace, states, j, c, n)
    ensures c in states[k].phase && states[k].phase[c] in {RollingBack, Finishing}
  {
    var j := HeldWasGranted(wants, trace, states, k, c, n);
  }

  // ---------------------------------------------------------------- going on

  predicate StepOf(e: Event, c: Client) {
    (e.Serve? || e.Conclude? || e.Finish? || e.Release? || e.Close?) && e.c == c
  }

  lemma AcquiringGoesOn(s: System, c: Client) returns (e: Event)
    requires Inv(s) && c in s.phase && s.phase[c] == Acquiring
    ensures StepOf(e, c) && Enabled(s, e)
  {
    if n :| n in s.wants[c] && s.calls[(c, n)].Trying? {
      e := Serve(c, n, true, true);
    } else {
      e := Conclude(c);
    }
  }

  lemma ReleasingGoesOn(s: System, c: Client) returns (e: Event)
    requires Inv(s) && c in s.phase && s.phase[c] in {RollingBack, Finishing}
    ensures StepOf(e, c) && Enabled(s, e)
  {
    if n :| n in s.wants[c] && s.calls[(c, n)].Held? {
      e := Release(c, n, true);
    } else {
      e := Close(c);
    }
  }

  /** No client is ever stuck: until it has failed or finished, it can take a step. */
  lemma NoClientIsStuck(wants: map<Client, set<Node>>, trace: seq<Event>, states: seq<System>, k: nat, c: Client)
    requires IsRun(wants, trace, states) && k <= |trace| && c in wants
    ensures var s := states[k];
            c in s.phase && (s.phase[c] in {Failed, Finished} || exists e :: StepOf(e, c) && Enabled(s, e))
  {
    RunKeeps(wants, trace, states, k);
    var s := states[k];
    if s.phase[c] == Acquiring {
      var e := AcquiringGoesOn(s, c);
    } else if s.phase[c] == Holding {
      assert StepOf(Finish(c), c) && Enabled(s, Finish(c));
    } else if s.phase[c] in {RollingBack, Finishing} {
      var e := ReleasingGoesOn(s, c);
    }
  }

  // ---------------------------------------------------------------- runs without loss

  /** A run with these states at its end. */
  ghost predicate EndsIn(wants: map<Client, set<Node>>, s: System) {
    exists trace: seq<Event>, states: seq<System> :: IsRun(wants, trace, states) && states[|trace|] == s
  }

  lemma Starts(wants: map<Client, set<Node>>)
    ensures EndsIn(wants, Start(wants))
  {
    assert IsRun(wants, [], [Start(wants)]);
  }

  lemma GoesOn(wants: map<Client, set<Node>>, s: System, e: Event)
    requires EndsIn(wants, s) && Enabled(s, e)
    ensures EndsIn(wants, Next(s, e))
  {
    var trace: seq<Event>, states: seq<System> :| IsRun(wants, trace, states) && states[|trace|] == s;
    RunExtends(wants, trace, states, e);
  }

  lemma Acquires(s: System, c: Client, n: Node)
    requires s.wants == map[c := {n}] && s.phase == map[c := Acquiring] && s.calls == map[(c, n) := Trying(2)] && s.slots == map[]
    ensures Enabled(s, Serve(c, n, true, false))
    ensures var s1 := Next(s, Serve(c, n, true, false));
            && s1 == s.(calls := map[(c, n) := Held(s.now + TTL)], slots := map[n := Lease(c, s.now, s.now + TTL)])
            && Enabled(s1, Conclude(c)) && Next(s1, Conclude(c)) == s1.(phase := map[c := Holding])
  {
    var s1 := Next(s, Serve(c, n, true, false));
    assert s1.calls == map[(c, n) := Held(s.now + TTL)];
    assert forall m :: m in s1.wants[c] ==> m == n;
    assert Next(s1, Conclude(c)).phase == map[c := Holding];
  }

  /** What a client holds on one node is given back. */
  lemma GivesBack(s: System, c: Client, n: Node)
    requires c in s.wants && n in s.wants[c] && s.phase == map[c := Finishing] && (c, n) in s.calls && s.calls[(c, n)].Held?
    requires n in s.slots && s.slots[n].id == c
    ensures Enabled(s, Release(c, n, true))
    ensures Next(s, Release(c, n, true)) == s.(calls := s.calls[(c, n) := Dropped], slots := s.slots - {n})
  {
  }

  lemma Closes(s: System, c: Client, n: Node)
    requires s.wants == map[c := {n}] && s.phase == map[c := Finishing] && s.calls == map[(c, n) := Dropped]
    ensures Enabled(s, Close(c)) && Next(s, Close(c)) == s.(phase := map[c := Finished])
  {
    assert Next(s, Close(c)).phase == map[c := Finished];
  }

  lemma ReturnsAll(s: System, c: Client, n: Node)
    requires s.wants == map[c := {n}] && s.phase == map[c := Holding]
    requires s.calls.Keys == {(c, n)} && s.calls[(c, n)].Held? && s.slots.Keys == {n} && s.slots[n].id == c
    ensures Enabled(s, Finish(c))
    ensures var s1 := Next(s, Finish(c));
            && s1 == s.(phase := map[c := Finishing]) && Enabled(s1, Release(c, n, true))
            && var s2 := Next(s1, Release(c, n, true));
            && s2 == s1.(calls := map[(c, n) := Dropped], slots := map[])
            && Enabled(s2, Close(c)) && Next(s2, Close(c)) == s2.(phase := map[c := Finished])
  {
    var s1 := Next(s, Finish(c));
    assert s1.phase == map[c := Finishing];
    GivesBack(s1, c, n);
    var s2 := Next(s1, Release(c, n, true));
    assert s2.calls == map[(c, n) := Dropped] && s2.slots == map[];
    Closes(s2, c, n);
  }

  lemma LoneHolds(c: Client, n: Node) returns (held: System)
    ensures EndsIn(map[c := {n}], held) && HoldsLive(held, c) && OwnsLive(held, c, n)
    ensures held.wants == map[c := {n}] && held.phase == map[c := Holding]
    ensures held.calls.Keys == {(c, n)} && held.calls[(c, n)].Held? && held.slots.Keys == {n} && held.slots[n].id == c
  {
    var wants := map[c := {n}];
    LoneStart(c, n);
    Starts(wants);
    var s0 := Start(wants);
    Acquires(s0, c, n);
    GoesOn(wants, s0, Serve(c, n, true, false));
    var s1 := Next(s0, Serve(c, n, true, false));
    GoesOn(wants, s1, Conclude(c));
    held := Next(s1, Conclude(c));
  }

  lemma LoneReturns(c: Client, n: Node, held: System) returns (end: System)
    requires EndsIn(map[c := {n}], held) && held.wants == map[c := {n}] && held.phase == map[c := Holding]
    requires held.calls.Keys == {(c, n)} && held.calls[(c, n)].Held? && held.slots.Keys == {n} && held.slots[n].id == c
    ensures EndsIn(map[c := {n}], end) && end.phase == map[c := Finished] && end.slots == map[]
  {
    var wants := map[c := {n}];
    ReturnsAll(held, c, n);
    GoesOn(wants, held, Finish(c));
    var s1 := Next(held, Finish(c));
    GoesOn(wants, s1, Release(c, n, true));
    var s2 := Next(s1, Release(c, n, true));
    GoesOn(wants, s2, Close(c));
    end := Next(s2, Close(c));
  }

  /** A lone client acquires its lease, holds it live, and gives it back. */
  lemma HoldsThenReleases(c: Client, n: Node)
    ensures exists held: System :: EndsIn(map[c := {n}], held) && HoldsLive(held, c) && OwnsLive(held, c, n)
    ensures exists end: System :: EndsIn(map[c := {n}], end) && end.phase == map[c := Finished] && end.slots == map[]
  {
    var held := LoneHolds(c, n);
    var end := LoneReturns(c, n, held);
  }
}
