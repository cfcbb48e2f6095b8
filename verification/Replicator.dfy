/** Replicating a deployment to every peer: one goroutine per peer, a buffered error
    channel, a wait group with its own goroutine, and a select between completion and
    the end of the context. The steps of all of them interleave freely. */
module Replicator {
  import opened Counting

  /** A peer's goroutine: not yet started, in its write, about to send its error, about to
      leave the wait group, gone. The flag remembers whether the write failed. */
  datatype Goroutine = NotStarted | Calling | Sending | Leaving(failed: bool) | Gone(failed: bool)

  datatype Result = Nil | FailedWith(errors: seq<nat>) | Cancelled | TimedOut

  datatype Main = Spawning(next: nat) | Selecting | Closing | Draining(joined: seq<nat>) | Returned(result: Result)

  datatype Waiter = Absent | Waiting | Exited

  datatype System = System(
    peers: seq<Goroutine>,
    group: int,            // the wait group's counter
    buffer: seq<nat>,      // the error channel, by sending peer; its capacity is |peers|
    errsClosed: bool,
    doneClosed: bool,
    waiter: Waiter,
    main: Main,
    parentDone: bool,
    ctxDone: bool,
    panicked: bool)

  datatype Event =
    | Spawn
    | Reply(i: nat, ok: bool)
    | Send(i: nat)
    | Leave(i: nat)
    | WaiterWakes
    | SelectDone
    | SelectContext
    | CloseErrs
    | Receive
    | Join
    | ContextEnds(parent: bool)

  predicate Enabled(s: System, e: Event) {
    match e
    case Spawn => s.main.Spawning?
    case Reply(i, ok) => i < |s.peers| && s.peers[i].Calling?
    case Send(i) => i < |s.peers| && s.peers[i].Sending? && (s.errsClosed || |s.buffer| < |s.peers|)
    case Leave(i) => i < |s.peers| && s.peers[i].Leaving?
    case WaiterWakes => s.waiter == Waiting && s.group == 0
    case SelectDone => s.main.Selecting? && s.doneClosed
    case SelectContext => s.main.Selecting? && s.ctxDone
    case CloseErrs => s.main.Closing?
    case Receive => s.main.Draining? && s.buffer != []
    case Join => s.main.Draining? && s.buffer == [] && s.errsClosed
    case ContextEnds(parent) => true
  }

  /** Sending on or closing a closed channel, and a negative wait group, panic. */
  function Next(s: System, e: Event): System
    requires Enabled(s, e)
  {
    match e
    case Spawn =>
      if s.main.next < |s.peers| then
        s.(peers := s.peers[s.main.next := Calling], group := s.group + 1, main := Spawning(s.main.next + 1))
      else s.(waiter := Waiting, main := Selecting)
    case Reply(i, ok) => s.(peers := s.peers[i := if ok then Leaving(false) else Sending])
    case Send(i) =>
      if s.errsClosed then s.(panicked := true)
      else s.(buffer := s.buffer + [i], peers := s.peers[i := Leaving(true)])
    case Leave(i) =>
      s.(group := s.group - 1, panicked := s.panicked || s.group <= 0,
         peers := s.peers[i := Gone(s.peers[i].failed)])
    case WaiterWakes => s.(waiter := Exited, doneClosed := true, panicked := s.panicked || s.doneClosed)
    case SelectDone => s.(main := Closing)
    case SelectContext => s.(main := Returned(if s.parentDone then Cancelled else TimedOut))
    case CloseErrs => s.(errsClosed := true, panicked := s.panicked || s.errsClosed, main := Draining([]))
    case Receive => s.(buffer := s.buffer[1..], main := Draining(s.main.joined + [s.buffer[0]]))
    case Join => s.(main := Returned(if s.main.joined == [] then Nil else FailedWith(s.main.joined)))
    case ContextEnds(parent) => s.(ctxDone := true, parentDone := s.parentDone || parent)
  }

  /** With no peers the call returns at once. */
  function Start(n: nat): System {
    System(seq(n, i => NotStarted), 0, [], false, false, Absent,
           if n == 0 then Returned(Nil) else Spawning(0), false, false, false)
  }

  ghost predicate IsRun(s: System, trace: seq<Event>)
    decreases |trace|
  {
    trace == [] || (Enabled(s, trace[0]) && IsRun(Next(s, trace[0]), trace[1..]))
  }

  ghost function After(s: System, trace: seq<Event>): System
    requires IsRun(s, trace)
    decreases |trace|
  {
    if trace == [] then s else After(Next(s, trace[0]), trace[1..])
  }

  // ---------------------------------------------------------------- invariant

  /** Goroutines counted by the wait group. */
  function Running(peers: seq<Goroutine>): nat {
    if peers == [] then 0
    else (if peers[0].NotStarted? || peers[0].Gone? then 0 else 1) + Running(peers[1..])
  }

  lemma {:induction false} RunningUpdate(peers: seq<Goroutine>, i: nat, g: Goroutine)
    requires i < |peers|
    ensures var was := peers[i];
            Running(peers[i := g]) ==
            Running(peers) - (if was.NotStarted? || was.Gone? then 0 else 1)
                           + (if g.NotStarted? || g.Gone? then 0 else 1)
  {
    if i == 0 {
      assert peers[0 := g][1..] == peers[1..];
    } else {
      assert peers[i := g][1..] == peers[1..][i - 1 := g];
      RunningUpdate(peers[1..], i - 1, g);
    }
  }

  lemma {:induction false} RunningZero(peers: seq<Goroutine>, i: nat)
    requires i < |peers| && Running(peers) == 0
    ensures peers[i].NotStarted? || peers[i].Gone?
  {
    if i > 0 { RunningZero(peers[1..], i - 1); }
  }

  lemma {:induction false} RunningPositive(peers: seq<Goroutine>, i: nat)
    requires i < |peers| && !peers[i].NotStarted? && !peers[i].Gone?
    ensures Running(peers) > 0
  {
    if i > 0 { RunningPositive(peers[1..], i - 1); }
  }

  lemma {:induction false} RunningNone(n: nat)
    ensures Running(seq(n, i => NotStarted)) == 0
  {
    if n > 0 {
      assert seq(n, i => NotStarted)[1..] == seq(n - 1, i => NotStarted);
      RunningNone(n - 1);
    }
  }

  predicate Reported(g: Goroutine) {
    (g.Leaving? || g.Gone?) && g.failed
  }

  predicate AllGone(s: System) {
    forall i :: 0 <= i < |s.peers| ==> s.peers[i].Gone?
  }

  /** The errors sent so far: those received, then those still in the channel. */
  function Sent(s: System): seq<nat> {
    match s.main
    case Draining(joined) => joined + s.buffer
    case Returned(FailedWith(errors)) => errors + s.buffer
    case _ => s.buffer
  }

  /** Each failed peer that has sent is reported exactly once, and nothing else is. */
  ghost predicate ReportsFailures(s: System) {
    && Distinct(Sent(s))
    && (forall k :: 0 <= k < |Sent(s)| ==> Sent(s)[k] < |s.peers| && Reported(s.peers[Sent(s)[k]]))
    && (forall i :: 0 <= i < |s.peers| && Reported(s.peers[i]) ==> i in Sent(s))
  }

  /** Where the caller, the waiter and the channels stand. */
  ghost predicate Shape(s: System) {
    && (s.main.Spawning? ==> s.main.next <= |s.peers| && s.waiter == Absent)
    && (|s.peers| == 0 ==> s.main == Returned(Nil))
    && (s.waiter == Absent <==> s.main.Spawning? || |s.peers| == 0)
    && (s.doneClosed <==> s.waiter == Exited)
    && (s.errsClosed ==> s.doneClosed && (s.main.Draining? || s.main.Returned?))
    && (s.main.Closing? ==> s.doneClosed && !s.errsClosed)
    && (s.main.Draining? ==> s.errsClosed)
    && (s.main.Returned? && s.main.result.FailedWith? ==> s.errsClosed && s.buffer == [] && s.main.result.errors != [])
    && (s.main.Returned? && s.main.result.Nil? ==> s.buffer == [] && (|s.peers| == 0 || s.doneClosed))
  }

  ghost predicate Inv(s: System) {
    && !s.panicked && Shape(s)
    && s.group == Running(s.peers)
    && ReportsFailures(s)
    && (forall i :: 0 <= i < |s.peers| ==> (s.peers[i].NotStarted? <==> s.main.Spawning? && s.main.next <= i))
    && (s.doneClosed ==> AllGone(s))
  }

  lemma StartInv(n: nat)
    ensures Inv(Start(n))
  {
    RunningNone(n);
  }

  lemma NextKeeps(s: System, e: Event)
    requires Inv(s) && Enabled(s, e)
    ensures Inv(Next(s, e))
  {
    match e
    case Spawn => SpawnKeeps(s);
    case Reply(i, ok) => ReplyKeeps(s, i, ok);
    case Send(i) => SendKeeps(s, i);
    case Leave(i) => LeaveKeeps(s, i);
    case WaiterWakes => WaiterKeeps(s);
    case Receive => ReceiveKeeps(s);
    case Join => JoinKeeps(s);
    case _ => MainKeeps(s, e);
  }

  lemma WaiterKeeps(s: System)
    requires Inv(s) && Enabled(s, WaiterWakes)
    ensures Inv(Next(s, WaiterWakes))
  {
    forall i | 0 <= i < |s.peers| ensures s.peers[i].Gone? { RunningZero(s.peers, i); }
    assert Sent(Next(s, WaiterWakes)) == Sent(s);
  }

  lemma ReceiveKeeps(s: System)
    requires Inv(s) && Enabled(s, Receive)
    ensures Inv(Next(s, Receive))
  {
    assert Sent(Next(s, Receive)) == Sent(s);
  }

  lemma JoinKeeps(s: System)
    requires Inv(s) && Enabled(s, Join)
    ensures Inv(Next(s, Join))
  {
    assert Sent(Next(s, Join)) == Sent(s);
  }

  lemma MainKeeps(s: System, e: Event)
    requires Inv(s) && Enabled(s, e)
    requires e.SelectDone? || e.SelectContext? || e.CloseErrs? || e.ContextEnds?
    ensures Inv(Next(s, e))
  {
    assert Sent(Next(s, e)) == Sent(s);
  }

  lemma SpawnKeeps(s: System)
    requires Inv(s) && Enabled(s, Spawn)
    ensures Inv(Next(s, Spawn))
  {
    if s.main.next < |s.peers| { RunningUpdate(s.peers, s.main.next, Calling); }
    SpawnReports(s);
  }

  lemma SpawnReports(s: System)
    requires ReportsFailures(s) && Enabled(s, Spawn)
    requires s.main.next < |s.peers| ==> s.peers[s.main.next].NotStarted?
    ensures ReportsFailures(Next(s, Spawn))
  {
    var s' := Next(s, Spawn);
    assert Sent(s') == Sent(s);
    forall j | 0 <= j < |s.peers| ensures Reported(s'.peers[j]) <==> Reported(s.peers[j]) { }
  }

  lemma ReplyKeeps(s: System, i: nat, ok: bool)
    requires Inv(s) && Enabled(s, Reply(i, ok))
    ensures Inv(Next(s, Reply(i, ok)))
  {
    ActiveOpen(s, i);
    RunningUpdate(s.peers, i, if ok then Leaving(false) else Sending);
    ReplyReports(s, i, ok);
  }

  lemma ReplyReports(s: System, i: nat, ok: bool)
    requires ReportsFailures(s) && Enabled(s, Reply(i, ok))
    ensures ReportsFailures(Next(s, Reply(i, ok)))
  {
    var s' := Next(s, Reply(i, ok));
    assert Sent(s') == Sent(s);
    forall j | 0 <= j < |s.peers| ensures Reported(s'.peers[j]) <==> Reported(s.peers[j]) { }
  }

  lemma SendKeeps(s: System, i: nat)
    requires Inv(s) && Enabled(s, Send(i))
    ensures Inv(Next(s, Send(i)))
  {
    ActiveOpen(s, i);
    RunningUpdate(s.peers, i, Leaving(true));
    SendReports(s, i);
  }

  lemma SendReports(s: System, i: nat)
    requires ReportsFailures(s) && Enabled(s, Send(i)) && !s.errsClosed
    requires !(s.main.Returned? && s.main.result.FailedWith?) && !s.main.Draining?
    ensures ReportsFailures(Next(s, Send(i)))
  {
    var s' := Next(s, Send(i));
    assert Sent(s') == Sent(s) + [i];
    assert i !in Sent(s);
    forall k | 0 <= k < |Sent(s')| ensures Sent(s')[k] < |s'.peers| && Reported(s'.peers[Sent(s')[k]]) {
      if k < |Sent(s)| { assert Sent(s)[k] in Sent(s) && Sent(s)[k] != i; }
    }
    forall j | 0 <= j < |s'.peers| && Reported(s'.peers[j]) ensures j in Sent(s') {
      if j == i { assert Sent(s')[|Sent(s)|] == i; } else { assert j in Sent(s); }
    }
  }

  lemma LeaveKeeps(s: System, i: nat)
    requires Inv(s) && Enabled(s, Leave(i))
    ensures Inv(Next(s, Leave(i)))
  {
    ActiveOpen(s, i);
    RunningPositive(s.peers, i);
    RunningUpdate(s.peers, i, Gone(s.peers[i].failed));
    LeaveReports(s, i);
  }

  lemma LeaveReports(s: System, i: nat)
    requires ReportsFailures(s) && Enabled(s, Leave(i))
    ensures ReportsFailures(Next(s, Leave(i)))
  {
    var s' := Next(s, Leave(i));
    assert Sent(s') == Sent(s);
    forall j | 0 <= j < |s.peers| ensures Reported(s'.peers[j]) <==> Reported(s.peers[j]) { }
  }

  /** While a goroutine is active the error channel is open. */
  lemma ActiveOpen(s: System, i: nat)
    requires Inv(s) && i < |s.peers| && !s.peers[i].Gone?
    ensures !s.errsClosed && !s.doneClosed
    ensures !(s.main.Returned? && (s.main.result.FailedWith? || s.main.result.Nil?))
  {
  }

  lemma {:induction false} RunKeeps(s: System, trace: seq<Event>)
    requires Inv(s) && IsRun(s, trace)
    ensures Inv(After(s, trace)) && |After(s, trace).peers| == |s.peers|
    decreases |trace|
  {
    if trace == [] {
    } else {
      NextKeeps(s, trace[0]);
      RunKeeps(Next(s, trace[0]), trace[1..]);
    }
  }

  // ---------------------------------------------------------------- main results

  /** In every interleaving: nothing panics, because no channel is closed twice or sent on once
      closed and the wait group never goes below zero; and a goroutine about to report its
      error finds the channel open and with room, whether or not the caller has returned. */
  lemma SendNeverBlocksOrPanics(n: nat, trace: seq<Event>, i: nat)
    requires IsRun(Start(n), trace) && i < n
    ensures var s := After(Start(n), trace);
            && !s.panicked
            && (i < |s.peers| && s.peers[i].Sending? ==> !s.errsClosed && |s.buffer| < n && Enabled(s, Send(i)))
            && (Enabled(s, Leave(i)) ==> s.group > 0)
            && (Enabled(s, WaiterWakes) ==> !s.doneClosed)
            && (Enabled(s, CloseErrs) ==> !s.errsClosed)
  {
    StartInv(n);
    RunKeeps(Start(n), trace);
    var s := After(Start(n), trace);
    if Enabled(s, Leave(i)) { RunningPositive(s.peers, i); }
    if s.peers[i].Sending? {
      ActiveOpen(s, i);
      assert i !in Sent(s);
      DistinctAvoids(Sent(s), n, i);
    }
  }

  predicate Unanswered(g: Goroutine) {
    g.NotStarted? || g.Calling?
  }

  predicate Failing(g: Goroutine) {
    g.Sending? || Reported(g)
  }

  /** What the replies in a trace say about a peer that had not answered before. */
  ghost predicate Answered(g: Goroutine, trace: seq<Event>, i: nat) {
    && (Unanswered(g) <==> Reply(i, true) !in trace && Reply(i, false) !in trace)
    && (Failing(g) <==> Reply(i, false) in trace)
    && (!Unanswered(g) && !Failing(g) <==> Reply(i, true) in trace)
  }

  /** A peer answers once, and whether it failed is what it answered. */
  lemma {:induction false} RepliesDecide(s: System, trace: seq<Event>, i: nat)
    requires Inv(s) && IsRun(s, trace) && i < |s.peers|
    ensures var t := After(s, trace);
            && i < |t.peers|
            && (Unanswered(s.peers[i]) ==> Answered(t.peers[i], trace, i))
            && (!Unanswered(s.peers[i]) ==>
                  && !Unanswered(t.peers[i]) && (Failing(t.peers[i]) <==> Failing(s.peers[i]))
                  && Reply(i, true) !in trace && Reply(i, false) !in trace)
    decreases |trace|
  {
    if trace == [] {
    } else {
      NextKeeps(s, trace[0]);
      OneReply(s, trace[0], i);
      RepliesDecide(Next(s, trace[0]), trace[1..], i);
      assert trace == [trace[0]] + trace[1..];
    }
  }

  lemma OneReply(s: System, e: Event, i: nat)
    requires Inv(s) && Enabled(s, e) && i < |s.peers|
    ensures var s' := Next(s, e);
            && i < |s'.peers|
            && (Unanswered(s.peers[i]) ==> Answered(s'.peers[i], [e], i))
            && (!Unanswered(s.peers[i]) ==>
                  && !Unanswered(s'.peers[i]) && (Failing(s'.peers[i]) <==> Failing(s.peers[i]))
                  && e != Reply(i, true) && e != Reply(i, false))
  {
    match e
    case Spawn => assert Next(s, e).peers[i] == s.peers[i] || s.peers[i].NotStarted?;
    case Reply(j, ok) => assert j != i ==> Next(s, e).peers[i] == s.peers[i];
    case Send(j) => assert j != i ==> Next(s, e).peers[i] == s.peers[i];
    case Leave(j) => assert j != i ==> Next(s, e).peers[i] == s.peers[i];
    case _ => assert Next(s, e).peers == s.peers;
  }

  /** A nil result means that every peer answered with success. A failure result lists each
      peer that answered with an error once, and no other, after all of them answered. */
  lemma ResultIsExact(n: nat, trace: seq<Event>)
    requires IsRun(Start(n), trace)
    ensures var s := After(Start(n), trace);
            s.main.Returned? ==>
              && (s.main.result.Nil? ==> forall i: nat :: i < n ==> Reply(i, true) in trace && Reply(i, false) !in trace)
              && (s.main.result.FailedWith? ==>
                    && s.main.result.errors != [] && Distinct(s.main.result.errors)
                    && forall i: nat :: i < n ==>
                         && (i in s.main.result.errors <==> Reply(i, false) in trace)
                         && (i !in s.main.result.errors <==> Reply(i, true) in trace))
  {
    StartInv(n);
    RunKeeps(Start(n), trace);
    var s := After(Start(n), trace);
    if s.main.Returned? && (s.main.result.Nil? || s.main.result.FailedWith?) {
      assert Sent(s) == if s.main.result.Nil? then [] else s.main.result.errors;
      forall i: nat | i < n
        ensures i in Sent(s) <==> Reply(i, false) in trace
        ensures i !in Sent(s) <==> Reply(i, true) in trace
      {
        RepliesDecide(Start(n), trace, i);
        AllAnswered(s, i);
      }
    }
  }

  /** Once the errors are collected, the failed peers are exactly those reported. */
  lemma AllAnswered(s: System, i: nat)
    requires Inv(s) && i < |s.peers| && s.main.Returned? && (s.main.result.Nil? || s.main.result.FailedWith?)
    ensures s.peers[i].Gone? && (Failing(s.peers[i]) <==> i in Sent(s))
  {
  }

  ghost predicate GaveUp(m: Main) {
    m.Returned? && (m.result.Cancelled? || m.result.TimedOut?)
  }

  /** At step `k` the caller saw that its context had ended, and `cancelled` says whether the
      parent's had. */
  ghost predicate SawTheEnd(s: System, trace: seq<Event>, k: nat, cancelled: bool) {
    && k < |trace| && trace[k] == SelectContext
    && (cancelled <==> s.parentDone || ContextEnds(true) in trace[..k])
    && (s.ctxDone || ContextEnds(true) in trace[..k] || ContextEnds(false) in trace[..k])
  }

  lemma SawItLater(s: System, trace: seq<Event>, k: nat, cancelled: bool)
    requires trace != [] && Enabled(s, trace[0]) && SawTheEnd(Next(s, trace[0]), trace[1..], k, cancelled)
    ensures SawTheEnd(s, trace, k + 1, cancelled)
  {
    assert trace[..k + 1] == [trace[0]] + trace[1..][..k];
  }

  lemma {:induction false} ReturnedStays(s: System, trace: seq<Event>)
    requires s.main.Returned? && IsRun(s, trace)
    ensures After(s, trace).main == s.main
    decreases |trace|
  {
    if trace == [] {
    } else {
      ReturnedStays(Next(s, trace[0]), trace[1..]);
    }
  }

  lemma FirstGivingUp(s: System, e: Event)
    requires Enabled(s, e) && !GaveUp(s.main) && GaveUp(Next(s, e).main)
    ensures e == SelectContext && s.ctxDone && (Next(s, e).main.result.Cancelled? <==> s.parentDone)
  {
  }

  lemma {:induction false} EndWasSeen(s: System, trace: seq<Event>) returns (k: nat)
    requires IsRun(s, trace) && !GaveUp(s.main) && GaveUp(After(s, trace).main)
    ensures SawTheEnd(s, trace, k, After(s, trace).main.result.Cancelled?)
    decreases |trace|
  {
    var s1 := Next(s, trace[0]);
    if GaveUp(s1.main) {
      FirstGivingUp(s, trace[0]);
      ReturnedStays(s1, trace[1..]);
      k := 0;
    } else {
      k := EndWasSeen(s1, trace[1..]);
      SawItLater(s, trace, k, After(s, trace).main.result.Cancelled?);
      k := k + 1;
    }
  }

  /** The caller gives up only after the context ended. It says cancelled exactly if the
      parent's had ended by then, and timed out otherwise. */
  lemma GivingUpIsExact(n: nat, trace: seq<Event>)
    requires IsRun(Start(n), trace) && GaveUp(After(Start(n), trace).main)
    ensures exists k: nat :: GaveUpAt(trace, k, After(Start(n), trace).main.result)
  {
    var k := EndWasSeen(Start(n), trace);
    assert GaveUpAt(trace, k, After(Start(n), trace).main.result);
  }

  ghost predicate GaveUpAt(trace: seq<Event>, k: nat, result: Result) {
    && k < |trace| && trace[k] == SelectContext
    && (if ContextEnds(true) in trace[..k] then result == Cancelled else ContextEnds(false) in trace[..k] && result == TimedOut)
  }

  /** The context is over exactly when an event of the run ended it. */
  lemma {:induction false} ContextIsSeen(s: System, trace: seq<Event>)
    requires IsRun(s, trace)
    ensures After(s, trace).ctxDone <==> s.ctxDone || ContextEnds(true) in trace || ContextEnds(false) in trace
    decreases |trace|
  {
    if trace == [] {
    } else {
      ContextIsSeen(Next(s, trace[0]), trace[1..]);
      assert trace == [trace[0]] + trace[1..];
    }
  }

  /** A caller that waits can give up as soon as the context is over, and not before. */
  lemma GivingUpIsPossible(n: nat, trace: seq<Event>)
    requires IsRun(Start(n), trace) && After(Start(n), trace).main.Selecting?
    ensures Enabled(After(Start(n), trace), SelectContext) <==> ContextEnds(true) in trace || ContextEnds(false) in trace
  {
    ContextIsSeen(Start(n), trace);
  }

  /** A run of one peer in which the caller gives up while the peer is still writing. */
  lemma GivingUpHappens(parent: bool)
    ensures var trace := [Spawn, Spawn, ContextEnds(parent), SelectContext];
            && IsRun(Start(1), trace)
            && After(Start(1), trace).main == Returned(if parent then Cancelled else TimedOut)
            && After(Start(1), trace).peers == [Calling]
  {
    var s0 := Start(1);
    var s1 := Next(s0, Spawn);
    assert s1.peers == [Calling];
    var s2 := Next(s1, Spawn);
    var s3 := Next(s2, ContextEnds(parent));
    var s4 := Next(s3, SelectContext);
    OneMore(s3, SelectContext, []);
    OneMore(s2, ContextEnds(parent), [SelectContext]);
    OneMore(s1, Spawn, [ContextEnds(parent), SelectContext]);
    OneMore(s0, Spawn, [Spawn, ContextEnds(parent), SelectContext]);
  }

  lemma OneMore(s: System, e: Event, rest: seq<Event>)
    requires Enabled(s, e) && IsRun(Next(s, e), rest)
    ensures IsRun(s, [e] + rest) && After(s, [e] + rest) == After(Next(s, e), rest)
  {
    assert ([e] + rest)[1..] == rest;
  }

  predicate Quiet(s: System) {
    s.main.Returned? && AllGone(s) && s.waiter != Waiting
  }

  /** No interleaving gets stuck: until the caller has returned and every goroutine has
      exited, one of them can take a step. */
  lemma NoDeadlock(n: nat, trace: seq<Event>)
    requires IsRun(Start(n), trace)
    ensures var s := After(Start(n), trace);
            Quiet(s) || exists e :: Enabled(s, e) && !e.ContextEnds?
  {
    StartInv(n);
    RunKeeps(Start(n), trace);
    var s := After(Start(n), trace);
    if s.main.Spawning? {
      assert Enabled(s, Spawn);
    } else if !AllGone(s) {
      var i :| 0 <= i < |s.peers| && !s.peers[i].Gone?;
      if s.peers[i].Calling? { assert Enabled(s, Reply(i, true)); }
      if s.peers[i].Sending? { SendNeverBlocksOrPanics(n, trace, i); assert Enabled(s, Send(i)); }
      if s.peers[i].Leaving? { assert Enabled(s, Leave(i)); }
    } else if s.waiter == Waiting {
      AllGoneRunsNone(s.peers);
      assert Enabled(s, WaiterWakes);
    } else if s.main.Selecting? {
      assert Enabled(s, SelectDone);
    } else if s.main.Closing? {
      assert Enabled(s, CloseErrs);
    } else if s.main.Draining? {
      assert Enabled(s, Receive) || Enabled(s, Join);
    }
  }

  lemma {:induction false} AllGoneRunsNone(peers: seq<Goroutine>)
    requires forall i :: 0 <= i < |peers| ==> peers[i].Gone?
    ensures Running(peers) == 0
  {
    if peers == [] {
    } else {
      AllGoneRunsNone(peers[1..]);
    }
  }

  // ---------------------------------------------------------------- every run ends

  /** How many steps a goroutine has left. */
  function Left(g: Goroutine): nat {
    match g
    case NotStarted => 4
    case Calling => 3
    case Sending => 2
    case Leaving(_) => 1
    case Gone(_) => 0
  }

  function LeftOf(peers: seq<Goroutine>): nat {
    if peers == [] then 0 else Left(peers[0]) + LeftOf(peers[1..])
  }

  lemma {:induction false} LeftUpdate(peers: seq<Goroutine>, i: nat, g: Goroutine)
    requires i < |peers|
    ensures LeftOf(peers[i := g]) == LeftOf(peers) - Left(peers[i]) + Left(g)
  {
    var after := peers[i := g];
    if i == 0 {
      assert after[1..] == peers[1..];
    } else {
      LeftUpdate(peers[1..], i - 1, g);
      assert after[1..] == peers[1..][i - 1 := g];
    }
  }

  /** A bound on the steps still to come: a goroutine's step may fill the channel by one. */
  function Measure(s: System): nat {
    2 * LeftOf(s.peers) + |s.buffer| + (if s.waiter == Exited then 0 else 1)
    + match s.main
      case Spawning(_) => 4
      case Selecting => 3
      case Closing => 2
      case Draining(_) => 1
      case Returned(_) => 0
  }

  /** Every step but the end of the context brings the end nearer. */
  lemma StepLowers(s: System, e: Event)
    requires Inv(s) && Enabled(s, e)
    ensures e.ContextEnds? ==> Measure(Next(s, e)) == Measure(s)
    ensures !e.ContextEnds? ==> Measure(Next(s, e)) < Measure(s)
  {
    match e
    case Spawn => if s.main.next < |s.peers| { LeftUpdate(s.peers, s.main.next, Calling); }
    case Reply(i, ok) => LeftUpdate(s.peers, i, if ok then Leaving(false) else Sending);
    case Send(i) =>
      ActiveOpen(s, i);
      LeftUpdate(s.peers, i, Leaving(true));
    case Leave(i) => LeftUpdate(s.peers, i, Gone(s.peers[i].failed));
    case _ =>
  }

  /** The steps of a run other than the end of the context. */
  function Steps(trace: seq<Event>): nat {
    if trace == [] then 0 else (if trace[0].ContextEnds? then 0 else 1) + Steps(trace[1..])
  }

  lemma {:induction false} RunLowers(s: System, trace: seq<Event>)
    requires Inv(s) && IsRun(s, trace)
    ensures Steps(trace) + Measure(After(s, trace)) <= Measure(s)
    decreases |trace|
  {
    if trace == [] {
    } else {
      NextKeeps(s, trace[0]);
      StepLowers(s, trace[0]);
      RunLowers(Next(s, trace[0]), trace[1..]);
    }
  }

  lemma {:induction false} LeftAtStart(n: nat)
    ensures LeftOf(seq(n, i => NotStarted)) == 4 * n
  {
    var peers := seq(n, i => NotStarted);
    if n == 0 {
    } else {
      assert peers[1..] == seq(n - 1, i => NotStarted);
      LeftAtStart(n - 1);
    }
  }

  /** Every run is over after at most eight steps per peer and five more, however often the
      context ends, and a run that can go no further has returned and left nothing running. */
  lemma EveryRunEnds(n: nat, trace: seq<Event>)
    requires IsRun(Start(n), trace)
    ensures Steps(trace) <= 8 * n + 5
    ensures var s := After(Start(n), trace); (forall e :: Enabled(s, e) ==> e.ContextEnds?) ==> Quiet(s)
  {
    StartInv(n);
    LeftAtStart(n);
    RunLowers(Start(n), trace);
    NoDeadlock(n, trace);
  }
}
