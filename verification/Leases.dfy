/** Any number of clients acquiring leases on sets of nodes at once, one goroutine per
    node: a state machine whose steps are server actions, losses, messages that arrive after
    their sender gave up, the clock and the clients' own decisions, in any interleaving. */
module Leases {
  import opened LeaseServer
  import opened Options

  /** A client is named by its request identity, which no other client shares. */
  type Client = string
  type Node = string

  /** One client's call to one node, as the client sees it. */
  datatype Call =
    | Trying(left: nat)     // attempts left
    | Held(expires: nat)    // the acquire returned success, with this expiry
    | Missed                // the acquire returned an error
    | Dropped               // the release was attempted

  datatype Phase = Acquiring | Holding | RollingBack | Finishing | Failed | Finished

  datatype System = System(
    now: nat,
    slots: map<Node, Lease>,
    wants: map<Client, set<Node>>,
    calls: map<(Client, Node), Call>,
    phase: map<Client, Phase>,
    adrift: multiset<(Client, Node)>,         // acquires their client counts as lost
    loose: multiset<(Client, Node)>)          // releases their client counts as lost

  datatype Event =
    | Tick
    | Lose(c: Client, n: Node, retry: bool)                   // the request does not arrive in time
    | Serve(c: Client, n: Node, answered: bool, retry: bool)  // the server handles the request
    | LateServe(c: Client, n: Node)                           // it arrives after all
    | Conclude(c: Client)                                     // every goroutine is done
    | Finish(c: Client)                                       // the operation under the leases ends
    | Release(c: Client, n: Node, delivered: bool)
    | LateRelease(c: Client, n: Node)
    | Close(c: Client)                                        // the last release was attempted

  const TTL: nat := 1800

  predicate Known(s: System, c: Client, n: Node) {
    c in s.wants && c in s.phase && n in s.wants[c] && (c, n) in s.calls
  }

  predicate Enabled(s: System, e: Event) {
    match e
    case Tick => true
    case Lose(c, n, retry) => Known(s, c, n) && s.calls[(c, n)].Trying?
    case Serve(c, n, answered, retry) => Known(s, c, n) && s.calls[(c, n)].Trying?
    case LateServe(c, n) => (c, n) in s.adrift
    case Conclude(c) =>
      && c in s.wants && c in s.phase && s.phase[c] == Acquiring
      && forall n :: n in s.wants[c] ==> (c, n) in s.calls && !s.calls[(c, n)].Trying?
    case Finish(c) => c in s.phase && s.phase[c] == Holding
    case Release(c, n, delivered) =>
      && Known(s, c, n) && s.calls[(c, n)].Held?
      && (s.phase[c] == RollingBack || s.phase[c] == Finishing)
    case LateRelease(c, n) => (c, n) in s.loose
    case Close(c) =>
      && c in s.wants && c in s.phase && (s.phase[c] == RollingBack || s.phase[c] == Finishing)
      && forall n :: n in s.wants[c] ==> (c, n) in s.calls && !s.calls[(c, n)].Held?
  }

  /** An attempt that ended without an answer: try again once, unless it may not be repeated. */
  function Uncertain(call: Call, retry: bool): Call
    requires call.Trying?
  {
    if call.left == 2 && retry then Trying(1) else Missed
  }

  function Slot(s: System, n: Node): Option<Lease> {
    if n in s.slots then Some(s.slots[n]) else None
  }

  /** The server handles an acquire. */
  function Granting(s: System, c: Client, n: Node): System {
    s.(slots := s.slots[n := Acquired(Slot(s, n), c, s.now, TTL).value])
  }

  /** The server handles a release. */
  function Releasing(s: System, c: Client, n: Node): System {
    s.(slots := if Released(Slot(s, n), c) == None then s.slots - {n} else s.slots)
  }

  /** What the client makes of an answer, or of none. */
  function Answer(s: System, c: Client, n: Node, answered: bool, retry: bool): Call
    requires Known(s, c, n) && s.calls[(c, n)].Trying?
  {
    var lease := Acquired(Slot(s, n), c, s.now, TTL).value;
    if !answered then Uncertain(s.calls[(c, n)], retry)
    else if lease.id == c then Held(lease.expires)
    else Missed
  }

  function Next(s: System, e: Event): System
    requires Enabled(s, e)
  {
    match e
    case Tick => s.(now := s.now + 1)
    case Lose(c, n, retry) =>
      s.(calls := s.calls[(c, n) := Uncertain(s.calls[(c, n)], retry)], adrift := s.adrift + multiset{(c, n)})
    case Serve(c, n, answered, retry) =>
      Granting(s, c, n).(calls := s.calls[(c, n) := Answer(s, c, n, answered, retry)])
    case LateServe(c, n) => Granting(s, c, n).(adrift := s.adrift - multiset{(c, n)})
    case Conclude(c) =>
      s.(phase := s.phase[c := if forall n :: n in s.wants[c] ==> s.calls[(c, n)].Held? then Holding else RollingBack])
    case Finish(c) => s.(phase := s.phase[c := Finishing])
    case Release(c, n, delivered) =>
      if delivered then Releasing(s, c, n).(calls := s.calls[(c, n) := Dropped])
      else s.(calls := s.calls[(c, n) := Dropped], loose := s.loose + multiset{(c, n)})
    case LateRelease(c, n) => Releasing(s, c, n).(loose := s.loose - multiset{(c, n)})
    case Close(c) =>
      s.(phase := s.phase[c := if s.phase[c] == RollingBack then Failed else Finished])
  }

  function Start(wants: map<Client, set<Node>>): System {
    System(0, map[], wants,
      map c, n | c in wants && n in wants[c] :: (c, n) := Trying(2),
      map c | c in wants :: Acquiring, multiset{}, multiset{})
  }

  /** The states that a trace of enabled events goes through. */
  ghost predicate IsRun(wants: map<Client, set<Node>>, trace: seq<Event>, states: seq<System>) {
    && |states| == |trace| + 1 && states[0] == Start(wants)
    && forall i :: 0 <= i < |trace| ==> Enabled(states[i], trace[i]) && states[i + 1] == Next(states[i], trace[i])
  }

  lemma RunPrefix(wants: map<Client, set<Node>>, trace: seq<Event>, states: seq<System>, k: nat)
    requires IsRun(wants, trace, states) && k <= |trace|
    ensures IsRun(wants, trace[..k], states[..k + 1])
  {
  }

  // ---------------------------------------------------------------- invariant

  ghost predicate OwnsLive(s: System, c: Client, n: Node) {
    n in s.slots && s.slots[n].id == c && s.now < s.slots[n].expires
  }

  /** A lease a client was told of is its node's lease until it runs out. */
  ghost predicate Backed(s: System, c: Client, n: Node) {
    (c, n) in s.calls && s.calls[(c, n)].Held? && s.now < s.calls[(c, n)].expires ==>
      n in s.slots && s.slots[n].id == c && s.calls[(c, n)].expires <= s.slots[n].expires
  }

  ghost predicate PhaseFits(phase: Phase, call: Call) {
    && (call.Trying? ==> phase == Acquiring && call.left <= 2)
    && (phase == Holding ==> call.Held?)
    && (phase == Failed || phase == Finished ==> !call.Held?)
  }

  ghost predicate Inv(s: System) {
    && s.phase.Keys == s.wants.Keys
    && (forall c: Client, n :: (c, n) in s.calls <==> c in s.wants && n in s.wants[c])
    && (forall c: Client, n :: Backed(s, c, n))
    && (forall c: Client, n :: (c, n) in s.calls ==> PhaseFits(s.phase[c], s.calls[(c, n)]))
    && (forall c: Client, n :: (c, n) in s.loose ==> (c, n) in s.calls && s.calls[(c, n)] == Dropped)
  }

  lemma StartInv(wants: map<Client, set<Node>>)
    ensures Inv(Start(wants))
  {
  }

  lemma GrantBacks(s: System, c: Client, n: Node, d: Client, m: Node)
    requires Backed(s, d, m)
    ensures Backed(Granting(s, c, n), d, m)
  {
  }

  lemma ReleaseBacks(s: System, c: Client, n: Node, d: Client, m: Node)
    requires Backed(s, d, m) && !((d, m) == (c, n) && (c, n) in s.calls && s.calls[(c, n)].Held?)
    ensures Backed(Releasing(s, c, n), d, m)
  {
  }

  lemma NextBacks(s: System, e: Event, d: Client, m: Node)
    requires Inv(s) && Enabled(s, e)
    ensures Backed(Next(s, e), d, m)
  {
    assert Backed(s, d, m);
    match e
    case Serve(c, n, answered, retry) => GrantBacks(s, c, n, d, m);
    case LateServe(c, n) => GrantBacks(s, c, n, d, m);
    case Release(c, n, delivered) => if (c, n) != (d, m) { ReleaseBacks(s, c, n, d, m); }
    case LateRelease(c, n) => ReleaseBacks(s, c, n, d, m);
    case _ =>
  }

  lemma CallFits(s: System, e: Event, d: Client, m: Node)
    requires Enabled(s, e) && (e.Lose? || e.Serve? || e.Release?) && (d, m) in s.calls && d in s.phase
    requires PhaseFits(s.phase[d], s.calls[(d, m)]) && s.phase.Keys == s.wants.Keys
    ensures Next(s, e).phase == s.phase && (d, m) in Next(s, e).calls && PhaseFits(s.phase[d], Next(s, e).calls[(d, m)])
  {
  }

  lemma PhaseStillFits(s: System, e: Event, d: Client, m: Node)
    requires Inv(s) && Enabled(s, e) && (e.Conclude? || e.Finish? || e.Close?) && (d, m) in s.calls
    ensures Next(s, e).calls == s.calls && d in Next(s, e).phase && PhaseFits(Next(s, e).phase[d], s.calls[(d, m)])
  {
    assert PhaseFits(s.phase[d], s.calls[(d, m)]);
  }

  lemma NextFits(s: System, e: Event, d: Client, m: Node)
    requires Inv(s) && Enabled(s, e) && (d, m) in Next(s, e).calls
    ensures d in Next(s, e).phase && PhaseFits(Next(s, e).phase[d], Next(s, e).calls[(d, m)])
  {
    assert (d, m) in s.calls && PhaseFits(s.phase[d], s.calls[(d, m)]);
    if e.Lose? || e.Serve? || e.Release? {
      CallFits(s, e, d, m);
    } else if e.Conclude? || e.Finish? || e.Close? {
      PhaseStillFits(s, e, d, m);
    }
  }

  /** Which clients and calls there are never changes. */
  lemma NextShape(s: System, e: Event)
    requires Enabled(s, e)
    ensures var t := Next(s, e); t.wants == s.wants && t.phase.Keys == s.phase.Keys && t.calls.Keys == s.calls.Keys
  {
    match e
    case Lose(c, n, retry) => UpdatedKeys(s.calls, (c, n), Next(s, e).calls);
    case Serve(c, n, answered, retry) => UpdatedKeys(s.calls, (c, n), Next(s, e).calls);
    case Release(c, n, delivered) => UpdatedKeys(s.calls, (c, n), Next(s, e).calls);
    case Conclude(c) => UpdatedKeys(s.phase, c, Next(s, e).phase);
    case Finish(c) => UpdatedKeys(s.phase, c, Next(s, e).phase);
    case Close(c) => UpdatedKeys(s.phase, c, Next(s, e).phase);
    case _ =>
  }

  lemma UpdatedKeys<K, V>(m: map<K, V>, k: K, m': map<K, V>)
    requires k in m && k in m' && m' == m[k := m'[k]]
    ensures m'.Keys == m.Keys
  {
  }

  lemma NextKeeps(s: System, e: Event)
    requires Inv(s) && Enabled(s, e)
    ensures Inv(Next(s, e)) && Next(s, e).wants == s.wants
  {
    NextShape(s, e);
    forall d: Client, m ensures Backed(Next(s, e), d, m) { NextBacks(s, e, d, m); }
    forall d: Client, m | (d, m) in Next(s, e).calls
      ensures d in Next(s, e).phase && PhaseFits(Next(s, e).phase[d], Next(s, e).calls[(d, m)])
    {
      NextFits(s, e, d, m);
    }
    NextLoose(s, e);
  }

  lemma NextLoose(s: System, e: Event)
    requires Inv(s) && Enabled(s, e)
    ensures forall c: Client, n :: (c, n) in Next(s, e).loose ==> (c, n) in Next(s, e).calls && Next(s, e).calls[(c, n)] == Dropped
  {
  }

  lemma {:induction false} RunKeeps(wants: map<Client, set<Node>>, trace: seq<Event>, states: seq<System>, k: nat)
    requires IsRun(wants, trace, states) && k <= |trace|
    ensures Inv(states[k]) && states[k].wants == wants
    decreases k
  {
    if k == 0 {
      StartInv(wants);
    } else {
      RunKeeps(wants, trace, states, k - 1);
      NextKeeps(states[k - 1], trace[k - 1]);
    }
  }

  // ---------------------------------------------------------------- main results

  /** A client's leases are live: none of those it was granted has run out. */
  ghost predicate HoldsLive(s: System, c: Client) {
    && c in s.phase && s.phase[c] == Holding
    && forall n :: (c, n) in s.calls && s.calls[(c, n)].Held? ==> s.now < s.calls[(c, n)].expires
  }

  /** However the goroutines of however many clients interleave, and however late their
      requests and releases arrive, two clients whose node sets share a node are never both
      holding live leases. */
  lemma AtMostOneHolder(wants: map<Client, set<Node>>, trace: seq<Event>, states: seq<System>, k: nat, c: Client, d: Client, n: Node)
    requires IsRun(wants, trace, states) && k <= |trace|
    requires c in wants && d in wants && n in wants[c] && n in wants[d] && c != d
    ensures !(HoldsLive(states[k], c) && HoldsLive(states[k], d))
  {
    RunKeeps(wants, trace, states, k);
    var s := states[k];
    assert (c, n) in s.calls && (d, n) in s.calls;
    assert PhaseFits(s.phase[c], s.calls[(c, n)]) && PhaseFits(s.phase[d], s.calls[(d, n)]);
    assert Backed(s, c, n) && Backed(s, d, n);
  }

  /** Success means one granted lease on each wanted node, still in that node's file
      until it expires. */
  lemma SuccessMeansEveryNode(wants: map<Client, set<Node>>, trace: seq<Event>, states: seq<System>, k: nat, c: Client, n: Node)
    requires IsRun(wants, trace, states) && k <= |trace|
    requires c in wants && n in wants[c]
    ensures var s := states[k];
            c in s.phase && s.phase[c] == Holding ==>
              && (c, n) in s.calls && s.calls[(c, n)].Held?
              && (s.now < s.calls[(c, n)].expires ==> OwnsLive(s, c, n) && s.calls[(c, n)].expires <= s.slots[n].expires)
  {
    RunKeeps(wants, trace, states, k);
    var s := states[k];
    assert (c, n) in s.calls;
    assert PhaseFits(s.phase[c], s.calls[(c, n)]) && Backed(s, c, n);
  }
}
