/** The loops of state repair: the flat list of node candidates in the order they are read,
    the best of them per node, and the writes to one node. Each is proved against `Repair`. */
module StateRepair {
  import opened Options
  import opened Names
  import opened Selection
  import opened Aggregate
  import opened Repair

  datatype Candidate = Candidate(node: string, actual: Snapshot)

  /** The candidates for one node in a mixed list, in order. */
  function For(cs: seq<Candidate>, n: string): seq<Snapshot> {
    if cs == [] then []
    else
      var last := cs[|cs| - 1];
      For(cs[..|cs| - 1], n) + if last.node == n then [last.actual] else []
  }

  lemma ForSnoc(cs: seq<Candidate>, c: Candidate, n: string)
    ensures For(cs + [c], n) == For(cs, n) + if c.node == n then [c.actual] else []
  {
    assert (cs + [c])[..|cs|] == cs;
  }

  lemma {:induction false} ForConcat(a: seq<Candidate>, b: seq<Candidate>, n: string)
    ensures For(a + b, n) == For(a, n) + For(b, n)
  {
    if b == [] {
      assert a + b == a;
    } else {
      var k := |b| - 1;
      assert a + b == (a + b[..k]) + [b[k]];
      assert b == b[..k] + [b[k]];
      ForSnoc(a + b[..k], b[k], n);
      ForSnoc(b[..k], b[k], n);
      ForConcat(a, b[..k], n);
    }
  }

  /** The snapshots embedded in a node's aggregate, walked in an arbitrary order. */
  method EmbeddedCandidates(d: Docs, servers: seq<string>) returns (cs: seq<Candidate>)
    ensures forall n :: For(cs, n) == EmbeddedFor(d, servers, n)
  {
    cs := [];
    if d.actual.None? || !ActualUsable(d.actual.value) { return; }
    var a := d.actual.value;
    var todo := a.nodes.Keys;
    while todo != {}
      invariant todo <= a.nodes.Keys
      invariant forall n :: For(cs, n) == if n in todo then [] else EmbeddedFor(d, servers, n)
      decreases |todo|
    {
      var name :| name in todo;
      todo := todo - {name};
      if name in servers {
        var c := Candidate(name, Extracted(a.project, a.environment, a.nodes[name]));
        forall n { ForSnoc(cs, c, n); }
        cs := cs + [c];
      }
    }
  }

  /** The node documents a node keeps, read once per listed server. */
  method DocumentCandidates(d: Docs, servers: seq<string>) returns (cs: seq<Candidate>)
    ensures forall n :: For(cs, n) == DocsFor(d, servers, n)
  {
    cs := [];
    var i := 0;
    while i < |servers|
      invariant 0 <= i <= |servers|
      invariant forall n :: For(cs, n) == DocsFor(d, servers[..i], n)
    {
      var name := servers[i];
      assert servers[..i + 1][..i] == servers[..i];
      if name in d.nodeActual && NodeUsable(d.nodeActual[name], name) {
        var c := Candidate(name, d.nodeActual[name]);
        forall n { ForSnoc(cs, c, n); }
        cs := cs + [c];
      }
      i := i + 1;
    }
    assert servers[..i] == servers;
  }

  method CollectNodeActual(servers: seq<string>, store: Store) returns (cs: seq<Candidate>)
    ensures forall n :: For(cs, n) == Collect(servers, store, NodeCandidates(servers, n))
  {
    cs := [];
    var i := 0;
    while i < |servers|
      invariant 0 <= i <= |servers|
      invariant forall n :: For(cs, n) == Collect(servers[..i], store, NodeCandidates(servers, n))
    {
      assert servers[..i + 1][..i] == servers[..i];
      if servers[i] in store {
        var embedded := EmbeddedCandidates(store[servers[i]], servers);
        var documents := DocumentCandidates(store[servers[i]], servers);
        forall n ensures For(cs + embedded + documents, n) == For(cs, n) + (For(embedded, n) + For(documents, n)) {
          ForConcat(cs, embedded, n);
          ForConcat(cs + embedded, documents, n);
        }
        cs := cs + embedded + documents;
      }
      i := i + 1;
    }
    assert servers[..i] == servers;
  }

  /** The best candidate of every node, kept in a map while the list is walked once. */
  method BestNodeSnapshots(cs: seq<Candidate>) returns (best: map<string, Snapshot>)
    ensures forall n :: Best(For(cs, n), c => NodeUsable(c, n), ActualBetter) == if n in best then Some(best[n]) else None
  {
    best := map[];
    var i := 0;
    while i < |cs|
      invariant 0 <= i <= |cs|
      invariant forall n :: BestFor(cs[..i], n) == if n in best then Some(best[n]) else None
    {
      var c := cs[i];
      assert cs[..i + 1] == cs[..i] + [c];
      forall n ensures BestFor(cs[..i + 1], n) == if c.node == n then BestSnoc(BestFor(cs[..i], n), c.actual, n) else BestFor(cs[..i], n) {
        BestForSnoc(cs[..i], c, n);
      }
      if NodeUsable(c.actual, c.node) && (c.node !in best || ActualBetter(c.actual, best[c.node])) {
        best := best[c.node := c.actual];
      }
      i := i + 1;
    }
    assert cs[..i] == cs;
  }

  function BestFor(cs: seq<Candidate>, n: string): Option<Snapshot> {
    Best(For(cs, n), c => NodeUsable(c, n), ActualBetter)
  }

  function BestSnoc(best: Option<Snapshot>, s: Snapshot, n: string): Option<Snapshot> {
    if NodeUsable(s, n) && (best.None? || ActualBetter(s, best.value)) then Some(s) else best
  }

  lemma BestForSnoc(cs: seq<Candidate>, c: Candidate, n: string)
    ensures BestFor(cs + [c], n) == if c.node == n then BestSnoc(BestFor(cs, n), c.actual, n) else BestFor(cs, n)
  {
    ForSnoc(cs, c, n);
    if c.node == n {
      assert (For(cs, n) + [c.actual])[..|For(cs, n)|] == For(cs, n);
    } else {
      assert For(cs + [c], n) == For(cs, n);
    }
  }

  /** The history's newest time: its own, or that of its newest entry. */
  method HistoryFreshness(h: HistoryDoc) returns (t: int)
    ensures t == Freshness(h)
    ensures h.lastUpdated <= t && forall d :: d in h.deployments && d.Some? ==> d.value.timestamp <= t
    ensures t == h.lastUpdated || exists d :: d in h.deployments && d.Some? && d.value.timestamp == t
  {
    t := h.lastUpdated;
    var i := 0;
    while i < |h.deployments|
      invariant 0 <= i <= |h.deployments|
      invariant NewestOf(t, Present(h.deployments[i..])) == Freshness(h)
      invariant h.lastUpdated <= t && forall j :: 0 <= j < i && h.deployments[j].Some? ==> h.deployments[j].value.timestamp <= t
      invariant t == h.lastUpdated || exists j :: 0 <= j < i && h.deployments[j].Some? && h.deployments[j].value.timestamp == t
    {
      var d := h.deployments[i];
      assert h.deployments[i..][1..] == h.deployments[i + 1..];
      ghost var rest := Present(h.deployments[i + 1..]);
      assert Present(h.deployments[i..]) == if d.Some? then [d.value] + rest else rest;
      assert d.Some? ==> ([d.value] + rest)[1..] == rest;
      if d.Some? && d.value.timestamp > t { t := d.value.timestamp; }
      i := i + 1;
    }
  }

  // ---------------------------------------------------------------- writing to one node

  /** The node documents after the listed ones were written in turn. */
  function FiledOver(docs: map<string, Snapshot>, nodes: map<string, Snapshot>, names: seq<string>, lands: Write -> bool): map<string, Snapshot>
    requires Covers(nodes, names)
  {
    if names == [] then docs
    else
      var last, before := names[|names| - 1], FiledOver(docs, nodes, names[..|names| - 1], lands);
      if NodeWritten(last, lands) then before[last := Filed(last, nodes[last])] else before
  }

  lemma {:induction false} FiledAt(docs: map<string, Snapshot>, nodes: map<string, Snapshot>, names: seq<string>, lands: Write -> bool, n: string)
    requires Covers(nodes, names)
    ensures var filed := FiledOver(docs, nodes, names, lands);
            && (n in filed <==> n in docs || (n in names && NodeWritten(n, lands)))
            && (n in filed ==> filed[n] == if n in names && NodeWritten(n, lands) then Filed(n, nodes[n]) else docs[n])
  {
    if names == [] {
    } else {
      var k := |names| - 1;
      assert names == names[..k] + [names[k]];
      FiledAt(docs, nodes, names[..k], lands, n);
    }
  }

  lemma FiledTogether(docs: map<string, Snapshot>, nodes: map<string, Snapshot>, names: seq<string>, lands: Write -> bool)
    requires Covers(nodes, names) && forall n :: n in nodes <==> n in names
    ensures FiledOver(docs, nodes, names, lands) == docs + map n | n in nodes && NodeWritten(n, lands) :: Filed(n, nodes[n])
  {
    forall n { FiledAt(docs, nodes, names, lands, n); }
  }

  lemma MissingName(nodes: map<string, Snapshot>, names: seq<string>, lands: Write -> bool)
    requires forall n :: n in nodes <==> n in names
    ensures (exists j :: 0 <= j < |names| && !NodeWritten(names[j], lands)) <==> exists n :: n in nodes && !NodeWritten(n, lands)
  {
    if n :| n in nodes && !NodeWritten(n, lands) {
      var j :| 0 <= j < |names| && names[j] == n;
      assert !NodeWritten(names[j], lands);
    }
    if j :| 0 <= j < |names| && !NodeWritten(names[j], lands) {
      assert names[j] in names;
    }
  }

  class Node {
    var history: Option<HistoryDoc>
    var desired: Option<Desired>
    var actual: Option<Snapshot>
    var nodeActual: map<string, Snapshot>

    constructor (d: Docs)
      ensures View() == d
    {
      history, desired, actual, nodeActual := d.history, d.desired, d.actual, d.nodeActual;
    }

    ghost function View(): Docs
      reads this
    {
      Docs(history, desired, actual, nodeActual)
    }

    method WriteEach(nodes: map<string, Snapshot>, names: seq<string>, lands: Write -> bool) returns (warned: bool)
      requires Covers(nodes, names)
      modifies this`nodeActual
      ensures nodeActual == FiledOver(old(nodeActual), nodes, names, lands)
      ensures warned <==> exists j :: 0 <= j < |names| && !NodeWritten(names[j], lands)
    {
      warned := false;
      var i := 0;
      while i < |names|
        invariant 0 <= i <= |names| && Covers(nodes, names[..i])
        invariant nodeActual == FiledOver(old(nodeActual), nodes, names[..i], lands)
        invariant warned <==> exists j :: 0 <= j < i && !NodeWritten(names[j], lands)
      {
        assert names[..i + 1][..i] == names[..i] && names[i] in names;
        if NodeWritten(names[i], lands) {
          nodeActual := nodeActual[names[i] := Filed(names[i], nodes[names[i]])];
        } else {
          warned := true;
        }
        i := i + 1;
      }
      assert names[..i] == names;
    }

    method WriteNodes(nodes: map<string, Snapshot>, lands: Write -> bool) returns (warned: bool)
      modifies this`nodeActual
      ensures nodeActual == old(nodeActual) + map n | n in nodes && NodeWritten(n, lands) :: Filed(n, nodes[n])
      ensures warned <==> exists n :: n in nodes && !NodeWritten(n, lands)
    {
      var names := SortedNames(nodes.Keys);
      SortedCovers(nodes);
      warned := WriteEach(nodes, names, lands);
      FiledTogether(old(nodeActual), nodes, names, lands);
      MissingName(nodes, names, lands);
    }

    method DeleteStale(stale: set<string>, lands: Write -> bool) returns (warned: bool)
      modifies this`nodeActual
      ensures nodeActual == old(nodeActual) - set n | n in stale && lands(DeleteNode(n))
      ensures warned <==> exists n :: n in stale && !lands(DeleteNode(n))
    {
      warned := false;
      var todo := stale;
      while todo != {}
        invariant todo <= stale
        invariant nodeActual == old(nodeActual) - set n | n in stale - todo && lands(DeleteNode(n))
        invariant warned <==> exists n :: n in stale - todo && !lands(DeleteNode(n))
        decreases |todo|
      {
        var n :| n in todo;
        todo := todo - {n};
        if lands(DeleteNode(n)) {
          nodeActual := nodeActual - {n};
        } else {
          warned := true;
        }
      }
    }

    /** The node's own three documents. */
    method WriteOwn(c: Choice, project: string, environment: string, stamp: int, lands: Write -> bool) returns (warned: bool)
      modifies this`history, this`desired, this`actual
      ensures var w := Written(old(View()), c, project, environment, stamp, lands);
              history == w.history && desired == w.desired && actual == w.actual
      ensures warned <==> || (c.history.Some? && !lands(WriteHistory))
                          || (c.desired.Some? && !lands(WriteDesired))
                          || (c.actual.Some? && !lands(WriteActual))
    {
      warned := false;
      if c.history.Some? {
        if lands(WriteHistory) {
          history := Some(HistoryDoc(project, environment, stamp, c.history.value.deployments));
        } else {
          warned := true;
        }
      }
      if c.desired.Some? {
        if lands(WriteDesired) { desired := c.desired; } else { warned := true; }
      }
      if c.actual.Some? {
        if lands(WriteActual) { actual := c.actual; } else { warned := true; }
      }
    }

    /** Write the chosen documents one after another; a call that fails is reported and
        the rest still go ahead. */
    method WriteDocuments(c: Choice, project: string, environment: string, stamp: int, lands: Write -> bool) returns (warned: bool)
      modifies this
      ensures View() == Written(old(View()), c, project, environment, stamp, lands)
      ensures warned <==> Misses(old(View()), c, lands)
    {
      warned := false;
      var previous: Option<Snapshot> := None;
      if c.actual.Some? || c.nodes != map[] {
        if lands(ReadPrevious) { previous := actual; } else { warned := true; }
      }
      var warnedOwn := WriteOwn(c, project, environment, stamp, lands);
      var warnedNodes := WriteNodes(c.nodes, lands);
      var warnedStale := DeleteStale(Stale(previous, c), lands);
      warned := warned || warnedOwn || warnedNodes || warnedStale;
    }
  }
}
