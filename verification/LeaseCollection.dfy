/** Gathering the goroutines' results from the channel, in whatever order they arrive. */
module LeaseCollection {
  import opened Counting
  import opened LeaseServer
  import opened Options

  /** One goroutine's message: the position of its node and the lease, if it got one. */
  datatype Result = Result(index: nat, lease: Option<Lease>)

  /** Every goroutine sends exactly one message. */
  ghost predicate OneEach(n: nat, results: seq<Result>) {
    && |results| == n
    && (forall k :: 0 <= k < n ==> results[k].index < n)
    && (forall j, k :: 0 <= j < k < n ==> results[j].index != results[k].index)
  }

  lemma {:induction false} PresentAll(ordered: seq<Option<Lease>>)
    requires forall i :: 0 <= i < |ordered| ==> ordered[i].Some?
    ensures |Present(ordered)| == |ordered|
    ensures forall i :: 0 <= i < |ordered| ==> ordered[i] == Some(Present(ordered)[i])
  {
    if ordered == [] {
    } else {
      PresentAll(ordered[1..]);
      forall i | 0 <= i < |ordered| ensures ordered[i] == Some(Present(ordered)[i]) {
        if i > 0 { assert ordered[i] == ordered[1..][i - 1]; }
      }
    }
  }

  /** With one message per goroutine, every position is spoken for. */
  lemma EveryIndexArrives(n: nat, results: seq<Result>, i: nat)
    requires OneEach(n, results) && i < n
    ensures exists k :: 0 <= k < n && results[k].index == i
  {
    var indices := seq(n, k requires 0 <= k < n => results[k].index);
    DistinctAvoids(indices, n, i);
    var k :| 0 <= k < n && indices[k] == i;
  }

  /** Success returns one lease per node, in node order; failure hands back exactly the
      leases that were acquired, so that each of them is released. */
  method Collect(n: nat, results: seq<Result>) returns (leases: seq<Lease>, failed: bool)
    requires OneEach(n, results)
    ensures failed <==> exists k :: 0 <= k < n && results[k].lease == None
    ensures !failed ==> |leases| == n
    ensures !failed ==> forall k :: 0 <= k < n ==> results[k].lease == Some(leases[results[k].index])
    ensures exists ordered: seq<Option<Lease>> ::
              && |ordered| == n && leases == Present(ordered)
              && forall k :: 0 <= k < n ==> ordered[results[k].index] == results[k].lease
  {
    var ordered: seq<Option<Lease>> := seq(n, i => None);
    failed := false;
    var k := 0;
    while k < n
      invariant 0 <= k <= n && |ordered| == n
      invariant failed <==> exists j :: 0 <= j < k && results[j].lease == None
      invariant forall j :: 0 <= j < k ==> ordered[results[j].index] == results[j].lease
      invariant forall j :: k <= j < n ==> ordered[results[j].index] == None
    {
      if results[k].lease == None {
        failed := true;
      } else {
        ordered := ordered[results[k].index := results[k].lease];
      }
      k := k + 1;
    }
    leases := [];
    var i := 0;
    while i < n
      invariant 0 <= i <= n && leases == Present(ordered[..i])
    {
      assert ordered[..i + 1] == ordered[..i] + [ordered[i]];
      PresentAppend(ordered[..i], [ordered[i]]);
      if ordered[i].Some? { leases := leases + [ordered[i].value]; }
      i := i + 1;
    }
    assert ordered[..n] == ordered;
    if !failed {
      forall i | 0 <= i < n ensures ordered[i].Some? {
        EveryIndexArrives(n, results, i);
      }
      PresentAll(ordered);
    }
  }
}
