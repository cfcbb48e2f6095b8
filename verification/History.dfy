/** The bounded deployment history of a node: every save replaces or appends an entry,
    sorts newest first and keeps the first `limit`. */
module History {
  import opened Options

  datatype Deployment = Deployment(id: string, timestamp: int, body: string)

  const MAX_HISTORY_ENTRIES: nat := 50

  predicate NewestFirst(s: seq<Deployment>) {
    forall i, j :: 0 <= i < j < |s| ==> s[i].timestamp >= s[j].timestamp
  }

  function Truncated(s: seq<Deployment>, limit: int): seq<Deployment> {
    if 0 < limit < |s| then s[..limit] else s
  }

  /** What sorting may return: entries with equal timestamps come in any order. */
  ghost predicate PrunedOf(r: seq<Deployment>, s: seq<Deployment>, limit: int) {
    exists sorted :: multiset(sorted) == multiset(s) && NewestFirst(sorted) && r == Truncated(sorted, limit)
  }

  /** Replace the entry with the same ID, or append. */
  function Put(s: seq<Deployment>, d: Deployment): seq<Deployment> {
    if s == [] then [d]
    else if s[0].id == d.id then [d] + s[1..]
    else [s[0]] + Put(s[1..], d)
  }

  // ---------------------------------------------------------------- the code

  function Insert(r: seq<Deployment>, d: Deployment): seq<Deployment> {
    if r == [] || r[0].timestamp < d.timestamp then [d] + r
    else [r[0]] + Insert(r[1..], d)
  }

  lemma {:induction false} InsertMultiset(r: seq<Deployment>, d: Deployment)
    ensures multiset(Insert(r, d)) == multiset(r) + multiset{d}
  {
    if r == [] {
    } else {
      assert r == [r[0]] + r[1..];
      InsertMultiset(r[1..], d);
    }
  }

  lemma {:induction false} InsertSorted(r: seq<Deployment>, d: Deployment)
    requires NewestFirst(r)
    ensures NewestFirst(Insert(r, d))
    ensures forall x :: x in Insert(r, d) ==> x in r || x == d
  {
    if r == [] || r[0].timestamp < d.timestamp {
    } else {
      InsertSorted(r[1..], d);
      var rest := Insert(r[1..], d);
      forall i | 0 <= i < |rest| ensures rest[i].timestamp <= r[0].timestamp {
        assert rest[i] in rest;
      }
    }
  }

  /** The library sort: some newest-first order of the same entries. */
  method SortByTimestamp(s: seq<Deployment>) returns (r: seq<Deployment>)
    ensures multiset(r) == multiset(s) && NewestFirst(r)
  {
    r := [];
    var i := 0;
    while i < |s|
      invariant 0 <= i <= |s|
      invariant multiset(r) == multiset(s[..i]) && NewestFirst(r)
    {
      assert s[..i + 1] == s[..i] + [s[i]];
      InsertMultiset(r, s[i]);
      InsertSorted(r, s[i]);
      r := Insert(r, s[i]);
      i := i + 1;
    }
    assert s[..i] == s;
  }

  method PruneAndSortDeployments(deployments: seq<Option<Deployment>>, limit: int) returns (r: seq<Deployment>)
    ensures PrunedOf(r, Present(deployments), limit)
  {
    var pruned := DropNulls(deployments);
    var sorted := SortByTimestamp(pruned);
    r := Truncated(sorted, limit);
  }

  method DropNulls(deployments: seq<Option<Deployment>>) returns (pruned: seq<Deployment>)
    ensures pruned == Present(deployments)
  {
    pruned := [];
    var i := 0;
    while i < |deployments|
      invariant 0 <= i <= |deployments| && pruned == Present(deployments[..i])
    {
      PresentUpTo(deployments, i);
      if deployments[i].Some? { pruned := pruned + [deployments[i].value]; }
      i := i + 1;
    }
    assert deployments[..i] == deployments;
  }

  /** Replace the first entry with this ID in place, or append the deployment. */
  method ReplaceOrAppend(loaded: seq<Option<Deployment>>, d: Deployment) returns (out: seq<Option<Deployment>>)
    ensures Present(out) == Put(Present(loaded), d)
  {
    var i := 0;
    while i < |loaded|
      invariant 0 <= i <= |loaded|
      invariant forall x :: x in Present(loaded[..i]) ==> x.id != d.id
    {
      PresentSplit(loaded, i);
      PresentFrom(loaded, i);
      PresentUpTo(loaded, i);
      if loaded[i].Some? && loaded[i].value.id == d.id {
        PutSkips(Present(loaded[..i]), Present(loaded[i..]), d);
        PresentReplace(loaded, i, d);
        return loaded[i := Some(d)];
      }
      i := i + 1;
    }
    assert loaded[..i] == loaded;
    PutSkips(Present(loaded), [], d);
    assert Present(loaded) + [] == Present(loaded);
    PresentAppend(loaded, [Some(d)]);
    out := loaded + [Some(d)];
  }

  lemma {:induction false} PutSkips(a: seq<Deployment>, b: seq<Deployment>, d: Deployment)
    requires forall x :: x in a ==> x.id != d.id
    ensures Put(a + b, d) == a + Put(b, d)
  {
    if a == [] {
      assert a + b == b;
    } else {
      assert (a + b)[1..] == a[1..] + b;
      PutSkips(a[1..], b, d);
    }
  }

  /** The history document held by a node's agent. */
  class HistoryDocument {
    var entries: Option<seq<Option<Deployment>>>

    constructor ()
      ensures Contents() == []
    {
      entries := None;
    }

    ghost function Contents(): seq<Deployment>
      reads this
    {
      if entries.None? then [] else Present(entries.value)
    }

    /** One saved deployment: load, replace or append, prune, store. */
    method UpdateHistory(d: Deployment)
      modifies this
      ensures PrunedOf(Contents(), Put(old(Contents()), d), MAX_HISTORY_ENTRIES)
    {
      var loaded := if entries.Some? then entries.value else [];
      var updated := ReplaceOrAppend(loaded, d);
      var kept := PruneAndSortDeployments(updated, MAX_HISTORY_ENTRIES);
      PresentSome(kept);
      entries := Some(seq(|kept|, k requires 0 <= k < |kept| => Some(kept[k])));
    }
  }

  lemma PresentReplace(s: seq<Option<Deployment>>, i: nat, d: Deployment)
    requires i < |s| && s[i].Some? && s[i].value.id == d.id
    ensures Present(s[i := Some(d)]) == Present(s[..i]) + Put(Present(s[i..]), d)
  {
    var t := s[i := Some(d)];
    PresentFrom(s, i);
    PresentFrom(t, i);
    PresentSplit(t, i);
    assert t[..i] == s[..i] && t[i + 1..] == s[i + 1..];
  }

  lemma {:induction false} PresentSome(kept: seq<Deployment>)
    ensures Present(seq(|kept|, k requires 0 <= k < |kept| => Some(kept[k]))) == kept
  {
    if kept == [] {
    } else {
      PresentSome(kept[1..]);
      assert seq(|kept|, k requires 0 <= k < |kept| => Some(kept[k]))[1..]
          == seq(|kept[1..]|, k requires 0 <= k < |kept[1..]| => Some(kept[1..][k]));
    }
  }

  // ---------------------------------------------------------------- what it keeps

  ghost predicate DistinctIds(s: seq<Deployment>) {
    forall i, j :: 0 <= i < j < |s| ==> s[i].id != s[j].id
  }

  function Ids(s: seq<Deployment>): set<string> {
    set x | x in s :: x.id
  }

  function Min(a: nat, b: nat): nat {
    if a < b then a else b
  }

  type Versions = map<string, Deployment>

  ghost predicate Consistent(latest: Versions) {
    forall id :: id in latest ==> latest[id].id == id
  }

  /** `r` holds the `limit` newest of the latest versions, newest first, no ID twice. */
  ghost predicate IsTop(r: seq<Deployment>, latest: Versions, limit: nat) {
    && NewestFirst(r) && DistinctIds(r)
    && (forall x :: x in r ==> x.id in latest && latest[x.id] == x)
    && |r| == Min(limit, |latest|)
    && (forall id, x :: id in latest && id !in Ids(r) && x in r ==> latest[id].timestamp <= x.timestamp)
  }

  lemma {:induction false} IdsSize(s: seq<Deployment>)
    requires DistinctIds(s)
    ensures |Ids(s)| == |s|
  {
    if s == [] {
    } else {
      var last := |s| - 1;
      IdsSize(s[..last]);
      assert Ids(s) == Ids(s[..last]) + {s[last].id};
      assert s[last].id !in Ids(s[..last]);
    }
  }

  lemma {:induction false} PutMembers(s: seq<Deployment>, d: Deployment)
    requires DistinctIds(s)
    ensures forall x :: x in Put(s, d) <==> x == d || (x in s && x.id != d.id)
  {
    if s == [] {
    } else {
      assert s == [s[0]] + s[1..];
      if s[0].id == d.id {
        forall x | x in s[1..] ensures x.id != d.id {
          var i :| 0 <= i < |s[1..]| && s[1..][i] == x;
          assert s[i + 1] == x;
        }
      } else {
        PutMembers(s[1..], d);
      }
    }
  }

  lemma {:induction false} PutSize(s: seq<Deployment>, d: Deployment)
    ensures |Put(s, d)| == if d.id in Ids(s) then |s| else |s| + 1
  {
    if s == [] {
    } else {
      assert s == [s[0]] + s[1..];
      PutSize(s[1..], d);
      if s[0].id == d.id { assert s[0] in s; }
    }
  }

  lemma {:induction false} PutDistinct(s: seq<Deployment>, d: Deployment)
    requires DistinctIds(s)
    ensures DistinctIds(Put(s, d))
  {
    if s == [] || s[0].id == d.id {
    } else {
      PutDistinct(s[1..], d);
      PutMembers(s[1..], d);
      var rest := Put(s[1..], d);
      forall i | 0 <= i < |rest| ensures rest[i].id != s[0].id {
        assert rest[i] in rest;
        if rest[i] != d {
          var j :| 0 <= j < |s[1..]| && s[1..][j] == rest[i];
          assert s[j + 1] == rest[i];
        }
      }
    }
  }

  lemma PutShape(s: seq<Deployment>, d: Deployment)
    requires DistinctIds(s)
    ensures DistinctIds(Put(s, d))
    ensures |Put(s, d)| == if d.id in Ids(s) then |s| else |s| + 1
    ensures forall x :: x in Put(s, d) <==> x == d || (x in s && x.id != d.id)
  {
    PutMembers(s, d);
    PutSize(s, d);
    PutDistinct(s, d);
  }

  lemma {:induction false} CountOne(s: seq<Deployment>, x: Deployment)
    requires DistinctIds(s)
    ensures multiset(s)[x] <= 1
  {
    if s == [] {
    } else {
      assert s == [s[0]] + s[1..];
      CountOne(s[1..], x);
      assert s[0] !in s[1..];
    }
  }

  lemma CountTwo(s: seq<Deployment>, i: nat, j: nat)
    requires i < j < |s| && s[i] == s[j]
    ensures multiset(s)[s[i]] >= 2
  {
    assert s == s[..j] + s[j..];
    assert s[..j][i] in multiset(s[..j]) && s[j..][0] in multiset(s[j..]);
  }

  /** A reordering of entries with distinct IDs has distinct IDs and the same entries. */
  lemma PermutedShape(s: seq<Deployment>, t: seq<Deployment>)
    requires DistinctIds(s) && multiset(t) == multiset(s)
    ensures DistinctIds(t) && |t| == |s| && forall x :: x in t <==> x in s
  {
    assert |multiset(t)| == |t| && |multiset(s)| == |s|;
    assert forall x :: x in t <==> x in multiset(t);
    assert forall x :: x in s <==> x in multiset(s);
    forall i, j | 0 <= i < j < |t| ensures t[i].id != t[j].id {
      if t[i].id == t[j].id {
        assert t[i] in s && t[j] in s;
        assert t[i] == t[j];
        CountTwo(t, i, j);
        CountOne(s, t[i]);
      }
    }
  }

  /** The listed entries, if they are all there are. */
  lemma AllListed(r: seq<Deployment>, latest: Versions, limit: nat)
    requires IsTop(r, latest, limit) && |latest| <= limit
    ensures Ids(r) == latest.Keys
  {
    IdsSize(r);
    assert Ids(r) <= latest.Keys;
    SubsetFull(Ids(r), latest.Keys);
  }

  lemma {:induction false} SubsetFull(a: set<string>, b: set<string>)
    requires a <= b && |a| == |b|
    ensures a == b
  {
    if a != {} {
      var x :| x in a;
      SubsetFull(a - {x}, b - {x});
    }
  }

  /** Re-saving a listed ID must not take it below a version that was already pruned. */
  ghost predicate StaysAbovePruned(r: seq<Deployment>, latest: Versions, d: Deployment) {
    d.id in Ids(r) ==> forall id :: id in latest && id !in Ids(r) ==> latest[id].timestamp <= d.timestamp
  }

  /** One save keeps the list exact if and only if it does not re-date a listed entry
      below a pruned one. */
  lemma SaveKeepsTop(r: seq<Deployment>, latest: Versions, limit: nat, d: Deployment, r': seq<Deployment>)
    requires limit > 0 && Consistent(latest) && IsTop(r, latest, limit)
    requires PrunedOf(r', Put(r, d), limit)
    ensures IsTop(r', latest[d.id := d], limit) <==> StaysAbovePruned(r, latest, d)
  {
    var sorted :| multiset(sorted) == multiset(Put(r, d)) && NewestFirst(sorted) && r' == Truncated(sorted, limit);
    PutShape(r, d);
    PermutedShape(Put(r, d), sorted);
    if d.id in Ids(r) {
      RewriteListed(r, latest, limit, d, sorted);
    } else {
      AddUnlisted(r, latest, limit, d, sorted);
    }
  }

  lemma RewriteListed(r: seq<Deployment>, latest: Versions, limit: nat, d: Deployment, sorted: seq<Deployment>)
    requires limit > 0 && Consistent(latest) && IsTop(r, latest, limit) && d.id in Ids(r)
    requires NewestFirst(sorted) && DistinctIds(sorted) && |sorted| == |r|
    requires forall x :: x in sorted <==> x == d || (x in r && x.id != d.id)
    ensures Truncated(sorted, limit) == sorted
    ensures IsTop(sorted, latest[d.id := d], limit) <==> StaysAbovePruned(r, latest, d)
  {
    var latest' := latest[d.id := d];
    assert latest'.Keys == latest.Keys && |latest'| == |latest'.Keys|;
    assert d in sorted;
    SameIdsListed(r, d, sorted);
  }

  lemma SameIdsListed(r: seq<Deployment>, d: Deployment, sorted: seq<Deployment>)
    requires d.id in Ids(r) && forall x :: x in sorted <==> x == d || (x in r && x.id != d.id)
    ensures Ids(sorted) == Ids(r)
  {
    assert d in sorted;
    assert forall x :: x in sorted ==> x.id in Ids(r);
    assert forall x :: x in r && x.id != d.id ==> x in sorted;
  }

  lemma AddUnlisted(r: seq<Deployment>, latest: Versions, limit: nat, d: Deployment, sorted: seq<Deployment>)
    requires limit > 0 && Consistent(latest) && IsTop(r, latest, limit) && d.id !in Ids(r)
    requires NewestFirst(sorted) && DistinctIds(sorted) && |sorted| == |r| + 1
    requires forall x :: x in sorted <==> x == d || (x in r && x.id != d.id)
    ensures IsTop(Truncated(sorted, limit), latest[d.id := d], limit)
  {
    var latest' := latest[d.id := d];
    var t := Truncated(sorted, limit);
    UnlistedSize(r, latest, limit, d);
    assert forall x :: x in t ==> x in sorted;
    forall id, x | id in latest' && id !in Ids(t) && x in t ensures latest'[id].timestamp <= x.timestamp {
      DroppedIsOlder(r, latest, limit, d, sorted, id, x);
    }
  }

  lemma UnlistedSize(r: seq<Deployment>, latest: Versions, limit: nat, d: Deployment)
    requires limit > 0 && Consistent(latest) && IsTop(r, latest, limit) && d.id !in Ids(r)
    ensures Min(limit, |latest[d.id := d]|) == Min(limit, |r| + 1)
  {
    var latest' := latest[d.id := d];
    assert latest'.Keys == latest.Keys + {d.id} && |latest'| == |latest'.Keys|;
    if |latest| <= limit { AllListed(r, latest, limit); }
  }

  lemma DroppedIsOlder(r: seq<Deployment>, latest: Versions, limit: nat, d: Deployment, sorted: seq<Deployment>, id: string, x: Deployment)
    requires limit > 0 && Consistent(latest) && IsTop(r, latest, limit) && d.id !in Ids(r)
    requires NewestFirst(sorted) && DistinctIds(sorted) && |sorted| == |r| + 1
    requires forall y :: y in sorted <==> y == d || (y in r && y.id != d.id)
    requires id in latest[d.id := d] && id !in Ids(Truncated(sorted, limit)) && x in Truncated(sorted, limit)
    ensures latest[d.id := d][id].timestamp <= x.timestamp
  {
    var t := Truncated(sorted, limit);
    var i :| 0 <= i < |t| && t[i] == x;
    var v := latest[d.id := d][id];
    if v in sorted {
      var k :| 0 <= k < |sorted| && sorted[k] == v;
      assert v.id == id && v !in t;
      assert |t| <= k;
    } else {
      // Never listed: older than all of `r`, hence than whichever of them was dropped.
      assert d in sorted && id != d.id && id !in Ids(r);
      if |latest| <= limit { AllListed(r, latest, limit); }
      assert |sorted| == limit + 1;
      assert x in sorted && sorted[limit] in sorted && sorted[limit].timestamp <= x.timestamp;
      assert x in r || sorted[limit] in r;
    }
  }

  // ---------------------------------------------------------------- whole runs

  /** The latest version of every ID ever saved. */
  function Latest(saves: seq<Deployment>): Versions {
    if saves == [] then map[]
    else Latest(saves[..|saves| - 1])[saves[|saves| - 1].id := saves[|saves| - 1]]
  }

  predicate NeverLowers(saves: seq<Deployment>) {
    forall i, j :: 0 <= i < j < |saves| && saves[i].id == saves[j].id ==> saves[i].timestamp <= saves[j].timestamp
  }

  /** The histories a sequence of saves goes through, whatever order the sort gives ties. */
  ghost predicate IsHistoryRun(saves: seq<Deployment>, states: seq<seq<Deployment>>, limit: nat) {
    && |states| == |saves| + 1 && states[0] == []
    && forall k :: 0 <= k < |saves| ==> PrunedOf(states[k + 1], Put(states[k], saves[k]), limit)
  }

  lemma {:induction false} LatestIsSaved(saves: seq<Deployment>, id: string)
    requires id in Latest(saves)
    ensures Latest(saves)[id].id == id && Latest(saves)[id] in saves
  {
    var last := |saves| - 1;
    if saves[last].id != id {
      LatestIsSaved(saves[..last], id);
      assert forall x :: x in saves[..last] ==> x in saves;
    }
  }

  lemma RunPrefix(saves: seq<Deployment>, states: seq<seq<Deployment>>, limit: nat, k: nat)
    requires k <= |saves| && IsHistoryRun(saves, states, limit)
    ensures IsHistoryRun(saves[..k], states[..k + 1], limit)
  {
    forall i | 0 <= i < k ensures PrunedOf(states[..k + 1][i + 1], Put(states[..k + 1][i], saves[..k][i]), limit) {
      assert PrunedOf(states[i + 1], Put(states[i], saves[i]), limit);
    }
  }

  /** A save that lowers no time stays above what was pruned. */
  lemma RaisingStaysAbove(before: seq<Deployment>, d: Deployment, r: seq<Deployment>, limit: nat)
    requires NeverLowers(before + [d]) && IsTop(r, Latest(before), limit)
    ensures StaysAbovePruned(r, Latest(before), d)
  {
    var latest := Latest(before);
    if d.id in Ids(r) {
      var x :| x in r && x.id == d.id;
      LatestIsSaved(before, d.id);
      var k :| 0 <= k < |before| && before[k] == latest[d.id];
      assert (before + [d])[k] == before[k] && (before + [d])[|before|] == d;
    }
  }

  lemma LatestIsConsistent(saves: seq<Deployment>)
    ensures Consistent(Latest(saves))
  {
    forall id | id in Latest(saves) ensures Latest(saves)[id].id == id { LatestIsSaved(saves, id); }
  }

  /** For every sequence of saves that never lowers the timestamp of an ID it saves again,
      the history pruned step by step equals pruning everything at the end: the newest
      entries among the latest version of every ID ever saved. */
  lemma {:induction false} IncrementalPruningIsExact(saves: seq<Deployment>, states: seq<seq<Deployment>>, limit: nat)
    requires limit > 0 && NeverLowers(saves) && IsHistoryRun(saves, states, limit)
    ensures IsTop(states[|saves|], Latest(saves), limit)
    decreases |saves|
  {
    if saves == [] {
    } else {
      var last := |saves| - 1;
      var before, d := saves[..last], saves[last];
      RunPrefix(saves, states, limit, last);
      IncrementalPruningIsExact(before, states[..last + 1], limit);
      LatestIsConsistent(before);
      assert before + [d] == saves;
      RaisingStaysAbove(before, d, states[last], limit);
      SaveKeepsTop(states[last], Latest(before), limit, d, states[last + 1]);
    }
  }

  /** Without ties there is only one such list, so the history is a function of the saves. */
  lemma TopIsUnique(r: seq<Deployment>, t: seq<Deployment>, latest: Versions, limit: nat)
    requires IsTop(r, latest, limit) && IsTop(t, latest, limit)
    requires forall a, b :: a in latest && b in latest && a != b ==> latest[a].timestamp != latest[b].timestamp
    ensures r == t
  {
    SameMembers(r, t, latest, limit);
    SameMembers(t, r, latest, limit);
    SameOrder(r, t);
  }

  lemma SameMembers(r: seq<Deployment>, t: seq<Deployment>, latest: Versions, limit: nat)
    requires IsTop(r, latest, limit) && IsTop(t, latest, limit)
    requires forall a, b :: a in latest && b in latest && a != b ==> latest[a].timestamp != latest[b].timestamp
    ensures forall x :: x in r ==> x in t
  {
    SameIds(r, t, latest, limit);
    forall x | x in r ensures x in t {
      assert x.id in Ids(r);
      var y :| y in t && y.id == x.id;
    }
  }

  lemma SameIds(r: seq<Deployment>, t: seq<Deployment>, latest: Versions, limit: nat)
    requires IsTop(r, latest, limit) && IsTop(t, latest, limit)
    requires forall a, b :: a in latest && b in latest && a != b ==> latest[a].timestamp != latest[b].timestamp
    ensures Ids(r) == Ids(t)
  {
    IdsSize(r);
    IdsSize(t);
    if Ids(r) <= Ids(t) {
      SubsetFull(Ids(r), Ids(t));
    } else if Ids(t) <= Ids(r) {
      SubsetFull(Ids(t), Ids(r));
    } else {
      var x :| x in r && x.id !in Ids(t);
      var y :| y in t && y.id !in Ids(r);
      EachOlder(r, t, latest, limit, x, y);
    }
  }

  /** An entry only in `r` and one only in `t` would have the same timestamp. */
  lemma EachOlder(r: seq<Deployment>, t: seq<Deployment>, latest: Versions, limit: nat, x: Deployment, y: Deployment)
    requires IsTop(r, latest, limit) && IsTop(t, latest, limit)
    requires x in r && x.id !in Ids(t) && y in t && y.id !in Ids(r)
    ensures x.id in latest && y.id in latest && x.id != y.id && latest[x.id].timestamp == latest[y.id].timestamp
  {
  }

  /** No two entries share a timestamp, and no two share an ID. */
  ghost predicate Separate(s: seq<Deployment>) {
    forall x, y :: x in s && y in s && x != y ==> x.timestamp != y.timestamp
  }

  lemma {:induction false} SameOrder(r: seq<Deployment>, t: seq<Deployment>)
    requires NewestFirst(r) && NewestFirst(t) && DistinctIds(r) && DistinctIds(t) && Separate(r)
    requires |r| == |t| && forall x :: x in r <==> x in t
    ensures r == t
  {
    if r == [] {
    } else {
      SameHead(r, t);
      SameTails(r, t);
      TailKeeps(r);
      TailKeeps(t);
      SameOrder(r[1..], t[1..]);
      assert r == [r[0]] + r[1..] && t == [t[0]] + t[1..];
    }
  }

  lemma SameTails(r: seq<Deployment>, t: seq<Deployment>)
    requires r != [] && t != [] && r[0] == t[0] && DistinctIds(r) && DistinctIds(t) && Separate(r)
    requires forall x :: x in r <==> x in t
    ensures Separate(r[1..]) && forall x :: x in r[1..] <==> x in t[1..]
  {
    TailMembers(r);
    TailMembers(t);
  }

  lemma SameHead(r: seq<Deployment>, t: seq<Deployment>)
    requires NewestFirst(r) && NewestFirst(t) && Separate(r) && r != [] && t != []
    requires forall x :: x in r <==> x in t
    ensures r[0] == t[0]
  {
    assert r[0] in t && t[0] in r;
    var i :| 0 <= i < |t| && t[i] == r[0];
    var j :| 0 <= j < |r| && r[j] == t[0];
  }

  lemma TailKeeps(s: seq<Deployment>)
    requires s != [] && NewestFirst(s) && DistinctIds(s)
    ensures NewestFirst(s[1..]) && DistinctIds(s[1..])
  {
  }

  lemma TailMembers(s: seq<Deployment>)
    requires s != [] && DistinctIds(s)
    ensures forall x :: x in s[1..] <==> x in s && x != s[0]
  {
    assert s == [s[0]] + s[1..];
    forall x | x in s[1..] ensures x != s[0] {
      var i :| 0 <= i < |s[1..]| && s[1..][i] == x;
      assert s[i + 1] == x;
    }
  }

  lemma RunExtends(saves: seq<Deployment>, k: nat, states: seq<seq<Deployment>>, next: seq<Deployment>, limit: nat)
    requires k < |saves| && IsHistoryRun(saves[..k], states, limit) && PrunedOf(next, Put(states[k], saves[k]), limit)
    ensures IsHistoryRun(saves[..k + 1], states + [next], limit)
  {
    var more := states + [next];
    forall i | 0 <= i < k + 1 ensures PrunedOf(more[i + 1], Put(more[i], saves[..k + 1][i]), limit) {
      if i < k { assert PrunedOf(states[i + 1], Put(states[i], saves[..k][i]), limit); }
    }
  }

  /** The document after any sequence of saves into a new history. */
  method SaveAll(saves: seq<Deployment>) returns (doc: HistoryDocument)
    requires NeverLowers(saves)
    ensures fresh(doc) && IsTop(doc.Contents(), Latest(saves), MAX_HISTORY_ENTRIES)
  {
    doc := new HistoryDocument();
    ghost var states := [doc.Contents()];
    var k := 0;
    while k < |saves|
      invariant 0 <= k <= |saves| && fresh(doc)
      invariant IsHistoryRun(saves[..k], states, MAX_HISTORY_ENTRIES) && states[k] == doc.Contents()
    {
      doc.UpdateHistory(saves[k]);
      RunExtends(saves, k, states, doc.Contents(), MAX_HISTORY_ENTRIES);
      states := states + [doc.Contents()];
      k := k + 1;
    }
    assert saves[..k] == saves;
    IncrementalPruningIsExact(saves, states, MAX_HISTORY_ENTRIES);
  }
}
