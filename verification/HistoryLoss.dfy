/** Where the pruned history falls short: an entry that is saved again with an older time does
    not bring back what was pruned while it was newer. */
module HistoryLoss {
  import opened History

  function Name(i: nat): string {
    seq(i, k => 'a')
  }

  /** The deployment of the i-th day. */
  function Day(i: nat): Deployment {
    Deployment(Name(i), i, "")
  }

  /** One deployment a day, from day 1. */
  function Days(n: nat): seq<Deployment> {
    seq(n, i requires 0 <= i < n => Day(i + 1))
  }

  /** What the history lists after `n` days, newest first. */
  function Listed(n: nat, limit: nat): (r: seq<Deployment>)
    ensures |r| == Min(n, limit) && forall i :: 0 <= i < |r| ==> r[i] == Day(n - i)
  {
    var k := Min(n, limit);
    seq(k, i requires 0 <= i < k => Day(n - i))
  }

  function Histories(n: nat, limit: nat): seq<seq<Deployment>> {
    seq(n + 1, i requires 0 <= i <= n => Listed(i, limit))
  }

  lemma {:induction false} PutNew(s: seq<Deployment>, d: Deployment)
    requires forall i :: 0 <= i < |s| ==> s[i].id != d.id
    ensures Put(s, d) == s + [d]
  {
    if s == [] {
    } else {
      PutNew(s[1..], d);
      assert s + [d] == [s[0]] + (s[1..] + [d]);
    }
  }

  lemma DayIsNew(k: nat, limit: nat)
    ensures Put(Listed(k, limit), Day(k + 1)) == Listed(k, limit) + [Day(k + 1)]
  {
    var before, d := Listed(k, limit), Day(k + 1);
    forall i | 0 <= i < |before| ensures before[i].id != d.id { assert |before[i].id| == k - i && |d.id| == k + 1; }
    PutNew(before, d);
  }

  lemma DayComesFirst(k: nat, limit: nat)
    requires limit > 0
    ensures var sorted := [Day(k + 1)] + Listed(k, limit);
            NewestFirst(sorted) && Listed(k + 1, limit) == Truncated(sorted, limit)
  {
  }

  lemma NextDay(k: nat, limit: nat)
    requires limit > 0
    ensures PrunedOf(Listed(k + 1, limit), Put(Listed(k, limit), Day(k + 1)), limit)
  {
    var before, d := Listed(k, limit), Day(k + 1);
    DayIsNew(k, limit);
    DayComesFirst(k, limit);
    assert multiset([d] + before) == multiset(before + [d]);
  }

  lemma DayStep(n: nat, limit: nat, k: nat)
    requires limit > 0 && k < n
    ensures PrunedOf(Histories(n, limit)[k + 1], Put(Histories(n, limit)[k], Days(n)[k]), limit)
  {
    assert Histories(n, limit)[k + 1] == Listed(k + 1, limit) && Histories(n, limit)[k] == Listed(k, limit);
    assert Days(n)[k] == Day(k + 1);
    NextDay(k, limit);
  }

  lemma DaysRun(n: nat, limit: nat)
    requires limit > 0
    ensures IsHistoryRun(Days(n), Histories(n, limit), limit)
  {
    forall k | 0 <= k < n ensures PrunedOf(Histories(n, limit)[k + 1], Put(Histories(n, limit)[k], Days(n)[k]), limit) {
      DayStep(n, limit, k);
    }
    assert Histories(n, limit)[0] == [];
  }

  lemma {:induction false} LatestOfDays(n: nat, i: nat)
    requires 1 <= i <= n
    ensures Name(i) in Latest(Days(n)) && Latest(Days(n))[Name(i)] == Day(i)
  {
    assert Days(n)[..n - 1] == Days(n - 1);
    assert |Name(i)| == i && |Name(n)| == n;
    if i < n { LatestOfDays(n - 1, i); }
  }

  lemma DaysNeverLower(n: nat)
    ensures NeverLowers(Days(n))
  {
    forall i, j | 0 <= i < j < n ensures Days(n)[i].id != Days(n)[j].id {
      assert |Days(n)[i].id| == i + 1 && |Days(n)[j].id| == j + 1;
    }
  }

  /** The newest entry, saved again as older than everything. */
  function Backdated(limit: nat): Deployment {
    Deployment(Name(limit + 1), 0, "")
  }

  /** One day more than the history holds, and then the newest saved again. */
  function Lowered(limit: nat): seq<Deployment> {
    Days(limit + 1) + [Backdated(limit)]
  }

  function LoweredHistory(limit: nat): seq<Deployment>
    requires limit > 0
  {
    Listed(limit + 1, limit)[1..] + [Backdated(limit)]
  }

  function LoweredHistories(limit: nat): seq<seq<Deployment>>
    requires limit > 0
  {
    Histories(limit + 1, limit) + [LoweredHistory(limit)]
  }

  lemma BackdatingPrunes(limit: nat)
    requires limit > 0
    ensures PrunedOf(LoweredHistory(limit), Put(Listed(limit + 1, limit), Backdated(limit)), limit)
  {
    var before, d, after := Listed(limit + 1, limit), Backdated(limit), LoweredHistory(limit);
    assert before[0].id == d.id;
    assert multiset(after) == multiset([d] + before[1..]) && NewestFirst(after);
    assert Truncated(after, limit) == after;
  }

  lemma BackdatedRun(limit: nat)
    requires limit > 0
    ensures IsHistoryRun(Lowered(limit), LoweredHistories(limit), limit)
  {
    DaysRun(limit + 1, limit);
    BackdatingPrunes(limit);
    var saves, states := Lowered(limit), LoweredHistories(limit);
    assert saves[..limit + 1] == Days(limit + 1);
    assert saves[..limit + 2] == saves;
    RunExtends(saves, limit + 1, Histories(limit + 1, limit), LoweredHistory(limit), limit);
  }

  /** At every limit: the saves up to the last never lower a time and leave the newest entries.
      The last one backdates the newest entry, and the history it leaves lacks day 1, which was
      pruned and is newer than the backdated entry. */
  lemma LoweringLosesAnEntry(limit: nat)
    requires limit > 0
    ensures var saves, states := Lowered(limit), LoweredHistories(limit);
            && IsHistoryRun(saves, states, limit) && |saves| == limit + 2
            && NeverLowers(saves[..limit + 1]) && IsTop(states[limit + 1], Latest(saves[..limit + 1]), limit)
            && !IsTop(states[limit + 2], Latest(saves), limit)
  {
    var saves := Lowered(limit);
    BackdatedRun(limit);
    assert saves[..limit + 1] == Days(limit + 1);
    DaysNeverLower(limit + 1);
    DaysRun(limit + 1, limit);
    IncrementalPruningIsExact(Days(limit + 1), Histories(limit + 1, limit), limit);
    DayOneIsMissing(limit);
  }

  lemma DayOneIsMissing(limit: nat)
    requires limit > 0
    ensures !IsTop(LoweredHistory(limit), Latest(Lowered(limit)), limit)
  {
    var after, saves := LoweredHistory(limit), Lowered(limit);
    LatestOfDays(limit + 1, 1);
    assert saves[..limit + 1] == Days(limit + 1);
    assert |Name(1)| == 1 && |Name(limit + 1)| == limit + 1;
    forall x | x in after ensures x.id != Name(1) {
      var i :| 0 <= i < |after| && after[i] == x;
      if i < |after| - 1 { assert x == Day(limit - i) && |x.id| == limit - i; }
    }
    assert Backdated(limit) == after[|after| - 1];
    assert Name(1) in Latest(saves) && Name(1) !in Ids(after) && Backdated(limit) in after;
  }

  /** In particular at the limit the code uses. */
  lemma LoweringLosesAnEntryAtLimit()
    ensures !IsTop(LoweredHistories(MAX_HISTORY_ENTRIES)[MAX_HISTORY_ENTRIES + 2], Latest(Lowered(MAX_HISTORY_ENTRIES)), MAX_HISTORY_ENTRIES)
  {
    LoweringLosesAnEntry(MAX_HISTORY_ENTRIES);
  }
}
