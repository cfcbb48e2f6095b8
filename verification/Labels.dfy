/** Merging the optional labels that several nodes report, one after another. The empty label
    stands both for no report and for reports in conflict. */
module Labels {
  import opened Counting

  function MergeLabel(existing: string, incoming: string): string {
    if incoming == "" then existing
    else if existing == "" then incoming
    else if existing == incoming then existing
    else ""
  }

  function FoldLabels(labels: seq<string>): string {
    if labels == [] then "" else MergeLabel(FoldLabels(labels[..|labels| - 1]), labels[|labels| - 1])
  }

  /** The fold continued from a label. */
  function FoldFrom(start: string, labels: seq<string>): string {
    if labels == [] then start else MergeLabel(FoldFrom(start, labels[..|labels| - 1]), labels[|labels| - 1])
  }

  /** The labels that are not empty, in order. */
  function Spoken(labels: seq<string>): seq<string> {
    if labels == [] then []
    else
      var last := labels[|labels| - 1];
      Spoken(labels[..|labels| - 1]) + if last == "" then [] else [last]
  }

  // ---------------------------------------------------------------- one order

  /** A label on which all non-empty reports agree survives, in whatever order they come;
      with no report at all the label is empty. */
  lemma {:induction false} AgreedLabelSurvives(labels: seq<string>, r: string)
    requires r != "" && forall i :: 0 <= i < |labels| ==> labels[i] == "" || labels[i] == r
    ensures FoldLabels(labels) == if r in labels then r else ""
  {
    if labels == [] {
    } else {
      var n := |labels| - 1;
      assert labels == labels[..n] + [labels[n]];
      AgreedLabelSurvives(labels[..n], r);
    }
  }

  /** No label is invented. */
  lemma {:induction false} LabelIsReported(labels: seq<string>)
    ensures FoldLabels(labels) == "" || FoldLabels(labels) in labels
  {
    if labels == [] {
    } else {
      var n := |labels| - 1;
      assert labels == labels[..n] + [labels[n]];
      LabelIsReported(labels[..n]);
    }
  }

  lemma {:induction false} FoldConcat(a: seq<string>, b: seq<string>)
    ensures FoldLabels(a + b) == FoldFrom(FoldLabels(a), b)
  {
    if b == [] {
      assert a + b == a;
    } else {
      var n := |b| - 1;
      FoldConcat(a, b[..n]);
      assert (a + b)[..|a| + n] == a + b[..n];
    }
  }

  lemma {:induction false} FoldFromNothing(labels: seq<string>)
    ensures FoldFrom("", labels) == FoldLabels(labels)
  {
    if labels == [] {
    } else {
      FoldFromNothing(labels[..|labels| - 1]);
    }
  }

  lemma {:induction false} FoldFromSame(r: string, labels: seq<string>)
    requires forall i :: 0 <= i < |labels| ==> labels[i] == "" || labels[i] == r
    ensures FoldFrom(r, labels) == r
  {
    if labels == [] {
    } else {
      FoldFromSame(r, labels[..|labels| - 1]);
    }
  }

  /** Empty labels do not take part. */
  lemma {:induction false} FoldIsSpoken(labels: seq<string>)
    ensures FoldLabels(Spoken(labels)) == FoldLabels(labels)
  {
    if labels == [] {
    } else {
      var n := |labels| - 1;
      var before := Spoken(labels[..n]);
      FoldIsSpoken(labels[..n]);
      if labels[n] == "" {
        assert Spoken(labels) == before;
      } else {
        assert (before + [labels[n]])[..|before|] == before;
      }
    }
  }

  lemma {:induction false} SpokenMembers(labels: seq<string>, x: string)
    ensures x in Spoken(labels) <==> x in labels && x != ""
  {
    if labels == [] {
    } else {
      var n := |labels| - 1;
      assert labels == labels[..n] + [labels[n]];
      SpokenMembers(labels[..n], x);
    }
  }

  /** Labels that are not empty and fall into groups, each a repeated label ended by one that
      differs from it. */
  predicate Cancels(s: seq<string>)
    decreases |s|
  {
    s == [] || exists k :: 0 < k < |s| && Group(s, k) && Cancels(s[k + 1..])
  }

  predicate Group(s: seq<string>, k: nat) {
    0 < k < |s| && s[k] != s[0] && forall i :: 0 <= i < k ==> s[i] == s[0]
  }

  predicate NoneEmpty(s: seq<string>) {
    forall i :: 0 <= i < |s| ==> s[i] != ""
  }

  /** After a group the merge stands where it began. */
  lemma GroupCancels(s: seq<string>, k: nat)
    requires NoneEmpty(s) && Group(s, k)
    ensures FoldLabels(s) == FoldLabels(s[k + 1..])
  {
    var same, rest := s[..k], s[k + 1..];
    AgreedLabelSurvives(same, s[0]);
    assert same[0] == s[0];
    assert s[..k + 1][..k] == same;
    assert FoldLabels(s[..k + 1]) == "";
    FoldConcat(s[..k + 1], rest);
    FoldFromNothing(rest);
    assert s[..k + 1] + rest == s;
  }

  /** The length of the first group, or of the whole list if all of it is one label. */
  function FirstRun(s: seq<string>, k: nat): (n: nat)
    requires 0 < k <= |s| && forall i :: 0 <= i < k ==> s[i] == s[0]
    ensures k <= n <= |s| && (forall i :: 0 <= i < n ==> s[i] == s[0]) && (n < |s| ==> s[n] != s[0])
    decreases |s| - k
  {
    if k == |s| || s[k] != s[0] then k else FirstRun(s, k + 1)
  }

  /** One label over and over does not cancel. */
  lemma OneLabelStays(s: seq<string>)
    requires NoneEmpty(s) && s != [] && forall i :: 0 <= i < |s| ==> s[i] == s[0]
    ensures FoldLabels(s) != "" && !Cancels(s)
  {
    AgreedLabelSurvives(s, s[0]);
    assert s[0] in s;
  }

  /** A list has at most one first group. */
  lemma GroupIsFirst(s: seq<string>, j: nat, k: nat)
    requires Group(s, j) && Group(s, k)
    ensures j == k
  {
  }

  lemma CancelsAfterGroup(s: seq<string>, k: nat)
    requires Group(s, k)
    ensures Cancels(s) <==> Cancels(s[k + 1..])
  {
    forall j: nat | Group(s, j) ensures j == k { GroupIsFirst(s, j, k); }
  }

  /** Non-empty reports merge to nothing exactly when they fall into such groups. */
  lemma {:induction false} EmptyIffCancels(s: seq<string>)
    requires NoneEmpty(s)
    ensures FoldLabels(s) == "" <==> Cancels(s)
    decreases |s|
  {
    if s == [] {
    } else {
      var k := FirstRun(s, 1);
      if k == |s| {
        OneLabelStays(s);
      } else {
        assert Group(s, k);
        GroupCancels(s, k);
        EmptyIffCancels(s[k + 1..]);
        CancelsAfterGroup(s, k);
      }
    }
  }

  /** Position `k` is where reports that cancel each other end and `r` is taken up, and
      nothing contradicts `r` from there on. */
  predicate EndsInAt(labels: seq<string>, r: string, k: nat) {
    && k < |labels| && labels[k] == r && Cancels(Spoken(labels[..k]))
    && forall j :: k <= j < |labels| ==> labels[j] == "" || labels[j] == r
  }

  lemma {:induction false} SpokenIsNoneEmpty(labels: seq<string>)
    ensures NoneEmpty(Spoken(labels))
  {
    if labels == [] {
    } else {
      SpokenIsNoneEmpty(labels[..|labels| - 1]);
    }
  }

  lemma PrefixCancels(labels: seq<string>)
    ensures FoldLabels(labels) == "" <==> Cancels(Spoken(labels))
  {
    FoldIsSpoken(labels);
    SpokenIsNoneEmpty(labels);
    EmptyIffCancels(Spoken(labels));
  }

  lemma {:induction false} LabelEndsSomewhere(labels: seq<string>, r: string) returns (k: nat)
    requires r != "" && FoldLabels(labels) == r
    ensures EndsInAt(labels, r, k)
  {
    var n := |labels| - 1;
    PrefixCancels(labels[..n]);
    if FoldLabels(labels[..n]) == "" {
      k := n;
    } else {
      k := LabelEndsSomewhere(labels[..n], r);
      assert labels[..n][..k] == labels[..k];
      forall j | k <= j < n ensures labels[j] == "" || labels[j] == r { assert labels[..n][j] == labels[j]; }
    }
  }

  lemma EndLabelSurvives(labels: seq<string>, r: string, k: nat)
    requires r != "" && EndsInAt(labels, r, k)
    ensures FoldLabels(labels) == r
  {
    PrefixCancels(labels[..k]);
    assert labels[..k] + labels[k..] == labels;
    FoldConcat(labels[..k], labels[k..]);
    FoldFromNothing(labels[k..]);
    AgreedLabelSurvives(labels[k..], r);
    assert labels[k..][0] == r;
  }

  /** Exactly when a label comes out of one order of reports. */
  lemma LabelEndsIn(labels: seq<string>, r: string)
    requires r != ""
    ensures FoldLabels(labels) == r <==> exists k: nat :: EndsInAt(labels, r, k)
  {
    if FoldLabels(labels) == r {
      var k := LabelEndsSomewhere(labels, r);
    }
    if k: nat :| EndsInAt(labels, r, k) {
      EndLabelSurvives(labels, r, k);
    }
  }

  // ---------------------------------------------------------------- every order

  predicate Agree(labels: seq<string>) {
    forall i, j :: 0 <= i < j < |labels| && labels[i] != "" && labels[j] != "" ==> labels[i] == labels[j]
  }

  /** No label but the empty one is reported twice, and the number of reports is even. */
  ghost predicate PairOff(labels: seq<string>) {
    Distinct(Spoken(labels)) && |Spoken(labels)| % 2 == 0
  }

  ghost predicate OrderFree(labels: seq<string>) {
    forall p: seq<string> :: multiset(p) == multiset(labels) ==> FoldLabels(p) == FoldLabels(labels)
  }

  /** Labels that are all different alternate between the last one and nothing. */
  lemma {:induction false} DifferentAlternate(s: seq<string>)
    requires NoneEmpty(s) && Distinct(s)
    ensures FoldLabels(s) == if |s| % 2 == 0 then "" else s[|s| - 1]
  {
    if s == [] {
    } else {
      var n := |s| - 1;
      DifferentAlternate(s[..n]);
      if n > 0 { assert s[..n][n - 1] == s[n - 1] && s[n - 1] != s[n]; }
    }
  }

  lemma CountSnoc(s: seq<string>, last: string, x: string)
    ensures multiset(s + [last])[x] == multiset(s)[x] + if x == last then 1 else 0
  {
  }

  lemma SpokenLast(labels: seq<string>)
    requires labels != []
    ensures var init, last := labels[..|labels| - 1], labels[|labels| - 1];
            labels == init + [last] && Spoken(labels) == if last == "" then Spoken(init) else Spoken(init) + [last]
  {
  }

  lemma {:induction false} SpokenCounts(labels: seq<string>, x: string)
    ensures multiset(Spoken(labels))[x] == if x == "" then 0 else multiset(labels)[x]
  {
    if labels == [] {
    } else {
      var init, last := labels[..|labels| - 1], labels[|labels| - 1];
      SpokenCounts(init, x);
      SpokenLast(labels);
      CountSnoc(init, last, x);
      if last != "" { CountSnoc(Spoken(init), last, x); }
    }
  }

  lemma SpokenPermutes(p: seq<string>, labels: seq<string>)
    requires multiset(p) == multiset(labels)
    ensures multiset(Spoken(p)) == multiset(Spoken(labels)) && |Spoken(p)| == |Spoken(labels)|
  {
    forall x ensures multiset(Spoken(p))[x] == multiset(Spoken(labels))[x] {
      SpokenCounts(p, x);
      SpokenCounts(labels, x);
    }
    assert |multiset(Spoken(p))| == |Spoken(p)| && |multiset(Spoken(labels))| == |Spoken(labels)|;
  }

  lemma AgreementIsOrderFree(labels: seq<string>)
    requires Agree(labels)
    ensures OrderFree(labels)
  {
    forall p: seq<string> | multiset(p) == multiset(labels) ensures FoldLabels(p) == FoldLabels(labels) {
      var r := if exists i :: 0 <= i < |labels| && labels[i] != ""
               then var i :| 0 <= i < |labels| && labels[i] != ""; labels[i] else "r";
      forall i | 0 <= i < |p| ensures p[i] == "" || p[i] == r {
        assert p[i] in multiset(p);
        var j :| 0 <= j < |labels| && labels[j] == p[i];
      }
      AgreedLabelSurvives(labels, r);
      AgreedLabelSurvives(p, r);
      assert r in p <==> r in multiset(p);
    }
  }

  lemma PairingOffIsOrderFree(labels: seq<string>)
    requires PairOff(labels)
    ensures OrderFree(labels)
  {
    forall p: seq<string> | multiset(p) == multiset(labels) ensures FoldLabels(p) == FoldLabels(labels) {
      SpokenPermutes(p, labels);
      PermutedDistinct(Spoken(p), Spoken(labels));
      SpokenIsNoneEmpty(p);
      SpokenIsNoneEmpty(labels);
      DifferentAlternate(Spoken(p));
      DifferentAlternate(Spoken(labels));
      FoldIsSpoken(p);
      FoldIsSpoken(labels);
    }
  }

  // Two orders of the same reports: a repeated label first, and last.

  function Repeat(a: string, k: nat): seq<string> {
    seq(k, i => a)
  }

  function Without(labels: seq<string>, a: string): seq<string> {
    if labels == [] then []
    else
      var last := labels[|labels| - 1];
      Without(labels[..|labels| - 1], a) + if last == a then [] else [last]
  }

  lemma {:induction false} RepeatCount(a: string, k: nat)
    ensures multiset(Repeat(a, k)) == multiset{}[a := k]
  {
    if k == 0 {
    } else {
      RepeatCount(a, k - 1);
      assert Repeat(a, k) == Repeat(a, k - 1) + [a];
    }
  }

  lemma WithoutLast(labels: seq<string>, a: string)
    requires labels != []
    ensures var init, last := labels[..|labels| - 1], labels[|labels| - 1];
            labels == init + [last] && Without(labels, a) == if last == a then Without(init, a) else Without(init, a) + [last]
  {
  }

  lemma {:induction false} WithoutCounts(labels: seq<string>, a: string, x: string)
    ensures multiset(Without(labels, a))[x] == if x == a then 0 else multiset(labels)[x]
  {
    if labels == [] {
    } else {
      var init, last := labels[..|labels| - 1], labels[|labels| - 1];
      WithoutCounts(init, a, x);
      WithoutLast(labels, a);
      CountSnoc(init, last, x);
      if last != a { CountSnoc(Without(init, a), last, x); }
    }
  }

  lemma {:induction false} WithoutMembers(labels: seq<string>, a: string, x: string)
    ensures x in Without(labels, a) <==> x in labels && x != a
  {
    if labels == [] {
    } else {
      var n := |labels| - 1;
      assert labels == labels[..n] + [labels[n]];
      WithoutMembers(labels[..n], a, x);
    }
  }

  lemma SetApart(labels: seq<string>, a: string)
    ensures multiset(Repeat(a, multiset(labels)[a])) + multiset(Without(labels, a)) == multiset(labels)
  {
    var same, others := multiset(Repeat(a, multiset(labels)[a])), multiset(Without(labels, a));
    RepeatCount(a, multiset(labels)[a]);
    forall x ensures (same + others)[x] == multiset(labels)[x] { WithoutCounts(labels, a, x); }
  }

  /** Merged with reports that do not contain it, `a` neither comes up nor survives a conflict. */
  lemma {:induction false} NeverComesUp(start: string, others: seq<string>, a: string)
    requires a != "" && a !in others
    ensures start != a ==> FoldFrom(start, others) != a
    ensures (exists x :: x in others && x != "") ==> FoldFrom(start, others) != a
  {
    if others == [] {
    } else {
      var n := |others| - 1;
      assert others == others[..n] + [others[n]];
      NeverComesUp(start, others[..n], a);
    }
  }

  lemma RepeatedComesLast(start: string, a: string, k: nat)
    requires a != "" && k >= 2
    ensures FoldFrom(start, Repeat(a, k)) == a
    decreases k
  {
    assert Repeat(a, k)[..k - 1] == Repeat(a, k - 1);
    if k == 2 {
      assert Repeat(a, 1)[..0] == [];
      assert FoldFrom(start, Repeat(a, 1)) == MergeLabel(start, a);
    } else {
      RepeatedComesLast(start, a, k - 1);
    }
  }

  lemma LastItSurvives(labels: seq<string>, a: string)
    requires a != "" && multiset(labels)[a] >= 2
    ensures var p := Without(labels, a) + Repeat(a, multiset(labels)[a]);
            multiset(p) == multiset(labels) && FoldLabels(p) == a
  {
    var same, others := Repeat(a, multiset(labels)[a]), Without(labels, a);
    SetApart(labels, a);
    FoldConcat(others, same);
    RepeatedComesLast(FoldLabels(others), a, multiset(labels)[a]);
  }

  lemma FirstItDoesNot(labels: seq<string>, a: string, b: string)
    requires a != "" && b != "" && a != b && b in labels
    ensures var p := Repeat(a, multiset(labels)[a]) + Without(labels, a);
            multiset(p) == multiset(labels) && FoldLabels(p) != a
  {
    var same, others := Repeat(a, multiset(labels)[a]), Without(labels, a);
    SetApart(labels, a);
    WithoutMembers(labels, a, a);
    WithoutMembers(labels, a, b);
    FoldConcat(same, others);
    NeverComesUp(FoldLabels(same), others, a);
  }

  /** A label reported twice beside a different one: last it survives, first it does not. */
  lemma RepeatedIsOrdered(labels: seq<string>, a: string, b: string)
    requires a != "" && b != "" && a != b && multiset(labels)[a] >= 2 && b in labels
    ensures !OrderFree(labels)
  {
    LastItSurvives(labels, a);
    FirstItDoesNot(labels, a, b);
  }

  lemma EmptiesApart(labels: seq<string>)
    ensures multiset(Spoken(labels)) + multiset(Repeat("", multiset(labels)[""])) == multiset(labels)
  {
    var spoken, empties := multiset(Spoken(labels)), multiset(Repeat("", multiset(labels)[""]));
    RepeatCount("", multiset(labels)[""]);
    forall x ensures (spoken + empties)[x] == multiset(labels)[x] { SpokenCounts(labels, x); }
  }

  /** The first label moved to the end. */
  function Turned(s: seq<string>): seq<string>
    requires s != []
  {
    s[1..] + [s[0]]
  }

  lemma TurnedIsDistinct(s: seq<string>)
    requires s != [] && Distinct(s)
    ensures multiset(Turned(s)) == multiset(s) && Distinct(Turned(s))
  {
    assert s == [s[0]] + s[1..];
    PermutedDistinct(Turned(s), s);
  }

  lemma TurnedFolds(s: seq<string>, k: nat)
    requires NoneEmpty(s) && Distinct(s) && |s| % 2 == 1
    ensures FoldLabels(Turned(s) + Repeat("", k)) == s[0]
  {
    TurnedIsDistinct(s);
    DifferentAlternate(Turned(s));
    FoldConcat(Turned(s), Repeat("", k));
    FoldFromSame(s[0], Repeat("", k));
  }

  lemma TurnedPermutes(labels: seq<string>)
    requires Spoken(labels) != [] && Distinct(Spoken(labels))
    ensures multiset(Turned(Spoken(labels)) + Repeat("", multiset(labels)[""])) == multiset(labels)
  {
    TurnedIsDistinct(Spoken(labels));
    EmptiesApart(labels);
  }

  /** An odd number of different labels, at least three: whichever is last survives. */
  lemma OddIsOrdered(labels: seq<string>)
    requires Distinct(Spoken(labels)) && |Spoken(labels)| % 2 == 1 && |Spoken(labels)| > 1
    ensures !OrderFree(labels)
  {
    var s := Spoken(labels);
    SpokenIsNoneEmpty(labels);
    TurnedPermutes(labels);
    TurnedFolds(s, multiset(labels)[""]);
    DifferentAlternate(s);
    FoldIsSpoken(labels);
    assert s[0] != s[|s| - 1];
  }

  /** The merged label does not depend on the order of the reports exactly when all that are
      not empty agree, or they are all different and even in number. */
  lemma OrderFreeExactly(labels: seq<string>)
    ensures OrderFree(labels) <==> Agree(labels) || PairOff(labels)
  {
    if Agree(labels) {
      AgreementIsOrderFree(labels);
    } else if PairOff(labels) {
      PairingOffIsOrderFree(labels);
    } else {
      var i, j :| 0 <= i < j < |labels| && labels[i] != "" && labels[j] != "" && labels[i] != labels[j];
      DisagreementIsSpoken(labels, i, j);
      if Distinct(Spoken(labels)) {
        OddIsOrdered(labels);
      } else {
        var a := RepeatedLabel(Spoken(labels));
        SpokenCounts(labels, a);
        SpokenMembers(labels, a);
        RepeatedIsOrdered(labels, a, if labels[i] == a then labels[j] else labels[i]);
      }
    }
  }

  lemma DisagreementIsSpoken(labels: seq<string>, i: nat, j: nat)
    requires i < j < |labels| && labels[i] != "" && labels[j] != "" && labels[i] != labels[j]
    ensures |Spoken(labels)| > 1
  {
    SpokenMembers(labels, labels[i]);
    SpokenMembers(labels, labels[j]);
    assert labels[i] in labels && labels[j] in labels;
  }

  lemma RepeatedLabel(s: seq<string>) returns (a: string)
    requires !Distinct(s)
    ensures a in s && multiset(s)[a] >= 2
  {
    var i, j :| 0 <= i < j < |s| && s[i] == s[j];
    a := s[i];
    RepeatCounts(s, i, j);
  }

  /** Three reports in conflict: the repeated label survives last and not first. */
  lemma LabelOrderMatters(a: string, b: string)
    requires a != "" && b != "" && a != b
    ensures FoldLabels([a, b, b]) == b && FoldLabels([b, b, a]) == ""
  {
    assert [a, b, b][..2] == [a, b] && [a, b][..1] == [a] && [a][..0] == [];
    assert [b, b, a][..2] == [b, b] && [b, b][..1] == [b] && [b][..0] == [];
    assert FoldLabels([a]) == a && FoldLabels([b]) == b;
    assert FoldLabels([a, b]) == "" && FoldLabels([b, b]) == b;
  }
}
