/** Byte-wise name order: the order `sort.Strings` gives, as a function of the set of names. */
module Names {

  /** Lexicographic comparison, as Go compares strings. */
  predicate Less(a: string, b: string) {
    if b == [] then false
    else if a == [] then true
    else if a[0] != b[0] then a[0] < b[0]
    else Less(a[1..], b[1..])
  }

  lemma {:induction false} LessTotal(a: string, b: string)
    ensures a == b || Less(a, b) || Less(b, a)
  {
    if a == [] || b == [] || a[0] != b[0] {
    } else {
      LessTotal(a[1..], b[1..]);
      assert a == [a[0]] + a[1..] && b == [b[0]] + b[1..];
    }
  }

  lemma {:induction false} LessTransitive(a: string, b: string, c: string)
    requires Less(a, b) && Less(b, c)
    ensures Less(a, c)
  {
    if a == [] || a[0] != b[0] || b[0] != c[0] {
    } else {
      LessTransitive(a[1..], b[1..], c[1..]);
    }
  }

  lemma {:induction false} LessIrreflexive(a: string, b: string)
    requires Less(a, b)
    ensures a != b && !Less(b, a)
  {
    if a == [] || a[0] != b[0] {
    } else {
      LessIrreflexive(a[1..], b[1..]);
    }
  }

  /** Strictly increasing, hence free of repetitions. */
  predicate Sorted(s: seq<string>) {
    forall i, j :: 0 <= i < j < |s| ==> Less(s[i], s[j])
  }

  function Elements(s: seq<string>): set<string> {
    set x | x in s
  }

  predicate IsLeast(m: string, keys: set<string>) {
    m in keys && forall x :: x in keys ==> x == m || Less(m, x)
  }

  lemma LeastExists(keys: set<string>)
    requires keys != {}
    ensures exists m :: IsLeast(m, keys)
  {
    var k :| k in keys;
    var rest := keys - {k};
    if rest == {} {
      assert keys == {k} + rest;
      assert IsLeast(k, keys);
    } else {
      LeastExists(rest);
      var m :| IsLeast(m, rest);
      LessTotal(k, m);
      if Less(m, k) {
        assert IsLeast(m, keys);
      } else {
        forall x | x in keys ensures x == k || Less(k, x) {
          if x in rest && x != m { LessTransitive(k, m, x); }
        }
        assert IsLeast(k, keys);
      }
    }
  }

  lemma LeastUnique(m: string, n: string, keys: set<string>)
    requires IsLeast(m, keys) && IsLeast(n, keys)
    ensures m == n
  {
    if m != n { LessIrreflexive(m, n); }
  }

  function Least(keys: set<string>): (m: string)
    requires keys != {}
    ensures IsLeast(m, keys)
  {
    LeastExists(keys);
    assert forall m, n | IsLeast(m, keys) && IsLeast(n, keys) :: m == n by {
      forall m, n | IsLeast(m, keys) && IsLeast(n, keys) ensures m == n { LeastUnique(m, n, keys); }
    }
    var m :| IsLeast(m, keys);
    m
  }

  /** The names of a set in increasing order. */
  function SortedNames(keys: set<string>): (r: seq<string>)
    ensures Sorted(r) && Elements(r) == keys
  {
    if keys == {} then []
    else
      var m := Least(keys);
      var tail := SortedNames(keys - {m});
      assert Elements([m] + tail) == {m} + Elements(tail);
      [m] + tail
  }

  /** There is one increasing enumeration of a set of names. */
  lemma {:induction false} SortedUnique(a: seq<string>, b: seq<string>)
    requires Sorted(a) && Sorted(b) && Elements(a) == Elements(b)
    ensures a == b
  {
    if a == [] {
      NonEmptyElements(b);
    } else {
      assert a[0] in Elements(a);
      assert b != [];
      assert b[0] in Elements(b);
      assert IsLeast(a[0], Elements(a));
      assert IsLeast(b[0], Elements(b));
      LeastUnique(a[0], b[0], Elements(a));
      TailElements(a);
      TailElements(b);
      SortedUnique(a[1..], b[1..]);
      assert a == [a[0]] + a[1..] && b == [b[0]] + b[1..];
    }
  }

  lemma NonEmptyElements(s: seq<string>)
    ensures s != [] ==> Elements(s) != {}
  {
    if s == [] {
    } else {
      assert s[0] in Elements(s);
    }
  }

  lemma TailElements(s: seq<string>)
    requires Sorted(s) && s != []
    ensures Elements(s[1..]) == Elements(s) - {s[0]}
  {
    forall x | x in s[1..] ensures x != s[0] {
      var i :| 0 <= i < |s[1..]| && s[1..][i] == x;
      LessIrreflexive(s[0], s[i + 1]);
    }
    forall x | x in s && x != s[0] ensures x in s[1..] {
      var i :| 0 <= i < |s| && s[i] == x;
      assert s[1..][i - 1] == x;
    }
  }

  /** In order, repetitions side by side. */
  predicate NonDecreasing(s: seq<string>) {
    forall i, j :: 0 <= i < j < |s| ==> s[i] == s[j] || Less(s[i], s[j])
  }

  lemma PrependKeepsOrder(x: string, s: seq<string>)
    requires NonDecreasing(s) && forall j :: 0 <= j < |s| ==> x == s[j] || Less(x, s[j])
    ensures NonDecreasing([x] + s)
  {
  }

  lemma FirstIsBefore(x: string, s: seq<string>)
    requires NonDecreasing(s) && s != [] && !Less(s[0], x)
    ensures forall j :: 0 <= j < |s| ==> x == s[j] || Less(x, s[j])
  {
    LessTotal(x, s[0]);
    forall j | 0 <= j < |s| ensures x == s[j] || Less(x, s[j]) {
      if x != s[0] && s[j] != s[0] { LessTransitive(x, s[0], s[j]); }
    }
  }

  lemma HeadStaysFirst(s: seq<string>, x: string, rest: seq<string>)
    requires NonDecreasing(s) && s != [] && Less(s[0], x) && multiset(rest) == multiset(s[1..]) + multiset{x}
    ensures forall j :: 0 <= j < |rest| ==> s[0] == rest[j] || Less(s[0], rest[j])
  {
    forall j | 0 <= j < |rest| ensures s[0] == rest[j] || Less(s[0], rest[j]) {
      assert rest[j] in multiset(rest);
      if rest[j] != x {
        assert rest[j] in multiset(s[1..]);
        var k :| 0 <= k < |s[1..]| && s[1..][k] == rest[j];
        assert s[k + 1] == rest[j];
      }
    }
  }

  lemma HeadCounts(s: seq<string>)
    requires s != []
    ensures multiset(s) == multiset{s[0]} + multiset(s[1..])
  {
    assert s == [s[0]] + s[1..];
  }

  lemma TailKeepsOrder(s: seq<string>)
    requires s != [] && NonDecreasing(s)
    ensures NonDecreasing(s[1..])
  {
  }

  function InsertName(s: seq<string>, x: string): (r: seq<string>)
    requires NonDecreasing(s)
    ensures multiset(r) == multiset(s) + multiset{x} && NonDecreasing(r)
  {
    if s == [] then [x]
    else if Less(s[0], x) then
      TailKeepsOrder(s);
      var rest := InsertName(s[1..], x);
      HeadCounts(s);
      HeadStaysFirst(s, x, rest);
      PrependKeepsOrder(s[0], rest);
      [s[0]] + rest
    else
      FirstIsBefore(x, s);
      PrependKeepsOrder(x, s);
      [x] + s
  }

  /** A list of names in order. */
  function SortedList(s: seq<string>): (r: seq<string>)
    ensures multiset(r) == multiset(s) && NonDecreasing(r)
  {
    if s == [] then []
    else
      HeadCounts(s);
      InsertName(SortedList(s[1..]), s[0])
  }
}
