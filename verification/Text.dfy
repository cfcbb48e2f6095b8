/** The string operations the parsers use, on sequences of code points. */
module Text {

  /** White space as `unicode.IsSpace` has it. */
  predicate IsSpace(c: char) {
    var k := c as int;
    || k == 0x20 || 0x09 <= k <= 0x0D || k == 0x85 || k == 0xA0 || k == 0x1680
    || 0x2000 <= k <= 0x200A || k == 0x2028 || k == 0x2029 || k == 0x202F || k == 0x205F || k == 0x3000
  }

  function TrimLeft(s: string): string {
    if s != [] && IsSpace(s[0]) then TrimLeft(s[1..]) else s
  }

  function TrimRight(s: string): string {
    if s != [] && IsSpace(s[|s| - 1]) then TrimRight(s[..|s| - 1]) else s
  }

  function Trim(s: string): string {
    TrimRight(TrimLeft(s))
  }

  /** Neither end is white space. */
  predicate Tight(s: string) {
    s == [] || (!IsSpace(s[0]) && !IsSpace(s[|s| - 1]))
  }

  lemma {:induction false} TrimLeftIsSuffix(s: string)
    ensures |TrimLeft(s)| <= |s| && TrimLeft(s) == s[|s| - |TrimLeft(s)|..]
    ensures TrimLeft(s) == [] || !IsSpace(TrimLeft(s)[0])
  {
    if s == [] || !IsSpace(s[0]) {
    } else {
      TrimLeftIsSuffix(s[1..]);
    }
  }

  lemma {:induction false} TrimRightIsPrefix(s: string)
    ensures TrimRight(s) <= s
    ensures TrimRight(s) == [] || !IsSpace(TrimRight(s)[|TrimRight(s)| - 1])
  {
    if s == [] || !IsSpace(s[|s| - 1]) {
    } else {
      TrimRightIsPrefix(s[..|s| - 1]);
    }
  }

  /** Trimming leaves a tight text, and keeps its characters. */
  lemma TrimIsTight(s: string)
    ensures Tight(Trim(s)) && forall c :: c in Trim(s) ==> c in s
    ensures Tight(s) ==> Trim(s) == s
  {
    TrimLeftIsSuffix(s);
    TrimRightIsPrefix(TrimLeft(s));
  }

  predicate Blank(s: string) {
    forall i :: 0 <= i < |s| ==> IsSpace(s[i])
  }

  lemma {:induction false} TrimLeftBlank(a: string, s: string)
    requires Blank(a)
    ensures TrimLeft(a + s) == TrimLeft(s)
  {
    if a == [] {
      assert a + s == s;
    } else {
      assert (a + s)[0] == a[0] && (a + s)[1..] == a[1..] + s;
      TrimLeftBlank(a[1..], s);
    }
  }

  lemma {:induction false} TrimRightBlank(s: string, b: string)
    requires Blank(b)
    ensures TrimRight(s + b) == TrimRight(s)
  {
    if b == [] {
      assert s + b == s;
    } else {
      var n := |b| - 1;
      assert (s + b)[|s + b| - 1] == b[n] && (s + b)[..|s + b| - 1] == s + b[..n];
      TrimRightBlank(s, b[..n]);
    }
  }

  /** Trimming takes away exactly the blanks around a tight text. */
  lemma TrimAround(a: string, s: string, b: string)
    requires Blank(a) && Blank(b) && s != [] && Tight(s)
    ensures Trim(a + s + b) == s
  {
    assert a + s + b == a + (s + b);
    TrimLeftBlank(a, s + b);
    assert TrimLeft(s + b) == s + b by { assert (s + b)[0] == s[0]; }
    TrimRightBlank(s, b);
  }

  /** The text before and after the first `c`, and whether there is one. */
  function Cut(s: string, c: char): (string, string, bool) {
    if s == [] then ([], [], false)
    else if s[0] == c then ([], s[1..], true)
    else
      var (before, after, found) := Cut(s[1..], c);
      ([s[0]] + before, after, found)
  }

  lemma {:induction false} CutAt(a: string, c: char, b: string)
    requires c !in a
    ensures Cut(a + [c] + b, c) == (a, b, true)
  {
    if a == [] {
      assert a + [c] + b == [c] + b;
    } else {
      CutAt(a[1..], c, b);
      var s := a + [c] + b;
      assert s[0] == a[0] && s[1..] == a[1..] + [c] + b;
      assert a == [a[0]] + a[1..];
    }
  }

  lemma {:induction false} CutMissing(s: string, c: char)
    requires c !in s
    ensures Cut(s, c) == (s, [], false)
  {
    if s == [] {
    } else {
      CutMissing(s[1..], c);
      assert s == [s[0]] + s[1..];
    }
  }

  /** Cutting undoes joining, in both directions. */
  lemma {:induction false} CutParts(s: string, c: char)
    ensures var (before, after, found) := Cut(s, c);
            && c !in before && (found <==> c in s)
            && s == if found then before + [c] + after else before
  {
    if s == [] {
    } else if s[0] == c {
      assert s == [] + [c] + s[1..];
    } else {
      CutParts(s[1..], c);
      var (before, after, found) := Cut(s[1..], c);
      assert s == [s[0]] + s[1..];
      if found { assert [s[0]] + (before + [c] + after) == [s[0]] + before + [c] + after; }
    }
  }

  function Split(s: string, c: char): seq<string>
    decreases |s|
  {
    var (before, after, found) := Cut(s, c);
    CutParts(s, c);
    if found then [before] + Split(after, c) else [s]
  }

  /** No separator inside a part. */
  lemma {:induction false} SplitParts(s: string, c: char)
    ensures Split(s, c) != []
    ensures forall i :: 0 <= i < |Split(s, c)| ==> c !in Split(s, c)[i] && forall x :: x in Split(s, c)[i] ==> x in s
    decreases |s|
  {
    CutParts(s, c);
    if c in s {
      SplitParts(Cut(s, c).1, c);
    }
  }
}
