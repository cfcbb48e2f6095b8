/** A value that may be absent. */
module Options {
  datatype Option<T> = None | Some(value: T)

  /** The values of a list that are there, in order. */
  function Present<T>(s: seq<Option<T>>): seq<T> {
    if s == [] then []
    else (if s[0].Some? then [s[0].value] else []) + Present(s[1..])
  }

  lemma {:induction false} PresentAppend<T>(a: seq<Option<T>>, b: seq<Option<T>>)
    ensures Present(a + b) == Present(a) + Present(b)
  {
    if a == [] {
      assert a + b == b;
    } else {
      var head := if a[0].Some? then [a[0].value] else [];
      PresentAppend(a[1..], b);
      assert (a + b)[0] == a[0] && (a + b)[1..] == a[1..] + b;
      assert head + (Present(a[1..]) + Present(b)) == (head + Present(a[1..])) + Present(b);
    }
  }

  function One<T>(x: Option<T>): seq<T> {
    if x.Some? then [x.value] else []
  }

  lemma PresentSplit<T>(s: seq<Option<T>>, i: nat)
    requires i <= |s|
    ensures Present(s) == Present(s[..i]) + Present(s[i..])
  {
    PresentAppend(s[..i], s[i..]);
    assert s == s[..i] + s[i..];
  }

  lemma PresentFrom<T>(s: seq<Option<T>>, i: nat)
    requires i < |s|
    ensures Present(s[i..]) == One(s[i]) + Present(s[i + 1..])
  {
    assert s[i..][1..] == s[i + 1..];
  }

  lemma PresentUpTo<T>(s: seq<Option<T>>, i: nat)
    requires i < |s|
    ensures Present(s[..i + 1]) == Present(s[..i]) + One(s[i])
  {
    PresentAppend(s[..i], [s[i]]);
    assert s[..i + 1] == s[..i] + [s[i]];
    assert [s[i]][1..] == [];
    assert Present([s[i]]) == One(s[i]) + Present([s[i]][1..]);
  }
}
