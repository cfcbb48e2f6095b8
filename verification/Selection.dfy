/** Choosing the freshest of several copies: a loop that keeps the best candidate so far and
    replaces it only by a strictly better one. */
module Selection {
  import opened Options

  function Best<T>(cs: seq<T>, usable: T -> bool, better: (T, T) -> bool): Option<T> {
    if cs == [] then None
    else
      var c, best := cs[|cs| - 1], Best(cs[..|cs| - 1], usable, better);
      if usable(c) && (best.None? || better(c, best.value)) then Some(c) else best
  }

  method ChooseBest<T>(cs: seq<T>, usable: T -> bool, better: (T, T) -> bool) returns (best: Option<T>)
    ensures best == Best(cs, usable, better)
  {
    best := None;
    var i := 0;
    while i < |cs|
      invariant 0 <= i <= |cs| && best == Best(cs[..i], usable, better)
    {
      assert cs[..i + 1][..i] == cs[..i];
      if usable(cs[i]) && (best.None? || better(cs[i], best.value)) {
        best := Some(cs[i]);
      }
      i := i + 1;
    }
    assert cs[..i] == cs;
  }

  /** A comparison that ranks: asymmetric, and not being better is transitive. */
  ghost predicate Ranks<T(!new)>(better: (T, T) -> bool) {
    && (forall a, b :: better(a, b) ==> !better(b, a))
    && (forall a, b, c :: better(a, c) ==> better(a, b) || better(b, c))
  }

  /** The candidate at `k` is usable, none is better, and no earlier one is as good. */
  ghost predicate FirstMaximal<T>(cs: seq<T>, k: nat, usable: T -> bool, better: (T, T) -> bool) {
    && k < |cs| && usable(cs[k])
    && (forall j :: 0 <= j < |cs| && usable(cs[j]) ==> !better(cs[j], cs[k]))
    && (forall j :: 0 <= j < k && usable(cs[j]) ==> better(cs[k], cs[j]))
  }

  /** The choice is the first of the maximal usable candidates, and there is none exactly
      when no candidate is usable. */
  lemma {:induction false} BestIsFirstMaximal<T(!new)>(cs: seq<T>, usable: T -> bool, better: (T, T) -> bool)
    requires Ranks(better)
    ensures Best(cs, usable, better).None? <==> forall j :: 0 <= j < |cs| ==> !usable(cs[j])
    ensures Best(cs, usable, better).Some? ==>
              exists k: nat :: FirstMaximal(cs, k, usable, better) && Best(cs, usable, better) == Some(cs[k])
  {
    if cs == [] {
    } else {
      var n := |cs| - 1;
      var init := cs[..n];
      BestIsFirstMaximal(init, usable, better);
      var before := Best(init, usable, better);
      if usable(cs[n]) && (before.None? || better(cs[n], before.value)) {
        forall j | 0 <= j < n && usable(cs[j]) ensures better(cs[n], cs[j]) && !better(cs[j], cs[n]) {
          assert init[j] == cs[j];
          assert !better(cs[j], before.value);
          assert better(cs[n], cs[j]);
        }
        assert FirstMaximal(cs, n, usable, better);
      } else if before.Some? {
        var k: nat :| FirstMaximal(init, k, usable, better) && before == Some(init[k]);
        assert FirstMaximal(cs, k, usable, better);
      }
    }
  }

  /** When every usable candidate is equally good, the first of them is chosen. */
  lemma {:induction false} FirstOfEquals<T>(cs: seq<T>, k: nat, usable: T -> bool, better: (T, T) -> bool)
    requires k < |cs| && usable(cs[k])
    requires forall j :: 0 <= j < k ==> !usable(cs[j])
    requires forall j :: k < j < |cs| && usable(cs[j]) ==> !better(cs[j], cs[k])
    ensures Best(cs, usable, better) == Some(cs[k])
  {
    if k < |cs| - 1 {
      FirstOfEquals(cs[..|cs| - 1], k, usable, better);
    } else {
      NoneUsable(cs[..k], usable, better);
    }
  }

  lemma {:induction false} NoneUsable<T>(cs: seq<T>, usable: T -> bool, better: (T, T) -> bool)
    requires forall j :: 0 <= j < |cs| ==> !usable(cs[j])
    ensures Best(cs, usable, better) == None
  {
    if cs == [] {
    } else {
      NoneUsable(cs[..|cs| - 1], usable, better);
    }
  }

  /** The choice is one of the usable candidates, and there is one if any is usable. */
  lemma {:induction false} BestIsCandidate<T>(cs: seq<T>, usable: T -> bool, better: (T, T) -> bool)
    ensures Best(cs, usable, better).Some? <==> exists c :: c in cs && usable(c)
    ensures Best(cs, usable, better).Some? ==>
              Best(cs, usable, better).value in cs && usable(Best(cs, usable, better).value)
  {
    if cs == [] {
    } else {
      var k := |cs| - 1;
      BestIsCandidate(cs[..k], usable, better);
      assert cs == cs[..k] + [cs[k]];
    }
  }
}
