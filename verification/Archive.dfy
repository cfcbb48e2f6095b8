/** Names and sizes of backup archives. */
module Archive {
  import opened Text

  predicate Alphanumeric(c: char) {
    'a' <= c <= 'z' || 'A' <= c <= 'Z' || '0' <= c <= '9'
  }

  predicate NameCharacter(s: string, i: nat)
    requires i < |s|
  {
    Alphanumeric(s[i]) || (i > 0 && (s[i] == '-' || s[i] == '_' || s[i] == '.'))
  }

  predicate IsArchiveName(s: string) {
    1 <= |s| <= 128 && forall i :: 0 <= i < |s| ==> NameCharacter(s, i)
  }

  /** 1 to 128 letters, digits, dashes, underscores and dots, the first a letter or digit. */
  lemma ArchiveNameExactly(s: string)
    ensures IsArchiveName(s) <==>
      |s| > 0 && |s| <= 128 && Alphanumeric(s[0]) && forall c :: c in s ==> Alphanumeric(c) || c in "-_."
  {
    if IsArchiveName(s) {
      forall c | c in s ensures Alphanumeric(c) || c in "-_." {
        var i :| 0 <= i < |s| && s[i] == c;
        assert NameCharacter(s, i);
      }
      assert NameCharacter(s, 0);
    } else if |s| > 0 && |s| <= 128 {
      var i :| 0 <= i < |s| && !NameCharacter(s, i);
      assert s[i] in s;
    }
  }

  method CheckArchiveName(s: string) returns (ok: bool)
    ensures ok == IsArchiveName(s)
  {
    if |s| == 0 || |s| > 128 { return false; }
    var i := 0;
    while i < |s|
      invariant 0 <= i <= |s| && forall j :: 0 <= j < i ==> NameCharacter(s, j)
    {
      if !Alphanumeric(s[i]) && !(i > 0 && (s[i] == '-' || s[i] == '_' || s[i] == '.')) {
        assert !NameCharacter(s, i);
        return false;
      }
      i := i + 1;
    }
    ok := true;
  }

  // ---------------------------------------------------------------- sanitising

  function StripLeft(s: string, c: char): string {
    if s != [] && s[0] == c then StripLeft(s[1..], c) else s
  }

  function StripRight(s: string, c: char): string {
    if s != [] && s[|s| - 1] == c then StripRight(s[..|s| - 1], c) else s
  }

  function Strip(s: string, c: char): string {
    StripRight(StripLeft(s, c), c)
  }

  datatype Builder = Builder(out: string, lastWasSeparator: bool)

  function Squeeze(s: string): Builder {
    if s == [] then Builder([], false)
    else
      var b, c := Squeeze(s[..|s| - 1]), s[|s| - 1];
      if Alphanumeric(c) then Builder(b.out + [c], false)
      else if b.lastWasSeparator then b
      else Builder(b.out + ['_'], true)
  }

  function Cleaned(s: string): string {
    var cleaned := Strip(Squeeze(Strip(s, '/')).out, '_');
    if cleaned == "" then "volume" else cleaned
  }

  function ArchiveName(volume: string): string {
    var name := Trim(volume);
    if name == "" then "" else if IsArchiveName(name) then name else Cleaned(name)
  }

  method SqueezeRunes(s: string) returns (out: string)
    ensures out == Squeeze(s).out
  {
    out := "";
    var lastWasSeparator := false;
    var i := 0;
    while i < |s|
      invariant 0 <= i <= |s| && Squeeze(s[..i]) == Builder(out, lastWasSeparator)
    {
      assert s[..i + 1][..i] == s[..i];
      if Alphanumeric(s[i]) {
        out := out + [s[i]];
        lastWasSeparator := false;
      } else if !lastWasSeparator {
        out := out + ['_'];
        lastWasSeparator := true;
      }
      i := i + 1;
    }
    assert s[..i] == s;
  }

  method BackupArchiveVolumeName(volume: string) returns (r: string)
    ensures r == ArchiveName(volume)
  {
    var name := Trim(volume);
    if name == "" { return ""; }
    var valid := CheckArchiveName(name);
    if valid { return name; }
    var out := SqueezeRunes(Strip(name, '/'));
    r := Strip(out, '_');
    if r == "" { r := "volume"; }
  }

  /** Letters, digits and underscores, no two underscores together. */
  predicate SingleSeparators(s: string) {
    && (forall i :: 0 <= i < |s| ==> Alphanumeric(s[i]) || s[i] == '_')
    && (forall i :: 0 < i < |s| ==> s[i - 1] != '_' || s[i] != '_')
  }

  /** As above, with no underscore at either end. */
  predicate Neat(s: string) {
    SingleSeparators(s) && s != [] && s[0] != '_' && s[|s| - 1] != '_'
  }

  lemma {:induction false} SqueezedIsSingle(s: string)
    ensures var b := Squeeze(s);
            SingleSeparators(b.out) && (b.lastWasSeparator <==> b.out != [] && b.out[|b.out| - 1] == '_')
  {
    if s == [] {
    } else {
      SqueezedIsSingle(s[..|s| - 1]);
      var b, c := Squeeze(s[..|s| - 1]).out, s[|s| - 1];
      assert forall x :: (b + [x])[|b|] == x;
    }
  }

  /** Squeezing changes nothing in a text that has single separators. */
  lemma {:induction false} SingleIsSqueezed(s: string)
    requires SingleSeparators(s)
    ensures Squeeze(s) == Builder(s, s != [] && s[|s| - 1] == '_')
  {
    if s == [] {
    } else {
      var init := s[..|s| - 1];
      forall i | 0 < i < |init| ensures init[i - 1] != '_' || init[i] != '_' { assert s[i - 1] != '_' || s[i] != '_'; }
      SingleIsSqueezed(init);
      assert s == init + [s[|s| - 1]];
      if |s| > 1 { assert s[|s| - 2] != '_' || s[|s| - 1] != '_'; }
    }
  }

  lemma {:induction false} StripLeftKeeps(s: string, c: char)
    ensures |StripLeft(s, c)| <= |s| && StripLeft(s, c) == s[|s| - |StripLeft(s, c)|..]
    ensures StripLeft(s, c) == [] || StripLeft(s, c)[0] != c
  {
    if s == [] || s[0] != c {
    } else {
      StripLeftKeeps(s[1..], c);
    }
  }

  lemma {:induction false} StripRightKeeps(s: string, c: char)
    ensures StripRight(s, c) <= s
    ensures StripRight(s, c) == [] || StripRight(s, c)[|StripRight(s, c)| - 1] != c
  {
    if s == [] || s[|s| - 1] != c {
    } else {
      StripRightKeeps(s[..|s| - 1], c);
    }
  }

  /** A stretch of a text with single separators has single separators. */
  lemma StretchIsSingle(s: string, a: nat, b: nat)
    requires SingleSeparators(s) && a <= b <= |s|
    ensures SingleSeparators(s[a..b])
  {
    var r := s[a..b];
    forall i | 0 < i < |r| ensures r[i - 1] != '_' || r[i] != '_' { assert s[a + i - 1] != '_' || s[a + i] != '_'; }
  }

  lemma StrippedIsStretch(s: string, c: char) returns (a: nat, b: nat)
    ensures a <= b <= |s| && Strip(s, c) == s[a..b]
  {
    var t := StripLeft(s, c);
    StripLeftKeeps(s, c);
    StripRightKeeps(t, c);
    a := |s| - |t|;
    b := a + |Strip(s, c)|;
    assert Strip(s, c) == t[..|Strip(s, c)|];
  }

  lemma StripEnds(s: string, c: char)
    ensures var r := Strip(s, c); r == [] || (r[0] != c && r[|r| - 1] != c)
  {
    var t := StripLeft(s, c);
    StripLeftKeeps(s, c);
    StripRightKeeps(t, c);
    if StripRight(t, c) != [] { assert StripRight(t, c)[0] == t[0]; }
  }

  lemma StrippedIsNeat(s: string)
    requires SingleSeparators(s)
    ensures Strip(s, '_') == "" || Neat(Strip(s, '_'))
  {
    var a, b := StrippedIsStretch(s, '_');
    StretchIsSingle(s, a, b);
    StripEnds(s, '_');
  }

  lemma NeatIsStripped(s: string, c: char)
    requires Neat(s) && (c == '/' || c == '_')
    ensures Strip(s, c) == s
  {
    assert Alphanumeric(s[0]) && Alphanumeric(s[|s| - 1]);
    assert StripLeft(s, c) == s;
  }

  lemma NeatIsTight(s: string)
    requires Neat(s)
    ensures Trim(s) == s
  {
    assert Alphanumeric(s[0]) && Alphanumeric(s[|s| - 1]);
    TrimIsTight(s);
  }

  /** A neat name cannot be cleaned further. */
  lemma NeatIsCleaned(s: string)
    requires Neat(s)
    ensures Cleaned(s) == s
  {
    NeatIsStripped(s, '/');
    SingleIsSqueezed(s);
    NeatIsStripped(s, '_');
  }

  /** What comes out: nothing for a blank name, a name that was valid already, or a neat one. */
  lemma ArchiveNameShape(volume: string)
    ensures var r := ArchiveName(volume);
            && (r == "" <==> Trim(volume) == "")
            && (r != "" ==> (IsArchiveName(r) && r == Trim(volume)) || Neat(r))
  {
    var name := Trim(volume);
    if name != "" && !IsArchiveName(name) {
      SqueezedIsSingle(Strip(name, '/'));
      StrippedIsNeat(Squeeze(Strip(name, '/')).out);
    }
  }

  /** Sanitising twice is sanitising once. */
  lemma ArchiveNameIdempotent(volume: string)
    ensures ArchiveName(ArchiveName(volume)) == ArchiveName(volume)
  {
    var r := ArchiveName(volume);
    ArchiveNameShape(volume);
    TrimIsTight(volume);
    TrimIsTight(r);
    if Neat(r) {
      NeatIsTight(r);
      NeatIsCleaned(r);
    }
  }

  // ---------------------------------------------------------------- words

  /** The maximal runs of letters and digits of a text, in order. */
  function Words(s: string): (ws: seq<string>)
    ensures s != [] && Alphanumeric(s[|s| - 1]) ==> ws != []
  {
    if s == [] then []
    else
      var n := |s| - 1;
      var ws := Words(s[..n]);
      if !Alphanumeric(s[n]) then ws
      else if n > 0 && Alphanumeric(s[n - 1]) then ws[..|ws| - 1] + [ws[|ws| - 1] + [s[n]]]
      else ws + [[s[n]]]
  }

  function Joined(ws: seq<string>): string
    decreases |ws|, 0
  {
    if ws == [] then "" else Ahead(ws[..|ws| - 1]) + ws[|ws| - 1]
  }

  /** The words that stand before another, with the underscore after them. */
  function Ahead(ws: seq<string>): string
    decreases |ws|, 1
  {
    if ws == [] then "" else Joined(ws) + "_"
  }

  lemma JoinedOneMore(ws: seq<string>, w: string)
    ensures Joined(ws + [w]) == Ahead(ws) + w
  {
    assert (ws + [w])[..|ws|] == ws;
  }

  lemma JoinedLonger(ws: seq<string>, w: string, c: char)
    ensures Joined(ws + [w + [c]]) == Joined(ws + [w]) + [c]
  {
    JoinedOneMore(ws, w);
    JoinedOneMore(ws, w + [c]);
    assert Ahead(ws) + (w + [c]) == (Ahead(ws) + w) + [c];
  }

  function Lead(s: string): string {
    if s != [] && !Alphanumeric(s[0]) then "_" else ""
  }

  function Trail(s: string): string {
    if s != [] && !Alphanumeric(s[|s| - 1]) && Words(s) != [] then "_" else ""
  }

  /** The builder holds the words joined by single underscores, and one more underscore for
      what stands before the first word or after the last. */
  ghost predicate HoldsWords(s: string) {
    && Squeeze(s).out == Lead(s) + Joined(Words(s)) + Trail(s)
    && (Squeeze(s).lastWasSeparator <==> s != [] && !Alphanumeric(s[|s| - 1]))
  }

  /** A letter right after another makes the last word longer. */
  lemma WordGrows(s: string)
    requires |s| > 1 && Alphanumeric(s[|s| - 1]) && Alphanumeric(s[|s| - 2]) && HoldsWords(s[..|s| - 1])
    ensures HoldsWords(s)
  {
    var n := |s| - 1;
    var init, ws := s[..n], Words(s[..n]);
    JoinedLonger(ws[..|ws| - 1], ws[|ws| - 1], s[n]);
    assert ws[..|ws| - 1] + [ws[|ws| - 1]] == ws;
    assert Words(s) == ws[..|ws| - 1] + [ws[|ws| - 1] + [s[n]]];
    assert Lead(s) == Lead(init) && Trail(init) == "" && Trail(s) == "";
    Regroup(Lead(s), Joined(ws), "", [s[n]]);
    assert Joined(ws) + "" + [s[n]] == Joined(ws) + [s[n]];
  }

  lemma Regroup(a: string, b: string, c: string, d: string)
    ensures a + b + c + d == a + (b + c + d) + ""
  {
  }

  /** A letter at the start or after a separator begins a word. */
  lemma WordBegins(s: string)
    requires s != [] && Alphanumeric(s[|s| - 1]) && (|s| > 1 ==> !Alphanumeric(s[|s| - 2])) && HoldsWords(s[..|s| - 1])
    ensures HoldsWords(s)
  {
    var n := |s| - 1;
    var init, ws := s[..n], Words(s[..n]);
    JoinedOneMore(ws, [s[n]]);
    if n == 0 {
      assert ws == [] && Squeeze(s).out == [s[n]];
    } else {
      assert Lead(s) == Lead(init) && Trail(s) == "" && Joined(ws) + Trail(init) == Ahead(ws);
      Regroup(Lead(s), Joined(ws), Trail(init), [s[n]]);
    }
  }

  lemma SeparatorEnds(s: string)
    requires s != [] && !Alphanumeric(s[|s| - 1]) && HoldsWords(s[..|s| - 1])
    ensures HoldsWords(s)
  {
    var init := s[..|s| - 1];
    assert Words(s) == Words(init);
  }

  lemma {:induction false} SqueezedIsJoined(s: string)
    ensures HoldsWords(s)
  {
    if s == [] {
    } else {
      SqueezedIsJoined(s[..|s| - 1]);
      if !Alphanumeric(s[|s| - 1]) {
        SeparatorEnds(s);
      } else if |s| > 1 && Alphanumeric(s[|s| - 2]) {
        WordGrows(s);
      } else {
        WordBegins(s);
      }
    }
  }

  lemma {:induction false} WordsAreWords(s: string)
    ensures forall w :: w in Words(s) ==> w != [] && forall i :: 0 <= i < |w| ==> Alphanumeric(w[i])
  {
    if s == [] {
    } else {
      var n := |s| - 1;
      var ws := Words(s[..n]);
      WordsAreWords(s[..n]);
      if Alphanumeric(s[n]) && n > 0 && Alphanumeric(s[n - 1]) {
        assert ws[|ws| - 1] in ws && forall w :: w in ws[..|ws| - 1] ==> w in ws;
      }
    }
  }

  lemma {:induction false} JoinedEnds(ws: seq<string>)
    requires ws != [] && forall w :: w in ws ==> w != [] && forall i :: 0 <= i < |w| ==> Alphanumeric(w[i])
    ensures var j := Joined(ws); j != [] && Alphanumeric(j[0]) && Alphanumeric(j[|j| - 1])
  {
    var n := |ws| - 1;
    assert ws[n] in ws;
    if n > 0 { JoinedEnds(ws[..n]); }
  }

  /** Stripping takes away the underscores around a text that has none at its ends. */
  lemma StripAround(lead: string, s: string, trail: string)
    requires (lead == "" || lead == "_") && (trail == "" || trail == "_")
    requires s == [] ==> trail == ""
    requires s != [] ==> s[0] != '_' && s[|s| - 1] != '_'
    ensures Strip(lead + s + trail, '_') == s
  {
    var t := s + trail;
    assert lead + s + trail == lead + t;
    assert StripLeft(lead + t, '_') == t by {
      if lead == "" { assert lead + t == t; } else { assert (lead + t)[0] == '_' && (lead + t)[1..] == t; }
    }
    if trail == "" { assert t == s; } else { assert t[|t| - 1] == '_' && t[..|t| - 1] == s; }
    assert StripRight(s, '_') == s;
  }

  lemma {:induction false} WordsSkipFirst(s: string)
    requires s != [] && !Alphanumeric(s[0])
    ensures Words(s) == Words(s[1..])
  {
    if |s| == 1 {
    } else {
      var n := |s| - 1;
      WordsSkipFirst(s[..n]);
      assert s[..n][1..] == s[1..][..n - 1];
    }
  }

  lemma {:induction false} WordsStripLeft(s: string, c: char)
    requires !Alphanumeric(c)
    ensures Words(StripLeft(s, c)) == Words(s)
  {
    if s == [] || s[0] != c {
    } else {
      WordsSkipFirst(s);
      WordsStripLeft(s[1..], c);
    }
  }

  lemma {:induction false} WordsStripRight(s: string, c: char)
    requires !Alphanumeric(c)
    ensures Words(StripRight(s, c)) == Words(s)
  {
    if s == [] || s[|s| - 1] != c {
    } else {
      WordsStripRight(s[..|s| - 1], c);
    }
  }

  /** A name that is not valid becomes its words, in order, with exactly one underscore between
      two of them whatever stood there, and "volume" if it has none. */
  lemma ArchiveNameJoinsWords(volume: string)
    ensures var name := Trim(volume);
            name != "" && !IsArchiveName(name) ==>
              ArchiveName(volume) == if Words(name) == [] then "volume" else Joined(Words(name))
  {
    var name := Trim(volume);
    var s := Strip(name, '/');
    WordsStripLeft(name, '/');
    WordsStripRight(StripLeft(name, '/'), '/');
    SqueezedIsJoined(s);
    WordsAreWords(s);
    if Words(s) != [] { JoinedEnds(Words(s)); }
    StripAround(Lead(s), Joined(Words(s)), Trail(s));
  }

  // ---------------------------------------------------------------- sizes

  newtype Int64 = x: int | -0x8000_0000_0000_0000 <= x < 0x8000_0000_0000_0000

  function Power(n: nat): (p: nat)
    ensures p >= 1
  {
    if n == 0 then 1 else 1024 * Power(n - 1)
  }

  lemma SeventhPowerIsLarge(n: nat)
    ensures n >= 7 ==> Power(n) > 0x7FFF_FFFF_FFFF_FFFF
  {
    assert Power(1) == 1024 && Power(2) == 0x10_0000 && Power(3) == 0x4000_0000;
    assert Power(4) == 0x100_0000_0000 && Power(5) == 0x4_0000_0000_0000 && Power(6) == 0x1000_0000_0000_0000;
    if n > 7 { SeventhPowerIsLarge(n - 1); }
  }

  lemma TimesMonotone(a: int, b: int, d: nat)
    requires a <= b
    ensures a * d <= b * d
  {
    assert 0 <= (b - a) * d;
  }

  /** `q` is the quotient of `b` by `d`. */
  predicate Quotient(b: int, d: int, q: int) {
    q * d <= b < (q + 1) * d
  }

  lemma DivideAgain(b: int, d: nat, q: nat)
    requires Quotient(b, d, q)
    ensures Quotient(b, d * 1024, q / 1024)
  {
    var k := q / 1024;
    TimesMonotone(k * 1024, q, d);
    TimesMonotone(q + 1, (k + 1) * 1024, d);
    assert k * (d * 1024) == k * 1024 * d && (k + 1) * (d * 1024) == (k + 1) * 1024 * d;
  }

  lemma QuotientIsDivision(b: int, d: nat, q: nat)
    requires d > 0 && Quotient(b, d, q)
    ensures b / d == q
  {
    var k := b / d;
    assert k * d <= b < (k + 1) * d;
    if k < q { TimesMonotone(k + 1, q, d); }
    if q < k { TimesMonotone(q + 1, k, d); }
  }

  /** The scaling loop in 64-bit arithmetic: every product fits, the divisor is the power of
      1024 that leaves a quotient from 1 to 1023, and the unit exists. */
  method SizeUnit(bytes: Int64) returns (div: Int64, exp: nat)
    requires bytes >= 1024
    ensures div as int == Power(exp + 1)
    ensures 1 <= bytes as int / Power(exp + 1) < 1024
    ensures exp <= 5 && exp < |"KMGTPE"|
  {
    div, exp := 1024, 0;
    var n := bytes / 1024;
    while n >= 1024
      invariant div as int == Power(exp + 1)
      invariant n >= 1 && Quotient(bytes as int, div as int, n as int)
      decreases n
    {
      ghost var d, q := div as int, n as int;
      TimesMonotone(1024, q, d);
      DivideAgain(bytes as int, d, q);
      div := div * 1024;
      exp := exp + 1;
      n := n / 1024;
    }
    SeventhPowerIsLarge(exp + 1);
    QuotientIsDivision(bytes as int, div as int, n as int);
  }
}
