/** Quoting a value for a POSIX shell, and the reader that takes it back: the quoting rules of
    sections 2.2.2 and 2.2.3 of the POSIX.1-2017 Shell Command Language, blanks between words
    and newlines between commands. Text in which another character is active is not read. */
module Shell {
  import opened Options

  const NUL: char := '\0'

  // ---------------------------------------------------------------- quoting

  /** Every single quote becomes: close, a double-quoted quote, open. */
  function Escape(s: string): string {
    if s == [] then [] else (if s[0] == '\'' then "'\"'\"'" else [s[0]]) + Escape(s[1..])
  }

  function Quote(s: string): string {
    "'" + Escape(s) + "'"
  }

  // ---------------------------------------------------------------- reading

  datatype Mode = Unquoted | Single | Double

  /** What was read so far: the word at hand, the words of the command at hand, and the
      commands before it. */
  datatype Reader = Reader(mode: Mode, word: Option<string>, words: seq<string>, commands: seq<seq<string>>)

  /** Characters that have to be quoted, always or in some places (section 2.2). */
  predicate Active(c: char) {
    || c in "|&;<>()$`\\" || c in "*?[#~=%" || c == NUL
  }

  predicate Blank(c: char) {
    c == ' ' || c == '\t'
  }

  function Add(r: Reader, c: char): Reader {
    r.(word := Some((if r.word.Some? then r.word.value else "") + [c]))
  }

  /** An opening quote starts a word even if nothing follows in it. */
  function Open(r: Reader, mode: Mode): Reader {
    r.(mode := mode, word := Some(if r.word.Some? then r.word.value else ""))
  }

  function EndWord(r: Reader): Reader {
    if r.word.Some? then r.(word := None, words := r.words + [r.word.value]) else r
  }

  function EndCommand(r: Reader): Reader {
    var e := EndWord(r);
    if e.words == [] then e else e.(words := [], commands := e.commands + [e.words])
  }

  function Step(r: Reader, c: char): Option<Reader> {
    if c == NUL then None
    else match r.mode
      case Single => Some(if c == '\'' then r.(mode := Unquoted) else Add(r, c))
      case Double =>
        if c == '"' then Some(r.(mode := Unquoted))
        else if c == '$' || c == '`' || c == '\\' then None
        else Some(Add(r, c))
      case Unquoted =>
        if c == '\'' then Some(Open(r, Single))
        else if c == '"' then Some(Open(r, Double))
        else if Blank(c) then Some(EndWord(r))
        else if c == '\n' then Some(EndCommand(r))
        else if Active(c) then None
        else Some(Add(r, c))
  }

  function Feed(r: Reader, s: string): Option<Reader>
    decreases |s|
  {
    if s == [] then Some(r)
    else
      var next := Step(r, s[0]);
      if next.None? then None else Feed(next.value, s[1..])
  }

  const START := Reader(Unquoted, None, [], [])

  /** The commands of a text, each a list of words. */
  function Commands(s: string): Option<seq<seq<string>>> {
    var r := Feed(START, s);
    if r.None? || r.value.mode != Unquoted then None else Some(EndCommand(r.value).commands)
  }

  // ---------------------------------------------------------------- command lines

  datatype Arg = Plain(text: string) | Quoted(text: string)

  function Values(args: seq<Arg>): seq<string> {
    seq(|args|, i requires 0 <= i < |args| => args[i].text)
  }

  function Written(a: Arg): string {
    if a.Plain? then a.text else Quote(a.text)
  }

  /** Arguments as written, each after the first preceded by a blank. */
  function Line(args: seq<Arg>): string {
    if args == [] then ""
    else if |args| == 1 then Written(args[0])
    else Line(args[..|args| - 1]) + " " + Written(args[|args| - 1])
  }

  /** A character that stands for itself wherever it is written. */
  predicate Ordinary(c: char) {
    'a' <= c <= 'z' || 'A' <= c <= 'Z' || '-' <= c <= '9' || c == '_'
  }

  predicate IsPlain(s: string) {
    s != [] && forall i :: 0 <= i < |s| ==> Ordinary(s[i])
  }

  predicate Writable(a: Arg) {
    if a.Plain? then IsPlain(a.text) else NUL !in a.text
  }

  // ---------------------------------------------------------------- results

  lemma {:induction false} FeedConcat(r: Reader, a: string, b: string)
    ensures Feed(r, a + b) == var m := Feed(r, a); if m.None? then None else Feed(m.value, b)
    decreases |a|
  {
    if a == [] {
      assert a + b == b;
    } else {
      assert (a + b)[0] == a[0] && (a + b)[1..] == a[1..] + b;
      var next := Step(r, a[0]);
      if next.Some? { FeedConcat(next.value, a[1..], b); }
    }
  }

  function Extended(r: Reader, s: string): Reader {
    r.(word := Some((if r.word.Some? then r.word.value else "") + s))
  }

  /** Inside single quotes, an escaped text is read as the text. */
  lemma {:induction false} EscapeFeeds(r: Reader, s: string)
    requires r.mode == Single && r.word.Some? && NUL !in s
    ensures Feed(r, Escape(s)) == Some(Extended(r, s))
    decreases |s|
  {
    if s == [] {
      assert r.word.value + s == r.word.value;
    } else {
      var head := if s[0] == '\'' then "'\"'\"'" else [s[0]];
      FeedConcat(r, head, Escape(s[1..]));
      HeadFeeds(r, s[0]);
      EscapeFeeds(Add(r, s[0]), s[1..]);
      assert r.word.value + [s[0]] + s[1..] == r.word.value + s;
    }
  }

  lemma HeadFeeds(r: Reader, c: char)
    requires r.mode == Single && r.word.Some? && c != NUL
    ensures Feed(r, if c == '\'' then "'\"'\"'" else [c]) == Some(Add(r, c))
  {
    if c == '\'' {
      var t := "'\"'\"'";
      var r1 := r.(mode := Unquoted);
      var r2 := r.(mode := Double);
      var r3 := Add(r2, '\'');
      var r4 := r3.(mode := Unquoted);
      assert Step(r, t[0]) == Some(r1) && Step(r1, t[1]) == Some(r2) && Step(r2, t[2]) == Some(r3);
      assert Step(r3, t[3]) == Some(r4) && Step(r4, t[4]) == Some(Add(r, '\''));
      FiveSteps(r, t, r1, r2, r3, r4, Add(r, '\''));
    } else {
      assert [c][1..] == [];
    }
  }

  lemma FiveSteps(r: Reader, t: string, r1: Reader, r2: Reader, r3: Reader, r4: Reader, r5: Reader)
    requires |t| == 5 && Step(r, t[0]) == Some(r1) && Step(r1, t[1]) == Some(r2) && Step(r2, t[2]) == Some(r3)
    requires Step(r3, t[3]) == Some(r4) && Step(r4, t[4]) == Some(r5)
    ensures Feed(r, t) == Some(r5)
  {
    assert t[4..][1..] == [] && t[3..][1..] == t[4..] && t[2..][1..] == t[3..] && t[1..][1..] == t[2..];
    assert Feed(r4, t[4..]) == Some(r5);
    assert Feed(r3, t[3..]) == Some(r5);
    assert Feed(r2, t[2..]) == Some(r5);
    assert Feed(r1, t[1..]) == Some(r5);
  }

  lemma QuoteFeeds(r: Reader, s: string)
    requires r.mode == Unquoted && NUL !in s
    ensures Feed(r, Quote(s)) == Some(Extended(r, s))
  {
    var inside := Open(r, Single);
    FeedConcat(r, "'", Escape(s) + "'");
    assert "'" + (Escape(s) + "'") == Quote(s);
    assert "'"[1..] == [] && Feed(r, "'") == Some(inside);
    EscapeFeeds(inside, s);
    FeedConcat(inside, Escape(s), "'");
    var read := Extended(inside, s);
    assert Feed(read, "'") == Some(read.(mode := Unquoted));
  }

  lemma {:induction false} PlainFeeds(r: Reader, s: string)
    requires r.mode == Unquoted && r.word.Some? && forall i :: 0 <= i < |s| ==> Ordinary(s[i])
    ensures Feed(r, s) == Some(Extended(r, s))
    decreases |s|
  {
    if s == [] {
      assert r.word.value + s == r.word.value;
    } else {
      assert Step(r, s[0]) == Some(Add(r, s[0]));
      PlainFeeds(Add(r, s[0]), s[1..]);
      assert r.word.value + [s[0]] + s[1..] == r.word.value + s;
    }
  }

  lemma ArgFeeds(r: Reader, a: Arg)
    requires r.mode == Unquoted && r.word.None? && Writable(a)
    ensures Feed(r, Written(a)) == Some(r.(word := Some(a.text)))
  {
    if a.Plain? {
      var s := a.text;
      assert Step(r, s[0]) == Some(Add(r, s[0]));
      PlainFeeds(Add(r, s[0]), s[1..]);
      assert [] + [s[0]] + s[1..] == s;
    } else {
      QuoteFeeds(r, a.text);
      assert "" + a.text == a.text;
    }
  }

  /** Between commands. */
  predicate Fresh(r: Reader) {
    r.mode == Unquoted && r.word.None? && r.words == []
  }

  /** The reader at the end of a command line that has not been ended. */
  function AtEnd(r: Reader, args: seq<Arg>): Reader
    requires args != []
  {
    r.(word := Some(args[|args| - 1].text), words := Values(args[..|args| - 1]))
  }

  lemma OneMoreArg(r: Reader, init: seq<Arg>, a: Arg)
    requires Fresh(r) && init != [] && Writable(a)
    ensures Feed(AtEnd(r, init), " " + Written(a)) == Some(AtEnd(r, init + [a]))
  {
    var r1, r2 := AtEnd(r, init), r.(words := Values(init));
    assert Values(init) == Values(init[..|init| - 1]) + [init[|init| - 1].text];
    assert Feed(r1, " ") == Feed(r2, []) == Some(r2);
    FeedConcat(r1, " ", Written(a));
    ArgFeeds(r2, a);
    assert (init + [a])[..|init|] == init;
  }

  lemma {:induction false} LineFeeds(r: Reader, args: seq<Arg>)
    requires Fresh(r) && WritableLine(args)
    ensures Feed(r, Line(args)) == Some(AtEnd(r, args))
    decreases |args|
  {
    var n := |args| - 1;
    if n == 0 {
      ArgFeeds(r, args[0]);
      assert Values(args[..0]) == [];
    } else {
      LineFeeds(r, args[..n]);
      OneMoreArg(r, args[..n], args[n]);
      LineSnoc(r, args);
    }
  }

  lemma LineSnoc(r: Reader, args: seq<Arg>)
    requires |args| > 1 && Feed(r, Line(args[..|args| - 1])) == Some(AtEnd(r, args[..|args| - 1]))
    ensures Feed(r, Line(args)) == Feed(AtEnd(r, args[..|args| - 1]), " " + Written(args[|args| - 1]))
    ensures args[..|args| - 1] + [args[|args| - 1]] == args
  {
    var n := |args| - 1;
    FeedConcat(r, Line(args[..n]), " " + Written(args[n]));
    assert Line(args) == Line(args[..n]) + (" " + Written(args[n]));
  }

  /** Lines ended by newlines. */
  function Script(lines: seq<seq<Arg>>): string {
    if lines == [] then "" else Script(lines[..|lines| - 1]) + Line(lines[|lines| - 1]) + "\n"
  }

  predicate WritableLine(args: seq<Arg>) {
    args != [] && forall i :: 0 <= i < |args| ==> Writable(args[i])
  }

  function AllValues(lines: seq<seq<Arg>>): seq<seq<string>> {
    seq(|lines|, i requires 0 <= i < |lines| => Values(lines[i]))
  }

  lemma LineEnds(r: Reader, last: seq<Arg>)
    requires Fresh(r) && last != []
    ensures Feed(AtEnd(r, last), "\n") == Some(r.(commands := r.commands + [Values(last)]))
  {
    var k := |last| - 1;
    assert Values(last) == Values(last[..k]) + [last[k].text];
    var done := r.(commands := r.commands + [Values(last)]);
    assert Step(AtEnd(r, last), '\n') == Some(done);
    assert Feed(AtEnd(r, last), "\n") == Feed(done, []);
  }

  lemma OneMoreLine(r: Reader, last: seq<Arg>)
    requires Fresh(r) && WritableLine(last)
    ensures Feed(r, Line(last) + "\n") == Some(r.(commands := r.commands + [Values(last)]))
  {
    LineFeeds(r, last);
    LineEnds(r, last);
    FeedConcat(r, Line(last), "\n");
  }

  predicate WritableLines(lines: seq<seq<Arg>>) {
    forall i :: 0 <= i < |lines| ==> WritableLine(lines[i])
  }

  lemma {:induction false} ScriptFeeds(r: Reader, lines: seq<seq<Arg>>)
    requires Fresh(r) && WritableLines(lines)
    ensures Feed(r, Script(lines)) == Some(r.(commands := r.commands + AllValues(lines)))
    decreases |lines|
  {
    if lines == [] {
      assert r.commands + AllValues(lines) == r.commands;
    } else {
      var n := |lines| - 1;
      ScriptFeeds(r, lines[..n]);
      OneMoreLine(r.(commands := r.commands + AllValues(lines[..n])), lines[n]);
      ScriptSnoc(r, lines);
      ValuesSnoc(lines);
      assert r.commands + AllValues(lines[..n]) + [Values(lines[n])] == r.commands + AllValues(lines);
    }
  }

  lemma ScriptSnoc(r: Reader, lines: seq<seq<Arg>>)
    requires lines != [] && Feed(r, Script(lines[..|lines| - 1])).Some?
    ensures Feed(r, Script(lines)) == Feed(Feed(r, Script(lines[..|lines| - 1])).value, Line(lines[|lines| - 1]) + "\n")
  {
    var n := |lines| - 1;
    FeedConcat(r, Script(lines[..n]), Line(lines[n]) + "\n");
    assert Script(lines) == Script(lines[..n]) + (Line(lines[n]) + "\n");
  }

  lemma ValuesSnoc(lines: seq<seq<Arg>>)
    requires lines != []
    ensures AllValues(lines) == AllValues(lines[..|lines| - 1]) + [Values(lines[|lines| - 1])]
  {
  }

  /** A quoted value is one word equal to the value, exactly when it has no NUL. */
  lemma QuotedIsOneWord(s: string)
    ensures Commands(Quote(s)) == Some([[s]]) <==> NUL !in s
  {
    if NUL !in s {
      QuoteFeeds(START, s);
      assert "" + s == s;
      assert [] + [s] == [s] && [] + [[s]] == [[s]];
    } else {
      NulIsKept(s);
      NulIsRefused(START, Quote(s));
    }
  }

  lemma {:induction false} NulIsKept(s: string)
    requires NUL in s
    ensures NUL in Escape(s)
  {
    if s[0] == NUL { assert Escape(s)[0] == NUL; } else { NulIsKept(s[1..]); }
  }

  lemma {:induction false} NulIsRefused(r: Reader, s: string)
    requires NUL in s
    ensures Feed(r, s) == None
    decreases |s|
  {
    if s[0] != NUL {
      var next := Step(r, s[0]);
      if next.Some? { NulIsRefused(next.value, s[1..]); }
    }
  }

  // ---------------------------------------------------------------- the install command

  /** The words before the identifiers of a mesh reconciliation. */
  function ReconcileLine(cluster: string, node: string, exclude: string): seq<Arg> {
    [Plain("sudo"), Plain("/usr/local/bin/tako"), Plain("platform"), Plain("worker"), Plain("reconcile-mesh"),
     Plain("--cluster-id"), Quoted(cluster), Plain("--node-id"), Quoted(node)]
    + if exclude == "" then [] else [Plain("--exclude-node-id"), Quoted(exclude)]
  }

  function InstallLine(temp: string): seq<Arg> {
    [Plain("install"), Plain("-o"), Plain("root"), Plain("-g"), Plain("root"), Plain("-m"), Plain("0644"),
     Quoted(temp), Plain("/etc/tako/cluster-inventory.json")]
  }

  const RESTART_LINE := [Plain("systemctl"), Plain("restart"), Plain("takod.service")]

  function InstallScript(prologue: string, temp: string, cluster: string, node: string, exclude: string): string {
    prologue + Script(InstallLines(temp, cluster, node, exclude))
  }

  function InstallCommand(prologue: string, temp: string, cluster: string, node: string, exclude: string): string {
    Line([Plain("sudo"), Plain("sh"), Plain("-c"), Quoted(InstallScript(prologue, temp, cluster, node, exclude))])
  }

  lemma SudoWordsArePlain()
    ensures IsPlain("sudo") && IsPlain("sh") && IsPlain("-c") && IsPlain("/usr/local/bin/tako") && IsPlain("platform")
    ensures IsPlain("worker") && IsPlain("reconcile-mesh")
  {
  }

  lemma FlagsArePlain()
    ensures IsPlain("--cluster-id") && IsPlain("--node-id") && IsPlain("--exclude-node-id")
    ensures IsPlain("-o") && IsPlain("-g") && IsPlain("-m") && IsPlain("0644")
  {
  }

  lemma InstallWordsArePlain()
    ensures IsPlain("install") && IsPlain("root") && IsPlain("/etc/tako/cluster-inventory.json")
    ensures IsPlain("systemctl") && IsPlain("restart") && IsPlain("takod.service")
  {
  }

  /** A script of writable lines is read as its commands, and it has no NUL. */
  lemma ScriptIsExact(lines: seq<seq<Arg>>)
    requires WritableLines(lines)
    ensures Commands(Script(lines)) == Some(AllValues(lines)) && NUL !in Script(lines)
  {
    ScriptFeeds(START, lines);
    assert [] + AllValues(lines) == AllValues(lines);
    if NUL in Script(lines) { NulIsRefused(START, Script(lines)); }
  }

  lemma LineIsExact(args: seq<Arg>)
    requires WritableLine(args)
    ensures Commands(Line(args)) == Some([Values(args)])
  {
    LineFeeds(START, args);
    var n := |args| - 1;
    assert Values(args[..n]) + [args[n].text] == Values(args);
    assert [] + [Values(args)] == [Values(args)];
  }

  function InstallLines(temp: string, cluster: string, node: string, exclude: string): seq<seq<Arg>> {
    [InstallLine(temp), ReconcileLine(cluster, node, exclude), RESTART_LINE]
  }

  lemma InstallLinesWritable(temp: string, cluster: string, node: string, exclude: string)
    requires NUL !in temp && NUL !in cluster && NUL !in node && NUL !in exclude
    ensures WritableLines(InstallLines(temp, cluster, node, exclude))
  {
    SudoWordsArePlain();
    FlagsArePlain();
    InstallWordsArePlain();
  }

  lemma OuterIsExact(script: string)
    requires NUL !in script
    ensures Commands(Line([Plain("sudo"), Plain("sh"), Plain("-c"), Quoted(script)])) == Some([["sudo", "sh", "-c", script]])
  {
    var args := [Plain("sudo"), Plain("sh"), Plain("-c"), Quoted(script)];
    SudoWordsArePlain();
    LineIsExact(args);
    assert Values(args) == ["sudo", "sh", "-c", script];
  }

  /** Through both shells. The outer shell hands the script over unchanged, and the inner
      shell, having read the prologue up to the start of a command, reads exactly the three
      commands, with the path and the identifiers as single words. */
  lemma NestedQuotingIsExact(prologue: string, temp: string, cluster: string, node: string, exclude: string)
    requires NUL !in prologue && NUL !in temp && NUL !in cluster && NUL !in node && NUL !in exclude
    ensures Commands(InstallCommand(prologue, temp, cluster, node, exclude))
         == Some([["sudo", "sh", "-c", InstallScript(prologue, temp, cluster, node, exclude)]])
    ensures prologue <= InstallScript(prologue, temp, cluster, node, exclude)
    ensures Commands(InstallScript(prologue, temp, cluster, node, exclude)[|prologue|..])
         == Some([["install", "-o", "root", "-g", "root", "-m", "0644", temp, "/etc/tako/cluster-inventory.json"],
                  ["sudo", "/usr/local/bin/tako", "platform", "worker", "reconcile-mesh", "--cluster-id", cluster, "--node-id", node]
                  + if exclude == "" then [] else ["--exclude-node-id", exclude],
                  ["systemctl", "restart", "takod.service"]])
  {
    var lines := InstallLines(temp, cluster, node, exclude);
    InstallLinesWritable(temp, cluster, node, exclude);
    ScriptIsExact(lines);
    assert InstallScript(prologue, temp, cluster, node, exclude)[|prologue|..] == Script(lines);
    OuterIsExact(InstallScript(prologue, temp, cluster, node, exclude));
    InstallValues(temp, cluster, node, exclude);
  }

  lemma InstallValues(temp: string, cluster: string, node: string, exclude: string)
    ensures AllValues(InstallLines(temp, cluster, node, exclude))
         == [["install", "-o", "root", "-g", "root", "-m", "0644", temp, "/etc/tako/cluster-inventory.json"],
             ["sudo", "/usr/local/bin/tako", "platform", "worker", "reconcile-mesh", "--cluster-id", cluster, "--node-id", node]
             + if exclude == "" then [] else ["--exclude-node-id", exclude],
             ["systemctl", "restart", "takod.service"]]
  {
    assert Values(InstallLine(temp)) == ["install", "-o", "root", "-g", "root", "-m", "0644", temp, "/etc/tako/cluster-inventory.json"];
    assert Values(ReconcileLine(cluster, node, exclude))
        == ["sudo", "/usr/local/bin/tako", "platform", "worker", "reconcile-mesh", "--cluster-id", cluster, "--node-id", node]
           + if exclude == "" then [] else ["--exclude-node-id", exclude];
    assert Values(RESTART_LINE) == ["systemctl", "restart", "takod.service"];
  }
}
