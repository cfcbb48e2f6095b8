/** Which servers a service may be placed on: the strategy, the label constraints, and the
    servers that take new work. */
module Placement {
  import opened Counting
  import opened Options
  import opened Text

  datatype Placement = Placement(strategy: string, servers: seq<string>, constraints: seq<string>, preferences: seq<string>)

  datatype Server = Server(labels: map<string, string>, lifecycle: string)

  datatype Problem =
    | NoTargets | ServersNeedPinned | PinnedNeedsServers | UnknownStrategy | PreferencesUnsupported
    | Repeated(name: string) | Outside(name: string) | Undefined(name: string)
    | BadConstraint | NoMatch | NotSchedulable(name: string) | NoneSchedulable

  datatype Result = Ok(targets: seq<string>) | Err(problem: Problem)

  // ---------------------------------------------------------------- constraints

  /** The parts between occurrences of "==", found from the left. */
  function SplitEquals(s: string): (parts: seq<string>)
    ensures parts != []
  {
    if s == [] then [[]]
    else if |s| >= 2 && s[0] == '=' && s[1] == '=' then [[]] + SplitEquals(s[2..])
    else
      var rest := SplitEquals(s[1..]);
      [[s[0]] + rest[0]] + rest[1..]
  }

  function Unquoted(v: string): string {
    if |v| >= 2 && v[0] == v[|v| - 1] && (v[0] == '\'' || v[0] == '"') then v[1..|v| - 1] else v
  }

  predicate HasControl(s: string) {
    exists i :: 0 <= i < |s| && (s[i] as int < 32 || s[i] as int == 127)
  }

  const LABEL_PREFIX := "node.labels."

  datatype Constraint = Constraint(key: string, value: string)

  function ParseConstraint(text: string): Option<Constraint> {
    var parts := SplitEquals(Trim(text));
    if Trim(text) == "" || |parts| != 2 then None
    else
      var left, value := Trim(parts[0]), Unquoted(Trim(parts[1]));
      if !(LABEL_PREFIX <= left) then None
      else
        var key := Trim(left[|LABEL_PREFIX|..]);
        if key == "" || value == "" || HasControl(key) || HasControl(value) then None
        else Some(Constraint(key, value))
  }

  function Label(s: Server, key: string): string {
    if key in s.labels then s.labels[key] else ""
  }

  predicate Satisfies(s: Server, text: string) {
    var c := ParseConstraint(text);
    c.Some? && Label(s, c.value.key) == c.value.value
  }

  /** The server meets every constraint, so every constraint can be read. */
  predicate Meets(s: Server, constraints: seq<string>) {
    forall i :: 0 <= i < |constraints| ==> Satisfies(s, constraints[i])
  }

  /** Stops at the first constraint that cannot be read or does not match. */
  method ServerMatches(s: Server, constraints: seq<string>) returns (matches: Option<bool>)
    ensures matches == Some(true) <==> Meets(s, constraints)
    ensures matches.None? ==> exists i :: 0 <= i < |constraints| && ParseConstraint(constraints[i]).None?
                                       && Meets(s, constraints[..i])
  {
    var i := 0;
    while i < |constraints|
      invariant 0 <= i <= |constraints| && Meets(s, constraints[..i])
    {
      var c := ParseConstraint(constraints[i]);
      if c.None? {
        assert !Satisfies(s, constraints[i]);
        return None;
      }
      if Label(s, c.value.key) != c.value.value {
        assert !Satisfies(s, constraints[i]);
        return Some(false);
      }
      i := i + 1;
    }
    assert constraints[..i] == constraints;
    matches := Some(true);
  }

  /** No two equals signs in a row. */
  predicate NoDouble(s: string) {
    forall i :: 0 < i < |s| ==> !(s[i - 1] == '=' && s[i] == '=')
  }

  lemma {:induction false} SplitWhole(s: string)
    ensures SplitEquals(s) == [s] <==> NoDouble(s)
  {
    if s == [] {
    } else if |s| >= 2 && s[0] == '=' && s[1] == '=' {
      assert SplitEquals(s)[0] == [];
    } else {
      SplitWhole(s[1..]);
      TailNoDouble(s);
      var rest := SplitEquals(s[1..]);
      if rest == [s[1..]] { assert [s[0]] + s[1..] == s; }
      if SplitEquals(s) == [s] { assert rest[0] == s[1..] && rest == [s[1..]]; }
    }
  }

  lemma TailNoDouble(s: string)
    requires s != []
    ensures NoDouble(s) <==> NoDouble(s[1..]) && !(|s| >= 2 && s[0] == '=' && s[1] == '=')
  {
    if NoDouble(s) {
      forall i | 0 < i < |s[1..]| ensures !(s[1..][i - 1] == '=' && s[1..][i] == '=') { assert s[i + 1] == s[1..][i] && s[i] == s[1..][i - 1]; }
    }
    if NoDouble(s[1..]) && !(|s| >= 2 && s[0] == '=' && s[1] == '=') {
      forall i | 0 < i < |s| ensures !(s[i - 1] == '=' && s[i] == '=') {
        if i > 1 { assert s[i] == s[1..][i - 1] && s[i - 1] == s[1..][i - 2]; }
      }
    }
  }

  /** The first "==" is where the left part ends, and the right part has none. */
  lemma {:induction false} SplitOnce(l: string, r: string)
    requires NoDouble(l + "=") && NoDouble(r)
    ensures SplitEquals(l + "==" + r) == [l, r]
  {
    var s := l + "==" + r;
    if l == [] {
      assert s[0] == '=' && s[1] == '=' && s[2..] == r;
      SplitWhole(r);
    } else {
      assert s[0] == l[0] && s[1..] == l[1..] + "==" + r;
      assert (l + "=")[0] == l[0] && (l + "=")[1..] == l[1..] + "=";
      TailNoDouble(l + "=");
      assert s[1] == (l + "=")[1];
      SplitOnce(l[1..], r);
      assert [l[0]] + l[1..] == l;
    }
  }

  /** A key or value that a constraint can carry: not blank at its ends, printable. */
  predicate Clean(s: string) {
    s != "" && Tight(s) && Printable(s)
  }

  predicate Printable(s: string) {
    forall c :: c in s ==> 32 <= c as int != 127
  }

  lemma PrintableHasNoControl(s: string)
    ensures Printable(s) <==> !HasControl(s)
  {
    if !HasControl(s) {
      forall c | c in s ensures 32 <= c as int != 127 {
        var i :| 0 <= i < |s| && s[i] == c;
      }
    } else {
      var i :| 0 <= i < |s| && (s[i] as int < 32 || s[i] as int == 127);
      assert s[i] in s;
    }
  }

  /** A value as written: bare, or between two quotes of one kind. */
  predicate Writes(w: string, v: string) {
    || (w == v && Tight(v) && !(|v| >= 2 && v[0] == v[|v| - 1] && (v[0] == '\'' || v[0] == '"')))
    || w == "'" + v + "'" || w == "\"" + v + "\""
  }

  lemma WrittenIsRead(w: string, v: string)
    requires Writes(w, v) && v != ""
    ensures w != "" && Tight(w) && Unquoted(w) == v
  {
    if |w| == |v| + 2 { assert w[1..|w| - 1] == v; }
  }

  /** A label constraint says what it looks like: with the key and the value in place, quoted
      or not, and blanks around the sign, a server meets it exactly when it has the label with
      that value. */
  lemma ConstraintMeans(k: string, v: string, w: string, a: string, b: string, s: Server)
    requires Clean(k) && v != "" && Printable(v) && Writes(w, v) && Blank(a) && Blank(b)
    requires NoDouble("node.labels." + k + a + "=") && NoDouble(b + w)
    ensures var text := "node.labels." + k + a + "==" + b + w;
            && ParseConstraint(text) == Some(Constraint(k, v))
            && (Satisfies(s, text) <==> k in s.labels && s.labels[k] == v)
  {
    var left := "node.labels." + k;
    LabelIsTight(k);
    WrittenIsRead(w, v);
    PartsOf(left, a, b, w);
    ReadFrom(left + a + "==" + b + w, left + a, b + w, k, v);
  }

  lemma LabelIsTight(k: string)
    requires Clean(k)
    ensures "node.labels." + k != "" && Tight("node.labels." + k)
  {
    var left := "node.labels." + k;
    assert left[0] == 'n' && left[|left| - 1] == k[|k| - 1];
  }

  /** The two sides of the sign, and what is left of them without blanks. */
  lemma PartsOf(left: string, a: string, b: string, w: string)
    requires left != "" && Tight(left) && w != "" && Tight(w) && Blank(a) && Blank(b)
    requires NoDouble(left + a + "=") && NoDouble(b + w)
    ensures var text := left + a + "==" + b + w; Trim(text) != "" && SplitEquals(Trim(text)) == [left + a, b + w]
    ensures Trim(left + a) == left && Trim(b + w) == w
  {
    Regrouped(left, a, b, w);
    PartsAre(left + a, b + w);
    TrimAround("", left, a);
    assert "" + left + a == left + a;
    TrimAround(b, w, "");
    assert b + w + "" == b + w;
  }

  lemma Regrouped(left: string, a: string, b: string, w: string)
    requires left != "" && w != ""
    ensures left + a + "==" + b + w == (left + a) + "==" + (b + w)
    ensures var s := left + a + "==" + b + w; s != "" && s[0] == left[0] && s[|s| - 1] == w[|w| - 1]
  {
  }

  lemma PartsAre(l: string, r: string)
    requires NoDouble(l + "=") && NoDouble(r) && Tight(l + "==" + r)
    ensures Trim(l + "==" + r) != "" && SplitEquals(Trim(l + "==" + r)) == [l, r]
  {
    TrimIsTight(l + "==" + r);
    SplitOnce(l, r);
  }

  lemma ReadFrom(text: string, l: string, r: string, k: string, v: string)
    requires Trim(text) != "" && SplitEquals(Trim(text)) == [l, r]
    requires Trim(l) == "node.labels." + k && Clean(k) && Unquoted(Trim(r)) == v && v != "" && Printable(v)
    ensures ParseConstraint(text) == Some(Constraint(k, v))
  {
    PrintableHasNoControl(k);
    PrintableHasNoControl(v);
    assert Trim(l)[|LABEL_PREFIX|..] == k;
    TrimIsTight(k);
  }

  /** Nothing else is read as a constraint: a text that gives a key and a value has the sign
      once, the label prefix before it and both of them clean. */
  lemma ConstraintOnly(text: string)
    requires ParseConstraint(text).Some?
    ensures var c := ParseConstraint(text).value;
            && Clean(c.key) && c.value != "" && Printable(c.value)
            && exists l, r :: Trim(text) == l + "==" + r && "node.labels." <= Trim(l) && Trim(Trim(l)[12..]) == c.key && Unquoted(Trim(r)) == c.value
  {
    var parts, c := SplitEquals(Trim(text)), ParseConstraint(text).value;
    PrintableHasNoControl(c.key);
    PrintableHasNoControl(c.value);
    SplitJoins(Trim(text));
    assert parts == [parts[0], parts[1]];
    TrimIsTight(Trim(parts[0])[12..]);
    assert Trim(text) == parts[0] + "==" + parts[1];
  }

  function JoinEquals(parts: seq<string>): string
    requires parts != []
  {
    if |parts| == 1 then parts[0] else parts[0] + "==" + JoinEquals(parts[1..])
  }

  lemma Associates(x: string, a: string, b: string, c: string)
    ensures x + a + b + c == x + (a + b + c)
  {
  }

  lemma JoinFirst(x: string, parts: seq<string>)
    requires parts != []
    ensures JoinEquals([x + parts[0]] + parts[1..]) == x + JoinEquals(parts)
  {
    var longer := [x + parts[0]] + parts[1..];
    assert longer[0] == x + parts[0] && longer[1..] == parts[1..];
    if |parts| == 1 {
      assert |longer| == 1;
    } else {
      Associates(x, parts[0], "==", JoinEquals(parts[1..]));
    }
  }

  lemma {:induction false} SplitJoins(s: string)
    ensures JoinEquals(SplitEquals(s)) == s
  {
    if s == [] {
    } else if |s| >= 2 && s[0] == '=' && s[1] == '=' {
      SplitJoins(s[2..]);
      assert ([[]] + SplitEquals(s[2..]))[1..] == SplitEquals(s[2..]);
      assert s == "==" + s[2..];
    } else {
      SplitJoins(s[1..]);
      JoinFirst([s[0]], SplitEquals(s[1..]));
      assert s == [s[0]] + s[1..];
    }
  }

  // ---------------------------------------------------------------- the configuration

  function StrategyProblem(p: Placement): Option<Problem> {
    var strategy := Trim(p.strategy);
    if strategy == "" || strategy == "spread" || strategy == "any" || strategy == "global" then
      if |p.servers| > 0 then Some(ServersNeedPinned)
      else if |p.preferences| > 0 then Some(PreferencesUnsupported) else None
    else if strategy == "pinned" then
      if p.servers == [] then Some(PinnedNeedsServers)
      else if |p.preferences| > 0 then Some(PreferencesUnsupported) else None
    else Some(UnknownStrategy)
  }

  /** The default strategies take no server list, pinning needs one, and none takes preferences. */
  lemma StrategyAccepted(p: Placement)
    ensures StrategyProblem(p).None? <==>
      && p.preferences == []
      && (if Trim(p.strategy) == "pinned" then p.servers != []
          else Trim(p.strategy) in ["", "spread", "any", "global"] && p.servers == [])
  {
  }

  predicate Readable(constraints: seq<string>) {
    forall i :: 0 <= i < |constraints| ==> ParseConstraint(constraints[i]).Some?
  }

  predicate ConfigAccepted(p: Option<Placement>) {
    p.Some? ==> StrategyProblem(p.value).None? && Readable(p.value.constraints)
  }

  method CheckConstraints(constraints: seq<string>) returns (ok: bool)
    ensures ok <==> Readable(constraints)
  {
    var i := 0;
    while i < |constraints|
      invariant 0 <= i <= |constraints| && forall j :: 0 <= j < i ==> ParseConstraint(constraints[j]).Some?
    {
      var c := ParseConstraint(constraints[i]);
      if c.None? { return false; }
      i := i + 1;
    }
    ok := true;
  }

  /** The stand-alone validator: it reads every constraint. */
  method ValidatePlacementConfig(p: Option<Placement>) returns (problem: Option<Problem>)
    ensures problem.None? <==> ConfigAccepted(p)
    ensures problem.None? && p.Some? ==>
              StrategyProblem(p.value).None? && forall i :: 0 <= i < |p.value.constraints| ==> ParseConstraint(p.value.constraints[i]).Some?
    ensures problem.Some? ==> p.Some? && (problem == StrategyProblem(p.value) || problem == Some(BadConstraint))
  {
    if p.None? { return None; }
    problem := StrategyProblem(p.value);
    if problem.Some? { return; }
    var readable := CheckConstraints(p.value.constraints);
    if !readable { problem := Some(BadConstraint); }
  }

  // ---------------------------------------------------------------- targets

  function ProblemAt(targets: seq<string>, i: nat, servers: map<string, Server>, environment: seq<string>): Option<Problem>
    requires i < |targets|
  {
    var t := targets[i];
    if t in targets[..i] then Some(Repeated(t))
    else if t !in environment then Some(Outside(t))
    else if t !in servers then Some(Undefined(t))
    else None
  }

  predicate TargetsValid(targets: seq<string>, servers: map<string, Server>, environment: seq<string>) {
    forall i :: 0 <= i < |targets| ==> ProblemAt(targets, i, servers, environment).None?
  }

  /** Reports the first target that is repeated, outside the environment or not defined. */
  method ValidateTargets(targets: seq<string>, servers: map<string, Server>, environment: seq<string>) returns (problem: Option<Problem>)
    ensures problem.None? <==> TargetsValid(targets, servers, environment)
    ensures problem.Some? ==>
              exists i :: 0 <= i < |targets| && ProblemAt(targets, i, servers, environment) == problem
                       && forall j :: 0 <= j < i ==> ProblemAt(targets, j, servers, environment).None?
  {
    var allowed := set e | e in environment;
    var seen: set<string> := {};
    var i := 0;
    while i < |targets|
      invariant 0 <= i <= |targets|
      invariant seen == set t | t in targets[..i]
      invariant forall j :: 0 <= j < i ==> ProblemAt(targets, j, servers, environment).None?
    {
      var t := targets[i];
      ghost var here := ProblemAt(targets, i, servers, environment);
      if t in seen { assert here == Some(Repeated(t)); return Some(Repeated(t)); }
      seen := seen + {t};
      if t !in allowed { assert here == Some(Outside(t)); return Some(Outside(t)); }
      if t !in servers { assert here == Some(Undefined(t)); return Some(Undefined(t)); }
      assert targets[..i + 1] == targets[..i] + [t];
      i := i + 1;
    }
    problem := None;
  }

  function Filter(ts: seq<string>, keep: string -> bool): seq<string> {
    if ts == [] then []
    else
      var last := ts[|ts| - 1];
      Filter(ts[..|ts| - 1], keep) + if keep(last) then [last] else []
  }

  /** The positions at which `r` was picked out of `ts`. */
  ghost predicate PickedAt(ts: seq<string>, r: seq<string>, at: seq<nat>) {
    && |at| == |r|
    && (forall i :: 0 <= i < |at| ==> at[i] < |ts| && r[i] == ts[at[i]])
    && (forall i, j :: 0 <= i < j < |at| ==> at[i] < at[j])
  }

  /** Filtering keeps the order, and picks exactly the positions that are wanted. */
  lemma {:induction false} FilterPicks(ts: seq<string>, keep: string -> bool) returns (at: seq<nat>)
    ensures PickedAt(ts, Filter(ts, keep), at)
    ensures forall j :: 0 <= j < |ts| ==> (keep(ts[j]) <==> j in at)
  {
    if ts == [] {
      at := [];
    } else {
      var n := |ts| - 1;
      var before := FilterPicks(ts[..n], keep);
      at := if keep(ts[n]) then before + [n] else before;
      PickOneMore(ts, Filter(ts[..n], keep), before);
      forall j | 0 <= j < |ts| ensures keep(ts[j]) <==> j in at {
        if j < n { assert keep(ts[..n][j]) <==> j in before; }
      }
    }
  }

  lemma PickOneMore(ts: seq<string>, r: seq<string>, at: seq<nat>)
    requires ts != [] && PickedAt(ts[..|ts| - 1], r, at)
    ensures PickedAt(ts, r, at) && PickedAt(ts, r + [ts[|ts| - 1]], at + [|ts| - 1])
    ensures |ts| - 1 !in at
  {
    forall i | 0 <= i < |at| ensures ts[at[i]] == r[i] {
      assert ts[..|ts| - 1][at[i]] == r[i];
    }
  }

  lemma ValidTargetsAreDistinct(targets: seq<string>, servers: map<string, Server>, environment: seq<string>)
    ensures TargetsValid(targets, servers, environment) <==>
              Distinct(targets) && forall t :: t in targets ==> t in servers && t in environment
  {
    if TargetsValid(targets, servers, environment) {
      forall i, j | 0 <= i < j < |targets| ensures targets[i] != targets[j] {
        assert ProblemAt(targets, j, servers, environment).None?;
        assert targets[i] == targets[..j][i];
      }
      forall t | t in targets ensures t in servers && t in environment {
        var i :| 0 <= i < |targets| && targets[i] == t;
        assert ProblemAt(targets, i, servers, environment).None?;
      }
    }
  }

  lemma {:induction false} FilterMembers(ts: seq<string>, keep: string -> bool, t: string)
    ensures t in Filter(ts, keep) <==> t in ts && keep(t)
  {
    if ts == [] {
    } else {
      var n := |ts| - 1;
      assert ts == ts[..n] + [ts[n]];
      FilterMembers(ts[..n], keep, t);
    }
  }

  lemma FilterKeepsDistinct(ts: seq<string>, keep: string -> bool)
    requires Distinct(ts)
    ensures Distinct(Filter(ts, keep))
  {
    var at := FilterPicks(ts, keep);
    var r := Filter(ts, keep);
    forall i, j | 0 <= i < j < |r| ensures r[i] != r[j] {
      assert r[i] == ts[at[i]] && r[j] == ts[at[j]] && at[i] < at[j];
    }
  }

  // ---------------------------------------------------------------- resolving

  function Constraints(p: Option<Placement>): seq<string> {
    if p.Some? then p.value.constraints else []
  }

  predicate Pinned(p: Option<Placement>) {
    p.Some? && Trim(p.value.strategy) == "pinned"
  }

  function Targets(p: Option<Placement>, environment: seq<string>): seq<string> {
    if Pinned(p) then p.value.servers else environment
  }

  predicate Eligible(servers: map<string, Server>, t: string, constraints: seq<string>) {
    t in servers && Meets(servers[t], constraints)
  }

  function Keeps(servers: map<string, Server>, constraints: seq<string>): string -> bool {
    t => Eligible(servers, t, constraints)
  }

  /** Resolution succeeds exactly when the strategy is accepted, the targets are valid and some
      target meets every constraint. */
  predicate Resolvable(p: Option<Placement>, servers: map<string, Server>, environment: seq<string>) {
    && environment != [] && (p.Some? ==> StrategyProblem(p.value).None?)
    && TargetsValid(Targets(p, environment), servers, environment)
    && exists t :: t in Targets(p, environment) && Eligible(servers, t, Constraints(p))
  }

  method FilterTargets(targets: seq<string>, servers: map<string, Server>, constraints: seq<string>) returns (r: Result)
    requires forall t :: t in targets ==> t in servers
    ensures r.Ok? ==> r.targets == Filter(targets, Keeps(servers, constraints))
    ensures r.Ok? <==> exists t :: t in targets && Eligible(servers, t, constraints)
    ensures r.Err? ==> r.problem == BadConstraint || r.problem == NoMatch
  {
    var filtered: seq<string> := [];
    ghost var keep := Keeps(servers, constraints);
    var i := 0;
    while i < |targets|
      invariant 0 <= i <= |targets| && filtered == Filter(targets[..i], keep)
    {
      assert targets[i] in targets;
      assert targets[..i + 1][..i] == targets[..i];
      var matches := ServerMatches(servers[targets[i]], constraints);
      if matches.None? {
        UnreadableMeetsNothing(servers, targets, constraints);
        return Err(BadConstraint);
      }
      if matches.value { filtered := filtered + [targets[i]]; }
      i := i + 1;
    }
    assert targets[..i] == targets;
    FilterEmpty(targets, keep);
    assert forall t :: keep(t) <==> Eligible(servers, t, constraints);
    r := if filtered == [] then Err(NoMatch) else Ok(filtered);
  }

  lemma {:induction false} FilterEmpty(ts: seq<string>, keep: string -> bool)
    ensures Filter(ts, keep) != [] <==> exists t :: t in ts && keep(t)
  {
    if ts == [] {
    } else {
      var n := |ts| - 1;
      assert ts == ts[..n] + [ts[n]];
      FilterEmpty(ts[..n], keep);
    }
  }

  lemma UnreadableMeetsNothing(servers: map<string, Server>, targets: seq<string>, constraints: seq<string>)
    requires !Readable(constraints)
    ensures forall t :: t in targets ==> !Eligible(servers, t, constraints)
  {
    var i :| 0 <= i < |constraints| && ParseConstraint(constraints[i]).None?;
    forall t | t in targets && t in servers ensures !Meets(servers[t], constraints) {
      assert !Satisfies(servers[t], constraints[i]);
    }
  }

  method Resolve(p: Option<Placement>, servers: map<string, Server>, environment: seq<string>) returns (r: Result)
    ensures r.Ok? <==> Resolvable(p, servers, environment)
    ensures r.Ok? ==> r.targets == Filter(Targets(p, environment), Keeps(servers, Constraints(p)))
  {
    if environment == [] { return Err(NoTargets); }
    var targets := environment;
    if p.Some? {
      var problem := StrategyProblem(p.value);
      if problem.Some? { return Err(problem.value); }
      if Trim(p.value.strategy) == "pinned" { targets := p.value.servers; }
    }
    var problem := ValidateTargets(targets, servers, environment);
    if problem.Some? { return Err(problem.value); }
    ValidTargetsAreDistinct(targets, servers, environment);
    assert targets[0] in targets;
    if p.None? || p.value.constraints == [] {
      assert Eligible(servers, targets[0], Constraints(p));
      EveryoneKept(targets, servers);
      return Ok(targets);
    }
    r := FilterTargets(targets, servers, p.value.constraints);
  }

  lemma {:induction false} EveryoneKept(targets: seq<string>, servers: map<string, Server>)
    requires forall t :: t in targets ==> t in servers
    ensures Filter(targets, Keeps(servers, [])) == targets
  {
    if targets == [] {
    } else {
      var n := |targets| - 1;
      assert targets == targets[..n] + [targets[n]];
      EveryoneKept(targets[..n], servers);
    }
  }

  /** Whatever resolves is accepted by the stand-alone validator, and resolves to a non-empty
      list without repetitions of exactly the targets that meet every constraint. */
  lemma ResolvedIsAccepted(p: Option<Placement>, servers: map<string, Server>, environment: seq<string>)
    requires Resolvable(p, servers, environment)
    ensures ConfigAccepted(p)
    ensures var r := Filter(Targets(p, environment), Keeps(servers, Constraints(p)));
            && r != [] && Distinct(r)
            && forall t :: t in r <==> t in Targets(p, environment) && Eligible(servers, t, Constraints(p))
  {
    var targets, keep := Targets(p, environment), Keeps(servers, Constraints(p));
    ValidTargetsAreDistinct(targets, servers, environment);
    FilterKeepsDistinct(targets, keep);
    forall t { FilterMembers(targets, keep, t); }
    var t :| t in targets && Eligible(servers, t, Constraints(p));
    assert keep(t);
    forall i | 0 <= i < |Constraints(p)| ensures ParseConstraint(Constraints(p)[i]).Some? {
      assert Satisfies(servers[t], Constraints(p)[i]);
    }
  }

  // ---------------------------------------------------------------- new assignments

  predicate Schedulable(s: Server) {
    s.lifecycle == "" || s.lifecycle == "schedulable"
  }

  predicate TakesWork(servers: map<string, Server>, t: string) {
    t in servers && Schedulable(servers[t])
  }

  function Takes(servers: map<string, Server>): string -> bool {
    t => TakesWork(servers, t)
  }

  lemma TakersAreKept(targets: seq<string>, servers: map<string, Server>)
    ensures forall t :: t in Filter(targets, Takes(servers)) <==> t in targets && TakesWork(servers, t)
    ensures Filter(targets, Takes(servers)) != [] <==> exists t :: t in targets && TakesWork(servers, t)
  {
    var kept := Filter(targets, Takes(servers));
    forall t ensures t in kept <==> t in targets && TakesWork(servers, t) { FilterMembers(targets, Takes(servers), t); }
    if kept != [] { assert kept[0] in kept; }
  }

  lemma FilterOneMore(targets: seq<string>, i: nat, keep: string -> bool)
    requires i < |targets|
    ensures Filter(targets[..i + 1], keep) == Filter(targets[..i], keep) + if keep(targets[i]) then [targets[i]] else []
  {
    assert targets[..i + 1][..i] == targets[..i];
  }

  /** A pinned placement, or any explicit selection, is all or nothing; otherwise the servers
      that take no new work are left out. */
  method KeepSchedulable(targets: seq<string>, servers: map<string, Server>, explicit: bool) returns (r: Result)
    requires forall t :: t in targets ==> t in servers
    ensures r.Ok? <==> (exists t :: t in targets && TakesWork(servers, t))
                       && (explicit ==> forall t :: t in targets ==> TakesWork(servers, t))
    ensures r.Ok? ==> r.targets == if explicit then targets else Filter(targets, Takes(servers))
    ensures r.Ok? ==>
              forall t :: t in r.targets <==> t in targets && (servers[t].lifecycle == "" || servers[t].lifecycle == "schedulable")
  {
    var filtered: seq<string> := [];
    var i := 0;
    while i < |targets|
      invariant 0 <= i <= |targets| && filtered == Filter(targets[..i], Takes(servers))
      invariant explicit ==> filtered == targets[..i]
    {
      assert targets[i] in targets;
      FilterOneMore(targets, i, Takes(servers));
      if Schedulable(servers[targets[i]]) {
        filtered := filtered + [targets[i]];
      } else if explicit {
        assert !TakesWork(servers, targets[i]);
        return Err(NotSchedulable(targets[i]));
      }
      i := i + 1;
    }
    assert targets[..i] == targets;
    TakersAreKept(targets, servers);
    r := if filtered == [] then Err(NoneSchedulable) else Ok(filtered);
  }

  method ResolveSchedulable(p: Option<Placement>, servers: map<string, Server>, environment: seq<string>) returns (r: Result)
    ensures r.Ok? ==> Resolvable(p, servers, environment)
    ensures Resolvable(p, servers, environment) ==>
              var resolved := Filter(Targets(p, environment), Keeps(servers, Constraints(p)));
              && (r.Ok? <==> (exists t :: t in resolved && TakesWork(servers, t))
                             && (Pinned(p) ==> forall t :: t in resolved ==> TakesWork(servers, t)))
              && (r.Ok? ==> r.targets == if Pinned(p) then resolved else Filter(resolved, Takes(servers)))
  {
    r := Resolve(p, servers, environment);
    if r.Err? { return; }
    ResolvedIsAccepted(p, servers, environment);
    r := KeepSchedulable(r.targets, servers, p.Some? && Trim(p.value.strategy) == "pinned");
  }
}
