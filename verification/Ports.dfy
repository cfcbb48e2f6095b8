/** Published ports: parsing the entry syntax and printing it canonically. Reading an address
    and printing it again is the parameter `canon`. */
module Ports {
  import opened Options
  import opened Text

  datatype PortPublish = PortPublish(hostIP: string, hostPort: int, containerPort: int, protocol: string)

  type Canon = string -> Option<string>

  // ---------------------------------------------------------------- numbers

  predicate IsDigit(c: char) {
    '0' <= c <= '9'
  }

  predicate AllDigits(s: string) {
    forall i :: 0 <= i < |s| ==> IsDigit(s[i])
  }

  function Value(digits: string): nat
    requires AllDigits(digits)
  {
    if digits == [] then 0
    else Value(digits[..|digits| - 1]) * 10 + (digits[|digits| - 1] as int - '0' as int)
  }

  /** Decimal reading with an optional sign. */
  function Atoi(s: string): Option<int> {
    var digits := if s != [] && (s[0] == '+' || s[0] == '-') then s[1..] else s;
    if digits == [] || !AllDigits(digits) then None
    else
      var n: int := Value(digits);
      Some(if s[0] == '-' then -n else n)
  }

  function Itoa(n: nat): (s: string)
    ensures s != [] && AllDigits(s) && Value(s) == n
  {
    var last := ['0' + (n % 10) as char];
    if n < 10 then last else
      var front := Itoa(n / 10);
      assert (front + last)[..|front|] == front;
      front + last
  }

  lemma AtoiItoa(n: nat)
    ensures Atoi(Itoa(n)) == Some(n) && Tight(Itoa(n))
    ensures forall c :: c in Itoa(n) ==> IsDigit(c)
  {
  }

  /** A number may have a sign. */
  lemma SignIsRead(n: nat)
    ensures Atoi("+" + Itoa(n)) == Some(n) && Atoi("-" + Itoa(n)) == Some(-(n as int)) && Atoi("+") == Atoi("-") == Atoi("") == None
  {
    assert ("+" + Itoa(n))[1..] == Itoa(n) && ("-" + Itoa(n))[1..] == Itoa(n);
    assert "+"[1..] == "-"[1..] == [];
  }

  predicate IsPort(n: int) {
    1 <= n <= 65535
  }

  function ParsePort(s: string): Option<int> {
    var n := Atoi(Trim(s));
    if n.Some? && IsPort(n.value) then n else None
  }

  // ---------------------------------------------------------------- entries

  function ToLower(s: string): string {
    seq(|s|, i requires 0 <= i < |s| => if 'A' <= s[i] <= 'Z' then s[i] - 'A' + 'a' else s[i])
  }

  /** The protocol and what stands before it. */
  function ParseProtocol(s: string): Option<(string, string)> {
    var (base, proto, found) := Cut(s, '/');
    var p := ToLower(Trim(proto));
    if !found then Some((s, "tcp")) else if p == "tcp" || p == "udp" then Some((base, p)) else None
  }

  datatype Parts = Parts(ip: string, host: string, container: string)

  function ParseParts(s: string): Option<Parts> {
    if s != [] && s[0] == '[' then
      var (addr, rest, closed) := Cut(s[1..], ']');
      if !closed || rest == [] || rest[0] != ':' then None
      else
        var (host, container, found) := Cut(rest[1..], ':');
        if found then Some(Parts(addr, host, container)) else None
    else if ':' in s then
      var parts := Split(s, ':');
      if |parts| == 2 then Some(Parts("", parts[0], parts[1]))
      else if |parts| == 3 then Some(Parts(parts[0], parts[1], parts[2]))
      else None
    else Some(Parts("", s, ""))
  }

  function ParseHostIP(ip: string, canon: Canon): Option<string> {
    if ip == "" then Some("") else canon(ip)
  }

  function Parse(entry: string, canon: Canon): Option<PortPublish> {
    var value := Trim(entry);
    var proto := ParseProtocol(value);
    if value == "" || proto.None? then None else ParseBody(proto.value.0, proto.value.1, canon)
  }

  /** What stands before the protocol. */
  function ParseBody(body: string, protocol: string, canon: Canon): Option<PortPublish> {
    var parts := ParseParts(body);
    if parts.None? then None else ParseFields(parts.value, protocol, canon)
  }

  /** The address and the ports; the container port defaults to that of the host. */
  function ParseFields(p: Parts, protocol: string, canon: Canon): Option<PortPublish> {
    var ip, host := ParseHostIP(p.ip, canon), ParsePort(p.host);
    var container := if p.container == "" then host else ParsePort(p.container);
    if ip.None? || host.None? || container.None? then None
    else Some(PortPublish(ip.value, host.value, container.value, protocol))
  }

  function Address(ip: string): string {
    if ip == "" then "" else if ':' in ip then "[" + ip + "]:" else ip + ":"
  }

  function Print(p: PortPublish): string
    requires p.hostPort >= 0 && p.containerPort >= 0
  {
    Address(p.hostIP) + Itoa(p.hostPort) + ":" + Itoa(p.containerPort) + "/" + p.protocol
  }

  /** The parser as written: a record filled field by field, every early return an error. */
  method ParsePortPublish(entry: string, canon: Canon) returns (r: Option<PortPublish>)
    ensures r == Parse(entry, canon)
  {
    var publish := PortPublish("", 0, 0, "tcp");
    var value := Trim(entry);
    if value == "" { return None; }
    var (base, proto, found) := Cut(value, '/');
    if found {
      var p := ToLower(Trim(proto));
      if p != "tcp" && p != "udp" { return None; }
      publish := publish.(protocol := p);
      value := base;
    }
    assert ParseProtocol(Trim(entry)) == Some((value, publish.protocol));
    var hostPart, containerPart := value, "";
    if value != [] && value[0] == '[' {
      var (addr, rest, closed) := Cut(value[1..], ']');
      if !closed || rest == [] || rest[0] != ':' { return None; }
      publish := publish.(hostIP := addr);
      var (host, container, both) := Cut(rest[1..], ':');
      if !both { return None; }
      hostPart, containerPart := host, container;
    } else if ':' in value {
      var parts := Split(value, ':');
      if |parts| == 2 {
        hostPart, containerPart := parts[0], parts[1];
      } else if |parts| == 3 {
        publish := publish.(hostIP := parts[0]);
        hostPart, containerPart := parts[1], parts[2];
      } else {
        return None;
      }
    }
    assert ParseParts(value) == Some(Parts(publish.hostIP, hostPart, containerPart));
    r := FillPublish(publish, hostPart, containerPart, canon);
  }

  /** The second half of the parser: the address and the two ports. */
  method FillPublish(start: PortPublish, hostPart: string, containerPart: string, canon: Canon) returns (r: Option<PortPublish>)
    ensures r == ParseFields(Parts(start.hostIP, hostPart, containerPart), start.protocol, canon)
  {
    var publish := start;
    if publish.hostIP != "" {
      var addr := canon(publish.hostIP);
      if addr.None? { return None; }
      publish := publish.(hostIP := addr.value);
    }
    var host := ParsePort(hostPart);
    if host.None? { return None; }
    publish := publish.(hostPort := host.value, containerPort := host.value);
    if containerPart != "" {
      var container := ParsePort(containerPart);
      if container.None? { return None; }
      publish := publish.(containerPort := container.value);
    }
    r := Some(publish);
  }

  // ---------------------------------------------------------------- results

  /** What is assumed of address printing: reading a printed address gives it back, a printed
      address is not empty, '/', ']' and ':' are printed only if they were read, and an address
      printed without ':' is in dotted decimal. */
  ghost predicate AddressCodec(canon: Canon) {
    forall s :: canon(s).Some? ==> Canonical(canon(s).value, s, canon)
  }

  ghost predicate Canonical(t: string, s: string, canon: Canon) {
    && canon(t) == Some(t) && t != ""
    && (forall c :: c in t && (c == '/' || c == ']' || c == ':') ==> c in s)
    && (':' !in t ==> forall c :: c in t ==> IsDigit(c) || c == '.')
  }

  /** The values the parser produces. */
  ghost predicate WellFormed(p: PortPublish, canon: Canon) {
    && 1 <= p.hostPort <= 65535 && 1 <= p.containerPort <= 65535
    && (p.protocol == "tcp" || p.protocol == "udp")
    && (p.hostIP != "" ==> canon(p.hostIP) == Some(p.hostIP) && '/' !in p.hostIP && ']' !in p.hostIP)
  }

  lemma AddressCharacters(s: string)
    requires '/' !in s && ParseParts(s).Some?
    ensures '/' !in ParseParts(s).value.ip
    ensures ']' !in ParseParts(s).value.ip || ':' !in ParseParts(s).value.ip
  {
    if s != [] && s[0] == '[' {
      CutParts(s[1..], ']');
      var addr := Cut(s[1..], ']').0;
      forall c | c in addr ensures c in s { assert c in s[1..]; }
    } else if ':' in s {
      SplitParts(s, ':');
    }
  }

  lemma ParsedIsWellFormed(entry: string, canon: Canon)
    requires AddressCodec(canon) && Parse(entry, canon).Some?
    ensures WellFormed(Parse(entry, canon).value, canon)
  {
    var value := Trim(entry);
    CutParts(value, '/');
    var base := ParseProtocol(value).value.0;
    AddressCharacters(base);
    var ip := ParseParts(base).value.ip;
    if ip != "" { assert Canonical(canon(ip).value, ip, canon); }
  }

  lemma PrintedProtocol(body: string, proto: string)
    requires '/' !in body && (proto == "tcp" || proto == "udp")
    ensures ParseProtocol(body + "/" + proto) == Some((body, proto))
  {
    CutAt(body, '/', proto);
    TrimIsTight(proto);
    assert ToLower(proto) == proto;
  }

  lemma PrintedPorts(h: nat, c: nat)
    requires IsPort(h) && IsPort(c)
    ensures ParsePort(Itoa(h)) == Some(h) && ParsePort(Itoa(c)) == Some(c)
    ensures ':' !in Itoa(h) && ':' !in Itoa(c) && '/' !in Itoa(h) && '/' !in Itoa(c)
  {
    AtoiItoa(h);
    AtoiItoa(c);
    TrimIsTight(Itoa(h));
    TrimIsTight(Itoa(c));
  }

  lemma SplitAt(a: string, c: char, b: string)
    requires c !in a
    ensures Split(a + [c] + b, c) == [a] + Split(b, c)
  {
    CutAt(a, c, b);
  }

  lemma SplitOne(a: string, c: char)
    requires c !in a
    ensures Split(a, c) == [a]
  {
    CutMissing(a, c);
  }

  lemma PlainParts(host: string, container: string)
    requires ':' !in host && ':' !in container && host != [] && host[0] != '['
    ensures ParseParts(host + ":" + container) == Some(Parts("", host, container))
  {
    SplitAt(host, ':', container);
    SplitOne(container, ':');
    assert ':' in host + ":" + container;
  }

  lemma DottedParts(ip: string, host: string, container: string)
    requires ':' !in host && ':' !in container && ':' !in ip && ip != "" && ip[0] != '['
    ensures ParseParts(ip + ":" + (host + ":" + container)) == Some(Parts(ip, host, container))
  {
    SplitAt(ip, ':', host + ":" + container);
    SplitAt(host, ':', container);
    SplitOne(container, ':');
    assert ':' in ip + ":" + (host + ":" + container);
  }

  lemma BracketedParts(ip: string, host: string, container: string)
    requires ':' !in host && ']' !in ip
    ensures ParseParts("[" + (ip + "]" + (":" + (host + ":" + container)))) == Some(Parts(ip, host, container))
  {
    var tail := host + ":" + container;
    var rest := ip + "]" + (":" + tail);
    assert ("[" + rest)[1..] == rest;
    CutAt(ip, ']', ":" + tail);
    assert (":" + tail)[1..] == tail;
    CutAt(host, ':', container);
  }

  /** The parts of a printed body, for each of the three forms of address. */
  lemma PrintedParts(ip: string, host: string, container: string)
    requires ':' !in host && ':' !in container && host != [] && host[0] != '['
    requires ']' !in ip && (':' !in ip && ip != "" ==> ip[0] != '[')
    ensures ParseParts(Address(ip) + host + ":" + container) == Some(Parts(ip, host, container))
  {
    PrintedBody(ip, host, container);
    if ip == "" {
      PlainParts(host, container);
    } else if ':' in ip {
      BracketedParts(ip, host, container);
    } else {
      DottedParts(ip, host, container);
    }
  }

  lemma PrintedBody(ip: string, host: string, container: string)
    ensures Address(ip) + host + ":" + container ==
      if ip == "" then host + ":" + container
      else if ':' in ip then "[" + (ip + "]" + (":" + (host + ":" + container)))
      else ip + ":" + (host + ":" + container)
  {
    var a := Address(ip);
    assert a + host + ":" + container == a + (host + ":" + container);
  }

  lemma PrintedIsTight(p: PortPublish, canon: Canon)
    requires AddressCodec(canon) && WellFormed(p, canon)
    ensures Trim(Print(p)) == Print(p) && Print(p) != ""
    ensures p.hostIP != "" && ':' !in p.hostIP ==> p.hostIP[0] != '['
  {
    var text := Print(p);
    AtoiItoa(p.hostPort);
    assert text[|text| - 1] == p.protocol[2];
    if p.hostIP == "" {
      assert text[0] == Itoa(p.hostPort)[0] && text[0] in Itoa(p.hostPort);
    } else {
      assert Canonical(p.hostIP, p.hostIP, canon);
      assert p.hostIP[0] in p.hostIP;
      assert text[0] == if ':' in p.hostIP then '[' else p.hostIP[0];
    }
    TrimIsTight(text);
  }

  /** Printing a well-formed value and parsing the text gives the value back. */
  lemma PrintThenParse(p: PortPublish, canon: Canon)
    requires AddressCodec(canon) && WellFormed(p, canon)
    ensures Parse(Print(p), canon) == Some(p)
  {
    PrintedIsTight(p, canon);
    PrintedPorts(p.hostPort, p.containerPort);
    AtoiItoa(p.hostPort);
    assert Itoa(p.hostPort)[0] in Itoa(p.hostPort);
    var body := Address(p.hostIP) + Itoa(p.hostPort) + ":" + Itoa(p.containerPort);
    assert Print(p) == body + "/" + p.protocol;
    PrintedProtocol(body, p.protocol);
    PrintedParts(p.hostIP, Itoa(p.hostPort), Itoa(p.containerPort));
  }

  /** Parsing, printing and parsing again changes nothing, for every accepted entry. */
  lemma ParsePrintParse(entry: string, canon: Canon)
    requires AddressCodec(canon) && Parse(entry, canon).Some?
    ensures IsPort(Parse(entry, canon).value.hostPort) && IsPort(Parse(entry, canon).value.containerPort)
    ensures Parse(Print(Parse(entry, canon).value), canon) == Parse(entry, canon)
  {
    ParsedIsWellFormed(entry, canon);
    PrintThenParse(Parse(entry, canon).value, canon);
  }

  /** Letter for letter the same, or its capital. */
  predicate SameLetters(p: string, q: string) {
    |p| == |q| && forall i :: 0 <= i < |p| ==> p[i] == q[i] || p[i] as int == q[i] as int - 32
  }

  lemma LowerIsProtocol(p: string, q: string)
    requires q == "tcp" || q == "udp"
    ensures ToLower(p) == q <==> SameLetters(p, q)
  {
    if ToLower(p) == q {
      forall i | 0 <= i < |p| ensures p[i] == q[i] || p[i] as int == q[i] as int - 32 { assert ToLower(p)[i] == q[i]; }
    }
    if SameLetters(p, q) {
      forall i | 0 <= i < |p| ensures ToLower(p)[i] == q[i] { assert p[i] == q[i] || p[i] as int == q[i] as int - 32; }
    }
  }

  /** An entry without a protocol is one over TCP. */
  lemma ProtocolDefaults(entry: string, canon: Canon)
    requires '/' !in Trim(entry) && Trim(entry) != ""
    ensures Parse(entry, canon) == Parse(Trim(entry) + "/" + "tcp", canon)
  {
    var s := Trim(entry);
    TrimIsTight(entry);
    CutMissing(s, '/');
    ProtocolSaid(s, "tcp", canon);
  }

  lemma ProtocolSaid(body: string, q: string, canon: Canon)
    requires '/' !in body && body != "" && !IsSpace(body[0]) && (q == "tcp" || q == "udp")
    ensures Parse(body + "/" + q, canon) == ParseBody(body, q, canon)
  {
    assert (body + "/" + q)[0] == body[0];
    TrimIsTight(body + "/" + q);
    PrintedProtocol(body, q);
  }

  /** An entry with a protocol is accepted only if that is TCP or UDP, in capitals or not and
      with blanks around it or not, and then publishes over it. */
  lemma ProtocolIsRead(body: string, p: string, canon: Canon)
    requires '/' !in body && Tight(body + "/" + p)
    ensures var r := Parse(body + "/" + p, canon);
            && (r.Some? ==> SameLetters(Trim(p), r.value.protocol) && (r.value.protocol == "tcp" || r.value.protocol == "udp"))
            && (forall q :: (q == "tcp" || q == "udp") && SameLetters(Trim(p), q) ==> r == Parse(body + "/" + q, canon) || body == "")
  {
    TrimIsTight(body + "/" + p);
    CutAt(body, '/', p);
    LowerIsProtocol(Trim(p), "tcp");
    LowerIsProtocol(Trim(p), "udp");
    forall q | (q == "tcp" || q == "udp") && SameLetters(Trim(p), q) ensures Parse(body + "/" + p, canon) == Parse(body + "/" + q, canon) || body == "" {
      if body != "" {
        assert (body + "/" + p)[0] == body[0];
        ProtocolSaid(body, q, canon);
      }
    }
  }

  lemma PortText(n: nat)
    requires IsPort(n)
    ensures var s := Itoa(n);
            && ParsePort(s) == Some(n) && s[0] != '[' && ':' !in s && '/' !in s && '/' !in s + ":"
            && Trim(s) == s && Trim(s + ":") == s + ":"
  {
    var s := Itoa(n);
    PrintedPorts(n, n);
    AtoiItoa(n);
    assert s[0] in s;
    TrimIsTight(s);
    TrimIsTight(s + ":");
  }

  lemma PortByItself(n: nat, canon: Canon)
    requires IsPort(n)
    ensures Parse(Itoa(n), canon) == Some(PortPublish("", n, n, "tcp"))
  {
    PortText(n);
    CutMissing(Itoa(n), '/');
    OnePart(Itoa(n));
    assert Parse(Itoa(n), canon) == ParseBody(Itoa(n), "tcp", canon);
  }

  lemma OnePart(s: string)
    requires s != "" && s[0] != '[' && ':' !in s
    ensures ParseParts(s) == Some(Parts("", s, ""))
  {
  }

  lemma PortWithColon(n: nat, canon: Canon)
    requires IsPort(n)
    ensures Parse(Itoa(n) + ":", canon) == Some(PortPublish("", n, n, "tcp"))
  {
    var s := Itoa(n);
    PortText(n);
    CutMissing(s + ":", '/');
    PlainParts(s, "");
    assert s + ":" + "" == s + ":";
  }

  /** A port alone, or followed by an empty container part, publishes itself over TCP. */
  lemma PortAlone(n: nat, canon: Canon)
    requires IsPort(n)
    ensures Parse(Itoa(n), canon) == Parse(Itoa(n) + ":", canon) == Some(PortPublish("", n, n, "tcp"))
  {
    PortByItself(n, canon);
    PortWithColon(n, canon);
  }
}
