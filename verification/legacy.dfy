/** The older directive parser of parser.go: it collects `host_alias`
    directives (an ip pattern that names this machine) and `host_service`
    directives (a service a named host offers) from the lines of code
    blocks, works out which aliases name this machine from its interface
    addresses, dials the services those aliases offer, and summarises the
    errors. */
module Legacy {
  import opened Wrappers
  import opened Chars
  import opened Grammar
  import opened Matching
  import opened Directive
  import opened Texts

  // ---------------------------------------------------------------------
  // State
  // ---------------------------------------------------------------------

  datatype LegacyCommand =
    | HostAlias(ip: string, host: string, isLocalHost: bool)
    | HostService(host: string, isLocalHost: bool, service: string, port: int, available: bool,
                  err: Option<string>)

  /** `aliasToIP` keeps, for each alias, the text form of the interface
      address it matched (the IP of the stored `*net.IPNet`). */
  datatype Parser = Parser(
    hostname: string,
    commands: seq<LegacyCommand>,
    errors: seq<string>,
    aliases: seq<string>,
    aliasToIP: map<string, string>)

  /** Every alias has an address: the parser never looks up an alias it did not store. */
  predicate AliasesMapped(p: Parser) {
    forall i :: 0 <= i < |p.aliases| ==> p.aliases[i] in p.aliasToIP
  }

  /** As parsed, before any processing. */
  predicate Fresh(c: LegacyCommand) {
    match c
    case HostAlias(_, _, isLocal) => !isLocal
    case HostService(_, isLocal, _, _, available, err) => !isLocal && !available && err.None?
  }

  const HostnameError: string := "Unable to resolve hostname"

  /** NewParser, given what the operating system answers for the host name.
      On failure the name is empty, as os.Hostname returns it. */
  function NewParser(osHostname: Result<string, string>): (p: Parser)
    ensures p.commands == [] && p.aliases == [] && AliasesMapped(p)
    ensures osHostname.Success? <==> p.errors == []
    ensures osHostname.Success? ==> p.hostname == osHostname.value
    ensures osHostname.Failure? ==> p.hostname == "" && p.errors == [HostnameError]
  {
    match osHostname
    case Success(name) => Parser(name, [], [], [], map[])
    case Failure(_) => Parser("", [], [HostnameError], [], map[])
  }

  // ---------------------------------------------------------------------
  // Parse
  // ---------------------------------------------------------------------

  datatype LegacyName = HostAliasName | HostServiceName

  /** The visiting order of the two-entry pattern table. */
  datatype LegacyOrder = AliasFirst | ServiceFirst

  function LegacyTried(order: LegacyOrder): (names: (LegacyName, LegacyName))
    ensures names.0 != names.1
  {
    match order
    case AliasFirst => (HostAliasName, HostServiceName)
    case ServiceFirst => (HostServiceName, HostAliasName)
  }

  function AliasParams(s: string, m: AliasSpan): Params
    requires IsAliasSpan(s, m)
  {
    map["" := Unnamed, "ip" := s[m.ipStart..m.ipEnd], "host" := s[m.hostStart..m.hostEnd]]
  }

  function LegacyCaptures(name: LegacyName, line: string): Option<Params> {
    match name
    case HostAliasName =>
      (match MatchAlias(line)
       case None => None
       case Some(m) => Some(AliasParams(line, m)))
    case HostServiceName =>
      (match MatchOffers(line, Word)
       case None => None
       case Some(m) => MatchOffersSound(line, Word); Some(OffersParams(line, Word, m)))
  }

  /** BuildCommand of parser.go: an alias always builds; a service builds
      unless its written port does not convert.  Its error result is always nil. */
  function LegacyBuildCommand(name: LegacyName, p: Params): (r: Option<LegacyCommand>)
    ensures r.Some? ==> Fresh(r.value)
    ensures name == HostAliasName ==> r == Some(HostAlias(GetOr(p, "ip", ""), GetOr(p, "host", ""), false))
    ensures name == HostServiceName && r.Some? ==>
      r.value.HostService? && r.value.host == GetOr(p, "host", "") && r.value.service == GetOr(p, "service", "")
    ensures name == HostServiceName ==>
      (r.Some? <==> PortOf(p).Success?) && (r.Some? ==> r.value.port == PortOf(p).value)
  {
    match name
    case HostAliasName => Some(HostAlias(GetOr(p, "ip", ""), GetOr(p, "host", ""), false))
    case HostServiceName =>
      match PortOf(p)
      case Failure(_) => None
      case Success(port) => Some(HostService(GetOr(p, "host", ""), false, GetOr(p, "service", ""), port, false, None))
  }

  /** Parse of parser.go: the command of the first pattern (in `order`) that
      matches.  The parser's error list is never touched, since the build
      step never reports an error. */
  function LegacyParse(line: string, order: LegacyOrder): (r: Option<LegacyCommand>)
    ensures r.Some? ==> Fresh(r.value)
    ensures !HasPrefix(line) ==> r.None?
  {
    var (first, second) := LegacyTried(order);
    match LegacyCaptures(first, line)
    case Some(p) => LegacyBuildCommand(first, p)
    case None =>
      match LegacyCaptures(second, line)
      case Some(p) => LegacyBuildCommand(second, p)
      case None => None
  }

  /** An alias line yields its ip pattern and alias, whatever the order, when
      the service pattern does not also fit it. */
  lemma LegacyParseAlias(line: string, order: LegacyOrder, m: AliasSpan)
    requires IsAliasSpan(line, m)
    requires order == AliasFirst || forall o :: !IsOffersSpan(line, Word, o)
    ensures LegacyParse(line, order) ==
            Some(HostAlias(line[m.ipStart..m.ipEnd], line[m.hostStart..m.hostEnd], false))
  {
    MatchAliasExact(line, m);
    if order == ServiceFirst {
      MatchOffersFailsIffNoSpan(line, Word);
    }
  }

  /** A service line yields the reported host's service, when the alias
      pattern does not also fit it; none only when the port is out of range. */
  lemma LegacyParseService(line: string, order: LegacyOrder, m: OffersSpan)
    requires IsLongestOffers(line, Word, m)
    requires order == ServiceFirst || forall a :: !IsAliasSpan(line, a)
    ensures var service := line[m.serviceStart..m.serviceEnd];
            var port := DenotedPort(line, service, m.serviceEnd, m.portEnd);
            LegacyParse(line, order) ==
              (if port <= MaxInt then Some(HostService(line[m.leadStart..m.leadEnd], false, service, port, false, None))
               else None)
  {
    MatchOffersIsLeftmostFirst(line, Word, m);
    assert LegacyCaptures(HostServiceName, line) == Some(OffersParams(line, Word, m));
    assert LegacyParse(line, order) == LegacyBuildCommand(HostServiceName, OffersParams(line, Word, m));
    LegacyServiceCommand(line, m);
  }

  /** The command built from a service match. */
  lemma LegacyServiceCommand(line: string, m: OffersSpan)
    requires IsOffersSpan(line, Word, m)
    ensures var service := line[m.serviceStart..m.serviceEnd];
            var port := DenotedPort(line, service, m.serviceEnd, m.portEnd);
            LegacyBuildCommand(HostServiceName, OffersParams(line, Word, m)) ==
              (if port <= MaxInt then Some(HostService(line[m.leadStart..m.leadEnd], false, service, port, false, None))
               else None)
  {
    var p := OffersParams(line, Word, m);
    assert p["host"] == line[m.leadStart..m.leadEnd] && p["service"] == line[m.serviceStart..m.serviceEnd];
    assert p["port"] == PortText(line, m.serviceEnd, m.portEnd);
  }

  /** The visiting order decides the command only on a line both patterns fit. */
  lemma LegacyOrderMattersOnlyWhenAmbiguous(line: string)
    requires LegacyParse(line, AliasFirst) != LegacyParse(line, ServiceFirst)
    ensures exists a :: IsAliasSpan(line, a)
    ensures exists o :: IsOffersSpan(line, Word, o)
  {
    MatchOffersFailsIffNoSpan(line, Word);
  }

  // ---------------------------------------------------------------------
  // EvaluateCode: the lines of a code block
  // ---------------------------------------------------------------------

  /** Where the first line of `t` ends: its first newline, or the end of `t`. */
  function LineEnd(t: string): (i: nat)
    ensures i <= |t| && (i < |t| ==> t[i] == '\n')
    ensures forall k :: 0 <= k < i ==> t[k] != '\n'
  {
    if |t| == 0 || t[0] == '\n' then 0 else 1 + LineEnd(t[1..])
  }

  /** A line without its one trailing carriage return, if it has one. */
  function DropCR(t: string): string {
    if |t| > 0 && t[|t| - 1] == '\r' then t[..|t| - 1] else t
  }

  /** The lines bufio.ScanLines splits a text into: split at each newline,
      one trailing carriage return dropped from each line, and a last line
      without a newline kept when it is not empty. */
  function ScanLines(text: string): (lines: seq<string>)
    ensures forall i :: 0 <= i < |lines| ==> '\n' !in lines[i]
    decreases |text|
  {
    if |text| == 0 then []
    else
      var i := LineEnd(text);
      if i < |text| then [DropCR(text[..i])] + ScanLines(text[i + 1..]) else [DropCR(text)]
  }

  /** A line that scanning gives back unchanged. */
  predicate PlainLine(l: string) {
    '\n' !in l && (|l| == 0 || l[|l| - 1] != '\r')
  }

  /** The lines, each followed by `eol`. */
  function Terminated(lines: seq<string>, eol: string): string
    decreases |lines|
  {
    if |lines| == 0 then "" else lines[0] + eol + Terminated(lines[1..], eol)
  }

  /** Scanning gives back the lines of a text whose lines all end with a
      newline or all with a carriage return and a newline. */
  lemma {:induction false} ScanLinesOfTerminated(lines: seq<string>, eol: string)
    requires eol == "\n" || eol == "\r\n"
    requires forall i :: 0 <= i < |lines| ==> PlainLine(lines[i])
    ensures ScanLines(Terminated(lines, eol)) == lines
    decreases |lines|
  {
    if |lines| > 0 {
      ScanLinesCons(lines[0], eol, Terminated(lines[1..], eol));
      ScanLinesOfTerminated(lines[1..], eol);
    }
  }

  /** Scanning a plain line followed by `eol` yields the line, then the rest. */
  lemma ScanLinesCons(l: string, eol: string, rest: string)
    requires eol == "\n" || eol == "\r\n"
    requires PlainLine(l)
    ensures ScanLines(l + eol + rest) == [l] + ScanLines(rest)
  {
    var t, body := l + eol + rest, eol[..|eol| - 1];
    var n := |l| + |body|;
    EolSplit(l, eol, rest);
    assert '\n' !in l + body;
    LineEndIs(t, n);
    assert DropCR(l + body) == l;
  }

  lemma LineEndIs(t: string, n: nat)
    requires n < |t| && t[n] == '\n' && '\n' !in t[..n]
    ensures LineEnd(t) == n
  {
    assert forall k :: 0 <= k < n ==> t[k] == t[..n][k];
  }

  lemma EolSplit(l: string, eol: string, rest: string)
    requires eol == "\n" || eol == "\r\n"
    ensures var t, n := l + eol + rest, |l| + |eol| - 1;
            n < |t| && t[n] == '\n' && t[..n] == l + eol[..|eol| - 1] && t[n + 1..] == rest
  {
  }

  /** The commands the lines yield, in order; line `i` is parsed with `order(i)`. */
  function LineCommands(lines: seq<string>, order: nat -> LegacyOrder): seq<LegacyCommand>
    decreases |lines|
  {
    if |lines| == 0 then []
    else
      var last := |lines| - 1;
      LineCommands(lines[..last], order)
        + (match LegacyParse(lines[last], order(last)) case Some(c) => [c] case None => [])
  }

  /** Every command a block yields is as parsed: nothing is local or dialled yet. */
  lemma {:induction false} LineCommandsAreFresh(lines: seq<string>, order: nat -> LegacyOrder)
    ensures forall i :: 0 <= i < |LineCommands(lines, order)| ==> Fresh(LineCommands(lines, order)[i])
    ensures |LineCommands(lines, order)| <= |lines|
    decreases |lines|
  {
    if |lines| > 0 {
      LineCommandsAreFresh(lines[..|lines| - 1], order);
    }
  }

  /** Scanning one more line adds its command, if it has one. */
  lemma LineCommandsSnoc(lines: seq<string>, i: nat, order: nat -> LegacyOrder)
    requires i < |lines|
    ensures LineCommands(lines[..i + 1], order)
         == LineCommands(lines[..i], order)
            + (match LegacyParse(lines[i], order(i)) case Some(c) => [c] case None => [])
  {
    assert lines[..i + 1][..i] == lines[..i];
    assert lines[..i + 1][i] == lines[i];
  }

  lemma JoinPrefixSnoc(lines: seq<string>, i: nat)
    requires i < |lines|
    ensures Join(lines[..i + 1]) == Join(lines[..i]) + lines[i]
  {
    JoinSnoc(lines[..i], lines[i]);
    assert lines[..i] + [lines[i]] == lines[..i + 1];
  }

  /** Evaluates a code block: the commands of its lines are appended in
      order, and the text is given back with its line breaks gone (each
      line is written without one). */
  method EvaluateCode(p: Parser, text: string, order: nat -> LegacyOrder) returns (q: Parser, output: string)
    ensures q == p.(commands := p.commands + LineCommands(ScanLines(text), order))
    ensures output == Join(ScanLines(text)) && '\n' !in output
  {
    var lines := ScanLines(text);
    q, output := p, "";
    var i := 0;
    while i < |lines|
      invariant 0 <= i <= |lines|
      invariant output == Join(lines[..i])
      invariant q == p.(commands := p.commands + LineCommands(lines[..i], order))
    {
      var parsed := LegacyParse(lines[i], order(i));
      LineCommandsSnoc(lines, i, order);
      JoinPrefixSnoc(lines, i);
      output := output + lines[i];
      if parsed.Some? {
        q := q.(commands := q.commands + [parsed.value]);
      }
      i := i + 1;
    }
    assert lines[..i] == lines;
    JoinAvoids(lines, '\n');
  }

  // ---------------------------------------------------------------------
  // ProcessHostAliasCommands
  // ---------------------------------------------------------------------

  /** An interface address: an IP network, shown by the text of its IP, or
      another kind of address. */
  datatype InterfaceAddr = IPNet(ip: string) | OtherAddr

  /** The interface list as seen, or none when it cannot be read. */
  function Addrs(intf: Result<seq<InterfaceAddr>, string>): seq<InterfaceAddr> {
    if intf.Success? then intf.value else []
  }

  /** Some network address of this machine has exactly the text `ip`. */
  predicate Carries(addrs: seq<InterfaceAddr>, ip: string) {
    IPNet(ip) in addrs
  }

  /** `c` declares the alias `h` with the ip of an address of this machine. */
  predicate LocalAliasOf(c: LegacyCommand, h: string, addrs: seq<InterfaceAddr>) {
    c.HostAlias? && c.host == h && Carries(addrs, c.ip)
  }

  /** An alias command after processing: local once its ip is an address of this machine. */
  function MarkAlias(c: LegacyCommand, addrs: seq<InterfaceAddr>): LegacyCommand {
    if c.HostAlias? && Carries(addrs, c.ip) then HostAlias(c.ip, c.host, true) else c
  }

  /** The inner loop for one alias command: the alias is recorded once for
      each address whose IP text is `ip`, and mapped to it. */
  method MatchInterfaces(q: Parser, ip: string, host: string, addrs: seq<InterfaceAddr>)
    returns (r: Parser, local: bool)
    ensures local <==> Carries(addrs, ip)
    ensures r.hostname == q.hostname && r.commands == q.commands && r.errors == q.errors
    ensures |q.aliases| <= |r.aliases| && r.aliases[..|q.aliases|] == q.aliases
    ensures forall k :: |q.aliases| <= k < |r.aliases| ==> r.aliases[k] == host
    ensures local <==> |r.aliases| > |q.aliases|
    ensures |r.aliases| == |q.aliases| + multiset(addrs)[IPNet(ip)]
    ensures r.aliasToIP == if local then q.aliasToIP[host := ip] else q.aliasToIP
    ensures AliasesMapped(q) ==> AliasesMapped(r)
  {
    r, local := q, false;
    var j := 0;
    while j < |addrs|
      invariant 0 <= j <= |addrs|
      invariant local <==> IPNet(ip) in addrs[..j]
      invariant r.hostname == q.hostname && r.commands == q.commands && r.errors == q.errors
      invariant |q.aliases| <= |r.aliases| && r.aliases[..|q.aliases|] == q.aliases
      invariant forall k :: |q.aliases| <= k < |r.aliases| ==> r.aliases[k] == host
      invariant local <==> |r.aliases| > |q.aliases|
      invariant |r.aliases| == |q.aliases| + multiset(addrs[..j])[IPNet(ip)]
      invariant r.aliasToIP == if local then q.aliasToIP[host := ip] else q.aliasToIP
      invariant AliasesMapped(q) ==> AliasesMapped(r)
    {
      assert addrs[..j + 1] == addrs[..j] + [addrs[j]];
      if addrs[j].IPNet? && addrs[j].ip == ip {
        local := true;
        r := r.(aliases := r.aliases + [host], aliasToIP := r.aliasToIP[host := ip]);
      }
      j := j + 1;
    }
    assert addrs[..j] == addrs;
  }

  /** What matching one alias command adds to the aliases. */
  lemma AliasesAfterMatch(q: Parser, r: Parser, host: string, local: bool)
    requires |q.aliases| <= |r.aliases| && r.aliases[..|q.aliases|] == q.aliases
    requires forall k :: |q.aliases| <= k < |r.aliases| ==> r.aliases[k] == host
    requires local <==> |r.aliases| > |q.aliases|
    ensures forall h :: h in r.aliases <==> h in q.aliases || (local && h == host)
  {
    forall h
      ensures h in r.aliases <==> h in q.aliases || (local && h == host)
    {
      if h in q.aliases {
        var k :| 0 <= k < |q.aliases| && q.aliases[k] == h;
        assert r.aliases[k] == h;
      }
      if local && h == host {
        assert r.aliases[|q.aliases|] == h;
      }
    }
  }

  /** ProcessHostAliasCommands: each alias command whose ip is the text of an
      address of this machine becomes local, and its alias is recorded and
      mapped to that address.  When the interfaces cannot be read nothing changes. */
  method ProcessHostAliasCommands(p: Parser, intf: Result<seq<InterfaceAddr>, string>) returns (q: Parser)
    ensures intf.Failure? ==> q == p
    ensures q.hostname == p.hostname && q.errors == p.errors
    ensures |q.commands| == |p.commands|
    ensures forall i :: 0 <= i < |p.commands| ==> q.commands[i] == MarkAlias(p.commands[i], Addrs(intf))
    ensures |p.aliases| <= |q.aliases| && q.aliases[..|p.aliases|] == p.aliases
    ensures forall h :: h in q.aliases <==>
      h in p.aliases || exists i :: 0 <= i < |p.commands| && LocalAliasOf(p.commands[i], h, Addrs(intf))
    ensures forall h :: h in q.aliasToIP ==>
      (h in p.aliasToIP && q.aliasToIP[h] == p.aliasToIP[h]) || Carries(Addrs(intf), q.aliasToIP[h])
    ensures q.aliasToIP == AliasTable(p.aliasToIP, p.commands, Addrs(intf))
    ensures AliasesMapped(p) ==> AliasesMapped(q)
  {
    q := p;
    if intf.Failure? {
      AliasTableOfNoAddrs(p.aliasToIP, p.commands);
      return;
    }
    var addrs := intf.value;
    var commands := p.commands;
    var i := 0;
    while i < |p.commands|
      invariant 0 <= i <= |p.commands|
      invariant q.hostname == p.hostname && q.errors == p.errors && q.commands == p.commands
      invariant |commands| == |p.commands|
      invariant forall k :: 0 <= k < i ==> commands[k] == MarkAlias(p.commands[k], addrs)
      invariant forall k :: i <= k < |p.commands| ==> commands[k] == p.commands[k]
      invariant |p.aliases| <= |q.aliases| && q.aliases[..|p.aliases|] == p.aliases
      invariant forall h :: h in q.aliases <==>
        h in p.aliases || exists k :: 0 <= k < i && LocalAliasOf(p.commands[k], h, addrs)
      invariant q.aliasToIP == AliasTable(p.aliasToIP, p.commands[..i], addrs)
      invariant AliasesMapped(p) ==> AliasesMapped(q)
    {
      AliasTableSnoc(p.aliasToIP, p.commands, i, addrs);
      var c := p.commands[i];
      if c.HostAlias? {
        var r, local := MatchInterfaces(q, c.ip, c.host, addrs);
        AliasesAfterMatch(q, r, c.host, local);
        AliasNamesStep(p.aliases, p.commands, i, addrs, q.aliases, r.aliases);
        assert r.aliases[..|p.aliases|] == q.aliases[..|q.aliases|][..|p.aliases|];
        q := r;
        if local {
          commands := commands[i := HostAlias(c.ip, c.host, true)];
        }
      } else {
        AliasNamesStep(p.aliases, p.commands, i, addrs, q.aliases, q.aliases);
      }
      i := i + 1;
    }
    assert p.commands[..i] == p.commands;
    q := q.(commands := commands);
    AliasTableCarries(p.aliasToIP, p.commands, addrs);
  }

  /** The alias names after one more command: those before, and the command's
      alias when it is local. */
  lemma AliasNamesStep(names: seq<string>, cs: seq<LegacyCommand>, i: nat, addrs: seq<InterfaceAddr>,
                       before: seq<string>, after: seq<string>)
    requires i < |cs|
    requires forall h :: h in before <==> h in names || exists k :: 0 <= k < i && LocalAliasOf(cs[k], h, addrs)
    requires forall h :: h in after <==> h in before || LocalAliasOf(cs[i], h, addrs)
    ensures forall h :: h in after <==> h in names || exists k :: 0 <= k < i + 1 && LocalAliasOf(cs[k], h, addrs)
  {
  }

  /** Every entry of the alias table is an old one or an address of this machine. */
  lemma {:induction false} AliasTableCarries(m: map<string, string>, cs: seq<LegacyCommand>, addrs: seq<InterfaceAddr>)
    ensures var t := AliasTable(m, cs, addrs);
            forall h :: h in t ==> (h in m && t[h] == m[h]) || Carries(addrs, t[h])
    decreases |cs|
  {
    if |cs| > 0 {
      AliasTableCarries(m, cs[..|cs| - 1], addrs);
    }
  }

  /** The alias table after the commands `cs`, starting from `m`: an alias
      command whose ip is the text of an address of this machine maps its
      alias to that ip, a later command overriding an earlier one. */
  function AliasTable(m: map<string, string>, cs: seq<LegacyCommand>, addrs: seq<InterfaceAddr>)
    : map<string, string>
    decreases |cs|
  {
    if |cs| == 0 then m
    else
      var c := cs[|cs| - 1];
      var t := AliasTable(m, cs[..|cs| - 1], addrs);
      if c.HostAlias? && Carries(addrs, c.ip) then t[c.host := c.ip] else t
  }

  lemma AliasTableSnoc(m: map<string, string>, cs: seq<LegacyCommand>, i: nat, addrs: seq<InterfaceAddr>)
    requires i < |cs|
    ensures var c := cs[i];
            var t := AliasTable(m, cs[..i], addrs);
            AliasTable(m, cs[..i + 1], addrs) == if c.HostAlias? && Carries(addrs, c.ip) then t[c.host := c.ip] else t
  {
    assert cs[..i + 1][..i] == cs[..i];
  }

  lemma {:induction false} AliasTableOfNoAddrs(m: map<string, string>, cs: seq<LegacyCommand>)
    ensures AliasTable(m, cs, []) == m
    decreases |cs|
  {
    if |cs| > 0 {
      AliasTableOfNoAddrs(m, cs[..|cs| - 1]);
    }
  }

  /** A name is in the alias table iff it was before or some command declares
      it as a local alias. */
  lemma {:induction false} AliasTableKeys(m: map<string, string>, cs: seq<LegacyCommand>,
                                         addrs: seq<InterfaceAddr>, h: string)
    ensures h in AliasTable(m, cs, addrs) <==>
      h in m || exists k :: 0 <= k < |cs| && LocalAliasOf(cs[k], h, addrs)
    decreases |cs|
  {
    if |cs| > 0 {
      var n := |cs| - 1;
      AliasTableKeys(m, cs[..n], addrs, h);
      if exists k :: 0 <= k < |cs| && LocalAliasOf(cs[k], h, addrs) {
        var k :| 0 <= k < |cs| && LocalAliasOf(cs[k], h, addrs);
        if k < n {
          assert cs[..n][k] == cs[k];
        }
      }
      if exists k :: 0 <= k < n && LocalAliasOf(cs[..n][k], h, addrs) {
        var k :| 0 <= k < n && LocalAliasOf(cs[..n][k], h, addrs);
        assert cs[k] == cs[..n][k];
      }
    }
  }

  /** A local alias maps to the ip of the last command declaring it; a name no
      command declares keeps the address it had. */
  lemma {:induction false} AliasTableValue(m: map<string, string>, cs: seq<LegacyCommand>,
                                          addrs: seq<InterfaceAddr>, h: string, k: int)
    requires -1 <= k < |cs|
    requires k >= 0 ==> LocalAliasOf(cs[k], h, addrs)
    requires k < 0 ==> h in m
    requires forall j :: k < j < |cs| ==> !LocalAliasOf(cs[j], h, addrs)
    ensures h in AliasTable(m, cs, addrs)
    ensures AliasTable(m, cs, addrs)[h] == if k >= 0 then cs[k].ip else m[h]
    decreases |cs|
  {
    if |cs| > 0 {
      var n := |cs| - 1;
      if k < n {
        forall j | k < j < n
          ensures !LocalAliasOf(cs[..n][j], h, addrs)
        {
          assert cs[..n][j] == cs[j];
        }
        if k >= 0 {
          assert cs[..n][k] == cs[k];
        }
        AliasTableValue(m, cs[..n], addrs, h, k);
        assert !LocalAliasOf(cs[n], h, addrs);
      }
    }
  }

  // ---------------------------------------------------------------------
  // ProcessHostServiceCommands
  // ---------------------------------------------------------------------

  /** CurrentHostIs: the host is one of the aliases of this machine. */
  method CurrentHostIs(p: Parser, host: string) returns (b: bool)
    ensures b <==> host in p.aliases
  {
    var i := 0;
    while i < |p.aliases|
      invariant 0 <= i <= |p.aliases|
      invariant forall k :: 0 <= k < i ==> p.aliases[k] != host
    {
      if host == p.aliases[i] {
        return true;
      }
      i := i + 1;
    }
    return false;
  }

  /** net.JoinHostPort: a host with a colon in it (an IPv6 address) is bracketed. */
  function JoinHostPort(host: string, port: string): string {
    if ':' in host then "[" + host + "]:" + port else host + ":" + port
  }

  /** The last colon of the joined address separates the port from the
      host, which is recovered by removing the brackets it may have got. */
  lemma JoinHostPortSplits(host: string, port: string)
    requires ':' !in port
    ensures var a := JoinHostPort(host, port);
            var k := |a| - |port| - 1;
            0 <= k && a[k] == ':' && a[k + 1..] == port &&
            (if ':' in host then a[..k] == "[" + host + "]" else a[..k] == host)
  {
  }

  /** The address at which the service of an alias of this machine is dialled. */
  function DialAddress(p: Parser, c: LegacyCommand): string
    requires c.HostService? && c.host in p.aliasToIP
  {
    JoinHostPort(p.aliasToIP[c.host], Itoa(c.port))
  }

  /** A service of an alias of this machine. */
  predicate LocalService(p: Parser, c: LegacyCommand) {
    c.HostService? && c.host in p.aliases
  }

  lemma LocalServiceMapped(p: Parser, c: LegacyCommand)
    requires AliasesMapped(p) && LocalService(p, c)
    ensures c.host in p.aliasToIP
  {
    var k :| 0 <= k < |p.aliases| && p.aliases[k] == c.host;
  }

  /** The answer of dialling a local service: none on success, the error otherwise. */
  function DialResult(p: Parser, c: LegacyCommand, dial: string -> Option<string>): Option<string>
    requires AliasesMapped(p) && LocalService(p, c)
  {
    LocalServiceMapped(p, c);
    dial(DialAddress(p, c))
  }

  /** A command after processing: a service of an alias of this machine is
      local, carries the dial error, and is available iff the dial succeeded. */
  function Served(p: Parser, c: LegacyCommand, dial: string -> Option<string>): LegacyCommand
    requires AliasesMapped(p)
  {
    if LocalService(p, c)
    then var e := DialResult(p, c, dial); c.(isLocalHost := true, available := e.None?, err := e)
    else c
  }

  /** The errors of the failed dials, in command order. */
  function DialErrors(p: Parser, cs: seq<LegacyCommand>, dial: string -> Option<string>): seq<string>
    requires AliasesMapped(p)
    decreases |cs|
  {
    if |cs| == 0 then []
    else
      var c := cs[|cs| - 1];
      DialErrors(p, cs[..|cs| - 1], dial)
        + (if LocalService(p, c) && DialResult(p, c, dial).Some? then [DialResult(p, c, dial).value] else [])
  }

  lemma DialErrorsSnoc(p: Parser, cs: seq<LegacyCommand>, i: nat, dial: string -> Option<string>)
    requires AliasesMapped(p) && i < |cs|
    ensures var c := cs[i];
            DialErrors(p, cs[..i + 1], dial) == DialErrors(p, cs[..i], dial)
              + (if LocalService(p, c) && DialResult(p, c, dial).Some? then [DialResult(p, c, dial).value] else [])
  {
    assert cs[..i + 1][..i] == cs[..i];
  }

  /** Serving a local service dials its alias's address and records the answer. */
  lemma ServedLocal(p: Parser, c: LegacyCommand, dial: string -> Option<string>)
    requires AliasesMapped(p) && LocalService(p, c)
    ensures c.host in p.aliasToIP
    ensures var e := dial(JoinHostPort(p.aliasToIP[c.host], Itoa(c.port)));
            DialResult(p, c, dial) == e &&
            Served(p, c, dial) == c.(isLocalHost := true, available := e.None?, err := e)
  {
    LocalServiceMapped(p, c);
  }

  /** Any other command is left as it is. */
  lemma ServedElsewhere(p: Parser, c: LegacyCommand, dial: string -> Option<string>)
    requires AliasesMapped(p) && !LocalService(p, c)
    ensures Served(p, c, dial) == c
  {
  }

  /** ProcessHostServiceCommands: every service of an alias of this machine
      is dialled; a failed dial's error is added to the parser's errors. */
  method ProcessHostServiceCommands(p: Parser, dial: string -> Option<string>) returns (q: Parser)
    requires AliasesMapped(p)
    ensures q.hostname == p.hostname && q.aliases == p.aliases && q.aliasToIP == p.aliasToIP
    ensures |q.commands| == |p.commands|
    ensures forall i :: 0 <= i < |p.commands| ==> q.commands[i] == Served(p, p.commands[i], dial)
    ensures q.errors == p.errors + DialErrors(p, p.commands, dial)
  {
    var commands := p.commands;
    var errors := p.errors;
    var i := 0;
    while i < |p.commands|
      invariant 0 <= i <= |p.commands|
      invariant |commands| == |p.commands|
      invariant forall k :: 0 <= k < i ==> commands[k] == Served(p, p.commands[k], dial)
      invariant forall k :: i <= k < |p.commands| ==> commands[k] == p.commands[k]
      invariant errors == p.errors + DialErrors(p, p.commands[..i], dial)
    {
      DialErrorsSnoc(p, p.commands, i, dial);
      var c := p.commands[i];
      if c.HostService? {
        var here := CurrentHostIs(p, c.host);
        if here {
          ServedLocal(p, c, dial);
          var e := dial(JoinHostPort(p.aliasToIP[c.host], Itoa(c.port)));
          if e.Some? {
            errors := errors + [e.value];
          }
          commands := commands[i := c.(isLocalHost := true, available := e.None?, err := e)];
        } else {
          ServedElsewhere(p, c, dial);
        }
      } else {
        ServedElsewhere(p, c, dial);
      }
      i := i + 1;
    }
    assert p.commands[..i] == p.commands;
    q := p.(commands := commands, errors := errors);
  }

  // ---------------------------------------------------------------------
  // TotalErrors
  // ---------------------------------------------------------------------

  /** The local services found unavailable. */
  function Unavailable(cs: seq<LegacyCommand>): nat
    decreases |cs|
  {
    if |cs| == 0 then 0
    else
      var c := cs[|cs| - 1];
      Unavailable(cs[..|cs| - 1]) + (if c.HostService? && c.isLocalHost && !c.available then 1 else 0)
  }

  /** TotalErrors: the unavailable local services plus the recorded errors. */
  function TotalErrors(p: Parser): nat {
    Unavailable(p.commands) + |p.errors|
  }

  lemma {:induction false} UnavailableServed(p: Parser, q: Parser, n: nat, dial: string -> Option<string>)
    requires AliasesMapped(p) && n <= |p.commands| == |q.commands|
    requires forall i :: 0 <= i < |p.commands| ==> Fresh(p.commands[i])
    requires forall i :: 0 <= i < |p.commands| ==> q.commands[i] == Served(p, p.commands[i], dial)
    ensures Unavailable(q.commands[..n]) == |DialErrors(p, p.commands[..n], dial)|
    decreases n
  {
    if n > 0 {
      assert q.commands[..n][..n - 1] == q.commands[..n - 1];
      assert p.commands[..n][..n - 1] == p.commands[..n - 1];
      UnavailableServed(p, q, n - 1, dial);
    }
  }

  /** Once freshly parsed commands are processed, every failed dial is
      counted twice: once as an unavailable local service and once as a
      recorded error. */
  lemma TotalErrorsCountsFailedDialsTwice(p: Parser, q: Parser, dial: string -> Option<string>)
    requires AliasesMapped(p) && |q.commands| == |p.commands|
    requires forall i :: 0 <= i < |p.commands| ==> Fresh(p.commands[i])
    requires forall i :: 0 <= i < |p.commands| ==> q.commands[i] == Served(p, p.commands[i], dial)
    requires q.errors == p.errors + DialErrors(p, p.commands, dial)
    ensures TotalErrors(q) == |p.errors| + 2 * |DialErrors(p, p.commands, dial)|
  {
    UnavailableServed(p, q, |p.commands|, dial);
    assert q.commands[..|p.commands|] == q.commands;
    assert p.commands[..|p.commands|] == p.commands;
  }

  // ---------------------------------------------------------------------
  // SummaryMarkup
  // ---------------------------------------------------------------------

  const HostnameLabel: string := "Hostname: "

  /** How one error is shown: on its own line, after a line feed and a carriage return. */
  function ErrorLine(e: string): string {
    "\n\rERROR: " + e
  }

  function ErrorLines(es: seq<string>): string {
    Join(MapSeq(ErrorLine, es))
  }

  /** SummaryMarkup: processes the commands, then shows the host name
      followed by one line per error, in the order the errors were recorded.
      `a` is the parser after its alias commands, `q` after its service
      commands as well: the errors shown are the parser's own, then those of
      the failed dials of the services of `a`'s aliases, in command order. */
  method SummaryMarkup(p: Parser, intf: Result<seq<InterfaceAddr>, string>, dial: string -> Option<string>)
    returns (a: Parser, q: Parser, markup: string)
    requires AliasesMapped(p)
    ensures a.hostname == p.hostname && a.errors == p.errors
    ensures |a.commands| == |p.commands|
    ensures forall i :: 0 <= i < |p.commands| ==> a.commands[i] == MarkAlias(p.commands[i], Addrs(intf))
    ensures forall h :: h in a.aliases <==>
      h in p.aliases || exists i :: 0 <= i < |p.commands| && LocalAliasOf(p.commands[i], h, Addrs(intf))
    ensures a.aliasToIP == AliasTable(p.aliasToIP, p.commands, Addrs(intf)) && AliasesMapped(a)
    ensures q.hostname == p.hostname && q.aliases == a.aliases && q.aliasToIP == a.aliasToIP
    ensures |q.commands| == |p.commands|
    ensures forall i :: 0 <= i < |p.commands| ==> q.commands[i] == Served(a, a.commands[i], dial)
    ensures q.errors == p.errors + DialErrors(a, a.commands, dial)
    ensures markup == HostnameLabel + p.hostname + ErrorLines(q.errors)
  {
    a := ProcessHostAliasCommands(p, intf);
    q := ProcessHostServiceCommands(a, dial);
    markup := ShowErrors(HostnameLabel + q.hostname, q.errors);
  }

  /** The buffer of SummaryMarkup: `head`, then each error on its own line. */
  method ShowErrors(head: string, es: seq<string>) returns (out: string)
    ensures out == head + ErrorLines(es)
  {
    out := head;
    var i := 0;
    while i < |es|
      invariant 0 <= i <= |es|
      invariant out == head + ErrorLines(es[..i])
    {
      ErrorLinesSnoc(es, i);
      out := out + ErrorLine(es[i]);
      i := i + 1;
    }
    assert es[..i] == es;
  }

  lemma ErrorLinesSnoc(es: seq<string>, i: nat)
    requires i < |es|
    ensures ErrorLines(es[..i + 1]) == ErrorLines(es[..i]) + ErrorLine(es[i])
  {
    TakeSnoc(es, i);
    MapSeqSnoc(ErrorLine, es[..i], es[i]);
    JoinSnoc(MapSeq(ErrorLine, es[..i]), ErrorLine(es[i]));
  }

  /** Error `i` is shown at a fixed place: after the host name and the lines of the errors before it. */
  lemma ErrorPlacement(hostname: string, es: seq<string>, i: nat)
    requires i < |es|
    ensures var lines := MapSeq(ErrorLine, es);
            var at := |HostnameLabel + hostname| + |Join(lines[..i])|;
            at + |lines[i]| <= |HostnameLabel + hostname + ErrorLines(es)| &&
            (HostnameLabel + hostname + ErrorLines(es))[at..at + |lines[i]|] == ErrorLine(es[i])
  {
    JoinPlacement(HostnameLabel + hostname, MapSeq(ErrorLine, es), "", i);
    assert HostnameLabel + hostname + ErrorLines(es) + "" == HostnameLabel + hostname + ErrorLines(es);
  }

  /** The markup shows errors iff some were recorded. */
  lemma {:induction false} ErrorLinesEmptyIff(es: seq<string>)
    ensures ErrorLines(es) == "" <==> |es| == 0
    decreases |es|
  {
    if |es| > 0 {
      var init := es[..|es| - 1];
      MapSeqSnoc(ErrorLine, init, es[|es| - 1]);
      assert es == init + [es[|es| - 1]];
      JoinSnoc(MapSeq(ErrorLine, init), ErrorLine(es[|es| - 1]));
    }
  }

  /** A parser whose host name could not be resolved shows an empty name
      and that failure as its first error line. */
  lemma UnresolvedHostnameShown(es: seq<string>)
    requires |es| > 0 && es[0] == HostnameError
    ensures var shown := HostnameLabel + "" + ErrorLines(es);
            |HostnameLabel| + |ErrorLine(HostnameError)| <= |shown| &&
            shown[..|HostnameLabel| + |ErrorLine(HostnameError)|] == HostnameLabel + ErrorLine(HostnameError)
  {
    var lines := MapSeq(ErrorLine, es);
    JoinAround(lines, 0);
    assert lines[..0] == [];
    var shown := HostnameLabel + "" + ErrorLines(es);
    assert shown == (HostnameLabel + ErrorLine(HostnameError)) + Join(lines[1..]);
  }
}
