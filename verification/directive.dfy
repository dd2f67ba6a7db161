/** The flower directive parser of flower/parser.go: a line is tried
    against the `local_service` and `remote_service` patterns, the named
    groups of the first pattern that matches are collected into a map, and
    a service command is built from that map. */
module Directive {
  import opened Wrappers
  import opened Chars
  import opened Grammar
  import opened Matching
  import opened ServiceCmd

  /** Default ports of the well-known services. */
  const ServicePort: map<string, int> := map["http" := 80, "smtp" := 25]

  /** The keys of the pattern table. */
  datatype CommandName = LocalService | RemoteService

  /** Go ranges over the pattern table in an unspecified order: the order is
      a parameter of the model. */
  datatype MapOrder = LocalFirst | RemoteFirst

  function Tried(order: MapOrder): (names: (CommandName, CommandName))
    ensures names.0 != names.1
  {
    match order
    case LocalFirst => (LocalService, RemoteService)
    case RemoteFirst => (RemoteService, LocalService)
  }

  /** The named groups of a match, as `ReplaceAllString(line, "${name}")`
      computes them for an anchored pattern: the group's text, or "" for a
      group that did not take part.  Unnamed groups have the name "", whose
      template "${}" is malformed and expands to itself. */
  type Params = map<string, string>

  const Unnamed: string := "${}"

  /** The optional port group: "" when absent, the digits after the colon otherwise. */
  function PortText(s: string, se: nat, pe: nat): (t: string)
    requires PortOk(s, se, pe) && se <= pe <= |s|
    ensures t == "" <==> pe == se
    ensures t != "" ==> IsDigits(t)
  {
    if pe == se then "" else s[se + 1..pe]
  }

  function OffersParams(s: string, lead: Class, m: OffersSpan): Params
    requires IsOffersSpan(s, lead, m)
  {
    map["" := Unnamed,
        "host" := s[m.leadStart..m.leadEnd],
        "service" := s[m.serviceStart..m.serviceEnd],
        "port" := PortText(s, m.serviceEnd, m.portEnd)]
  }

  function UsesParams(s: string, m: UsesSpan): Params
    requires IsUsesSpan(s, m)
  {
    map["" := Unnamed,
        "local" := s[m.leadStart..m.leadEnd],
        "service" := s[m.serviceStart..m.serviceEnd],
        "port" := PortText(s, m.serviceEnd, m.portEnd),
        "remote" := s[m.remoteStart..m.remoteEnd]]
  }

  /** The parameters of `line` under the named pattern, if it matches. */
  function Captures(name: CommandName, line: string): Option<Params> {
    match name
    case LocalService =>
      (match MatchOffers(line, NonSpace)
       case None => None
       case Some(m) => MatchOffersSound(line, NonSpace); Some(OffersParams(line, NonSpace, m)))
    case RemoteService =>
      (match MatchUses(line)
       case None => None
       case Some(m) => MatchUsesSound(line); Some(UsesParams(line, m)))
  }

  /** The port of a directive: the default port of the service (0 for an
      unknown one) when no port is written, the written port otherwise. */
  function PortOf(p: Params): (r: Result<int, string>)
    ensures r.Success? ==> MinInt <= r.value <= MaxInt
    ensures GetOr(p, "port", "") == "" && GetOr(p, "service", "") in ServicePort ==>
      r == Success(ServicePort[GetOr(p, "service", "")])
    ensures GetOr(p, "port", "") == "" && GetOr(p, "service", "") !in ServicePort ==> r == Success(0)
    ensures IsDigits(GetOr(p, "port", "")) ==>
      (r.Success? <==> DigitsValue(p["port"]) <= MaxInt) &&
      (r.Success? ==> r.value == DigitsValue(p["port"]))
  {
    var port := GetOr(p, "port", "");
    if port == "" then Success(GetOr(ServicePort, GetOr(p, "service", ""), 0)) else Atoi(port)
  }

  /** BuildCommand: a fresh service command, or none when the written port
      does not convert. */
  function BuildCommand(name: CommandName, p: Params): (r: Option<ServiceCommand>)
    ensures r.Some? ==> Unexecuted(r.value) && r.value.service == GetOr(p, "service", "")
    ensures r.Some? && name == LocalService ==>
      r.value.host == GetOr(p, "host", "") && r.value.caller == GetOr(p, "host", "")
    ensures r.Some? && name == RemoteService ==>
      r.value.host == GetOr(p, "remote", "") && r.value.caller == GetOr(p, "local", "")
    ensures GetOr(p, "port", "") == "" ==>
      r.Some? && r.value.port == GetOr(ServicePort, GetOr(p, "service", ""), 0)
    ensures IsDigits(GetOr(p, "port", "")) ==>
      (r.Some? <==> DigitsValue(p["port"]) <= MaxInt) &&
      (r.Some? ==> r.value.port == DigitsValue(p["port"]))
    ensures r.Some? ==> MinInt <= r.value.port <= MaxInt
  {
    match PortOf(p)
    case Failure(_) => None
    case Success(port) =>
      var service := GetOr(p, "service", "");
      match name
      case LocalService => Some(NewServiceCommand(GetOr(p, "host", ""), service, port, GetOr(p, "host", "")))
      case RemoteService => Some(NewServiceCommand(GetOr(p, "remote", ""), service, port, GetOr(p, "local", "")))
  }

  /** Parse: the command built from the first pattern (in `order`) that
      matches the line; none when no pattern matches. */
  function Parse(line: string, order: MapOrder): (r: Option<ServiceCommand>)
    ensures r.Some? ==> Unexecuted(r.value)
    ensures !HasPrefix(line) ==> r.None?
  {
    var (first, second) := Tried(order);
    match Captures(first, line)
    case Some(p) => BuildCommand(first, p)
    case None =>
      match Captures(second, line)
      case Some(p) => BuildCommand(second, p)
      case None => None
  }

  // ---------------------------------------------------------------------
  // What a parsed line means
  // ---------------------------------------------------------------------

  /** The port a directive denotes: the default when none is written. */
  function DenotedPort(s: string, service: string, se: nat, pe: nat): int
    requires PortOk(s, se, pe) && se <= pe <= |s|
  {
    if pe == se then GetOr(ServicePort, service, 0) else DigitsValue(s[se + 1..pe])
  }

  /** An offers line (when the uses pattern is not tried first on it) yields a
      command for the reported host, which is also the caller; it yields none
      only when the written port exceeds the 64-bit range. */
  lemma ParseOffersLine(line: string, order: MapOrder, m: OffersSpan)
    requires IsLongestOffers(line, NonSpace, m)
    requires order == LocalFirst || forall u :: !IsUsesSpan(line, u)
    ensures var service := line[m.serviceStart..m.serviceEnd];
            var port := DenotedPort(line, service, m.serviceEnd, m.portEnd);
            Parse(line, order) == (if port <= MaxInt
                                   then Some(NewServiceCommand(line[m.leadStart..m.leadEnd], service, port,
                                                               line[m.leadStart..m.leadEnd]))
                                   else None)
  {
    MatchOffersIsLeftmostFirst(line, NonSpace, m);
    if order == RemoteFirst {
      MatchUsesFailsIffNoSpan(line);
    }
    assert Captures(LocalService, line) == Some(OffersParams(line, NonSpace, m));
    assert Parse(line, order) == BuildCommand(LocalService, OffersParams(line, NonSpace, m));
    OffersCommand(line, m);
  }

  /** The command built from an offers match. */
  lemma OffersCommand(line: string, m: OffersSpan)
    requires IsOffersSpan(line, NonSpace, m)
    ensures var service := line[m.serviceStart..m.serviceEnd];
            var port := DenotedPort(line, service, m.serviceEnd, m.portEnd);
            BuildCommand(LocalService, OffersParams(line, NonSpace, m))
              == (if port <= MaxInt
                  then Some(NewServiceCommand(line[m.leadStart..m.leadEnd], service, port,
                                              line[m.leadStart..m.leadEnd]))
                  else None)
  {
    var p := OffersParams(line, NonSpace, m);
    assert p["host"] == line[m.leadStart..m.leadEnd] && p["service"] == line[m.serviceStart..m.serviceEnd];
    assert p["port"] == PortText(line, m.serviceEnd, m.portEnd);
  }

  /** A uses line (when the offers pattern is not tried first on it) yields a
      command whose host is the remote name and whose caller is the local
      name; none only when the written port exceeds the 64-bit range. */
  lemma ParseUsesLine(line: string, order: MapOrder, m: UsesSpan)
    requires IsLongestUses(line, m)
    requires order == RemoteFirst || forall o :: !IsOffersSpan(line, NonSpace, o)
    ensures var service := line[m.serviceStart..m.serviceEnd];
            var port := DenotedPort(line, service, m.serviceEnd, m.portEnd);
            Parse(line, order) == (if port <= MaxInt
                                   then Some(NewServiceCommand(line[m.remoteStart..m.remoteEnd], service, port,
                                                               line[m.leadStart..m.leadEnd]))
                                   else None)
  {
    MatchUsesIsLeftmostFirst(line, m);
    if order == LocalFirst {
      MatchOffersFailsIffNoSpan(line, NonSpace);
    }
    assert Captures(RemoteService, line) == Some(UsesParams(line, m));
    assert Parse(line, order) == BuildCommand(RemoteService, UsesParams(line, m));
    UsesCommand(line, m);
  }

  /** The command built from a uses match. */
  lemma UsesCommand(line: string, m: UsesSpan)
    requires IsUsesSpan(line, m)
    ensures var service := line[m.serviceStart..m.serviceEnd];
            var port := DenotedPort(line, service, m.serviceEnd, m.portEnd);
            BuildCommand(RemoteService, UsesParams(line, m))
              == (if port <= MaxInt
                  then Some(NewServiceCommand(line[m.remoteStart..m.remoteEnd], service, port,
                                              line[m.leadStart..m.leadEnd]))
                  else None)
  {
    var p := UsesParams(line, m);
    assert p["local"] == line[m.leadStart..m.leadEnd] && p["remote"] == line[m.remoteStart..m.remoteEnd];
    assert p["service"] == line[m.serviceStart..m.serviceEnd] && p["port"] == PortText(line, m.serviceEnd, m.portEnd);
  }

  /** A line that fits neither pattern yields no command. */
  lemma ParseNeedsAMatch(line: string, order: MapOrder)
    requires forall o :: !IsOffersSpan(line, NonSpace, o)
    requires forall u :: !IsUsesSpan(line, u)
    ensures Parse(line, order).None?
  {
    MatchOffersFailsIffNoSpan(line, NonSpace);
    MatchUsesFailsIffNoSpan(line);
  }

  /** The order of the pattern table matters only on lines both patterns match. */
  lemma ParseOrderMattersOnlyWhenAmbiguous(line: string)
    requires Parse(line, LocalFirst) != Parse(line, RemoteFirst)
    ensures exists o :: IsOffersSpan(line, NonSpace, o)
    ensures exists u :: IsUsesSpan(line, u)
  {
    MatchOffersFailsIffNoSpan(line, NonSpace);
    MatchUsesFailsIffNoSpan(line);
  }

  /** A non-empty run of `cls` characters. */
  predicate Token(t: string, cls: Class) {
    |t| > 0 && AllIn(t, 0, |t|, cls)
  }

  /** The captured names are tokens and the port, if written, is digits. */
  predicate TokenParams(name: CommandName, p: Params) {
    && "service" in p && Token(p["service"], Word)
    && "port" in p && (p["port"] == "" || IsDigits(p["port"]))
    && (name == LocalService ==> "host" in p && Token(p["host"], NonSpace))
    && (name == RemoteService ==>
          "local" in p && Token(p["local"], NonSpace) && "remote" in p && Token(p["remote"], NonSpace))
  }

  lemma TokenSlice(s: string, i: nat, j: nat, cls: Class)
    requires i < j && AllIn(s, i, j, cls)
    ensures Token(s[i..j], cls)
  {
  }

  lemma CapturesAreTokens(name: CommandName, line: string)
    requires Captures(name, line).Some?
    ensures TokenParams(name, Captures(name, line).value)
  {
    match name
    case LocalService =>
      MatchOffersSound(line, NonSpace);
      var m := MatchOffers(line, NonSpace).value;
      TokenSlice(line, m.leadStart, m.leadEnd, NonSpace);
      TokenSlice(line, m.serviceStart, m.serviceEnd, Word);
    case RemoteService =>
      MatchUsesSound(line);
      var m := MatchUses(line).value;
      TokenSlice(line, m.leadStart, m.leadEnd, NonSpace);
      TokenSlice(line, m.remoteStart, m.remoteEnd, NonSpace);
      TokenSlice(line, m.serviceStart, m.serviceEnd, Word);
  }

  /** A parsed command names a non-empty host and caller without spaces, a
      non-empty service of word characters, and a port in [0, MaxInt]. */
  lemma ParsedFieldsAreTokens(line: string, order: MapOrder)
    requires Parse(line, order).Some?
    ensures var c := Parse(line, order).value;
            Token(c.host, NonSpace) && Token(c.caller, NonSpace) && Token(c.service, Word) && 0 <= c.port <= MaxInt
  {
    var names := Tried(order);
    var name := if Captures(names.0, line).Some? then names.0 else names.1;
    CapturesAreTokens(name, line);
    BuiltFieldsAreTokens(name, Captures(name, line).value);
  }

  lemma BuiltFieldsAreTokens(name: CommandName, p: Params)
    requires TokenParams(name, p) && BuildCommand(name, p).Some?
    ensures var c := BuildCommand(name, p).value;
            Token(c.host, NonSpace) && Token(c.caller, NonSpace) && Token(c.service, Word) && 0 <= c.port <= MaxInt
  {
  }

  // ---------------------------------------------------------------------
  // Worked lines
  // ---------------------------------------------------------------------

  /** A line with an offers span whose host cannot be extended, and no `u`
      after the prefix, parses to that span's command on either order. */
  lemma ParseOffersOnly(line: string, order: MapOrder, m: OffersSpan)
    requires IsOffersSpan(line, NonSpace, m) && IsSpace(line[m.leadEnd])
    requires forall k :: |Prefix| < k < |line| ==> line[k] != 'u'
    ensures var service := line[m.serviceStart..m.serviceEnd];
            var port := DenotedPort(line, service, m.serviceEnd, m.portEnd);
            Parse(line, order) == (if port <= MaxInt
                                   then Some(NewServiceCommand(line[m.leadStart..m.leadEnd], service, port,
                                                               line[m.leadStart..m.leadEnd]))
                                   else None)
  {
    MatchOffersOfMaximalLead(line, NonSpace, m);
    MatchOffersIsLeftmostFirst(line, NonSpace, m);
    NoUsesWithoutU(line);
    ParseOffersLine(line, order, m);
  }

  /** A line with a uses span whose local name cannot be extended, and no `f`
      after the prefix, parses to that span's command on either order. */
  lemma ParseUsesOnly(line: string, order: MapOrder, m: UsesSpan)
    requires IsUsesSpan(line, m) && IsSpace(line[m.leadEnd])
    requires forall k :: |Prefix| < k < |line| ==> line[k] != 'f'
    ensures var service := line[m.serviceStart..m.serviceEnd];
            var port := DenotedPort(line, service, m.serviceEnd, m.portEnd);
            Parse(line, order) == (if port <= MaxInt
                                   then Some(NewServiceCommand(line[m.remoteStart..m.remoteEnd], service, port,
                                                               line[m.leadStart..m.leadEnd]))
                                   else None)
  {
    MatchUsesOfMaximalLead(line, m);
    MatchUsesIsLeftmostFirst(line, m);
    NoOffersWithoutF(line, NonSpace);
    ParseUsesLine(line, order, m);
  }
}
