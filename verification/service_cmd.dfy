/** The service command of flower/service_cmd.go: one directive's
    (host, service, port, caller) plus the state its single execution
    writes (match, result, error).  Every answer the Go code obtains from
    the network (interface addresses, name lookup, port scan) is passed in
    as an oracle, so execution is a pure transition. */
module ServiceCmd {
  import opened Wrappers
  import opened Chars

  /** NO_MATCH = 0, MATCH_HOST = 1, MATCH_CALLER = 2. */
  datatype Match = NoMatch | MatchHost | MatchCaller

  /** NO_ANSWER = 0, ERROR = 1, OK = 2, FAIL = 3. */
  datatype Outcome = NoAnswer | Error | Ok | Fail

  datatype ServiceCommand = ServiceCommand(
    matchKind: Match,    // does this command concern this machine
    result: Outcome,     // what the probe found
    host: string,        // the machine offering the service
    service: string,
    port: int,
    caller: string,      // the machine using the service
    err: Option<string>) // the error of the last failed lookup

  /** A command no execution has written to yet. */
  predicate Unexecuted(c: ServiceCommand) {
    c.matchKind == NoMatch && c.result == NoAnswer && c.err == None
  }

  /** The state every executed fresh command is in: a probe result exactly
      when it concerns this machine, and never ERROR. */
  predicate Settled(c: ServiceCommand) {
    (c.matchKind == NoMatch <==> c.result == NoAnswer) && c.result != Error
  }

  function NewServiceCommand(host: string, service: string, port: int, caller: string): (c: ServiceCommand)
    ensures Unexecuted(c)
    ensures c.host == host && c.service == service && c.port == port && c.caller == caller
  {
    ServiceCommand(NoMatch, NoAnswer, host, service, port, caller, None)
  }

  // ---------------------------------------------------------------------
  // Addresses and the network oracle
  // ---------------------------------------------------------------------

  type Byte = b: int | 0 <= b < 256

  /** A net.IP: 4 bytes (IPv4) or 16 bytes (IPv6). */
  type IP = seq<Byte>

  const V4InV6Prefix: seq<Byte> := [0, 0, 0, 0, 0, 0, 0, 0, 0, 0, 0xff, 0xff]

  /** net.IP.Equal: byte equality, where an IPv4 address equals the same
      address in its 16-byte IPv4-in-IPv6 form. */
  predicate IPEqual(a: IP, b: IP) {
    if |a| == |b| then a == b
    else if |a| == 4 && |b| == 16 then b[..12] == V4InV6Prefix && b[12..] == a
    else if |a| == 16 && |b| == 4 then a[..12] == V4InV6Prefix && a[12..] == b
    else false
  }

  /** What the machine's network answers.  `interfaceAddrs` is net.InterfaceAddrs
      with each address already passed through net.ParseCIDR; `lookupIP` is
      net.LookupIP; `openedPorts(host, lo, hi)` is the port scanner's
      GetOpenedPort on `host` for the range [lo, hi]. */
  datatype Network = Network(
    interfaceAddrs: Result<seq<Result<IP, string>>, string>,
    lookupIP: string -> Result<seq<IP>, string>,
    openedPorts: (string, int, int) -> seq<int>)

  // ---------------------------------------------------------------------
  // HostIsLocalhost
  // ---------------------------------------------------------------------

  /** The inner loop: does some resolved address equal `a`? */
  function AnyEqual(ips: seq<IP>, a: IP): (r: bool)
    ensures r <==> exists j :: 0 <= j < |ips| && IPEqual(ips[j], a)
  {
    if |ips| == 0 then false
    else IPEqual(ips[0], a) || AnyEqual(ips[1..], a)
  }

  /** The outer loop over the interface addresses: the first address that fails
      to parse ends the scan with its error, the first that equals a resolved
      address ends it with true. */
  function ScanAddrs(addrs: seq<Result<IP, string>>, ips: seq<IP>): (r: Result<bool, string>)
    ensures r.Failure? ==> exists i :: 0 <= i < |addrs| && addrs[i] == Failure(r.error)
  {
    if |addrs| == 0 then Success(false)
    else
      match addrs[0]
      case Failure(e) => Failure(e)
      case Success(a) => if AnyEqual(ips, a) then Success(true) else ScanAddrs(addrs[1..], ips)
  }

  /** No address before position `i` ends the scan. */
  predicate PassedBefore(addrs: seq<Result<IP, string>>, ips: seq<IP>, i: nat) {
    forall k :: 0 <= k < i && k < |addrs| ==> addrs[k].Success? && !AnyEqual(ips, addrs[k].value)
  }

  /** HostIsLocalhost: is `host` one of this machine's addresses?  Failing to
      enumerate the interfaces or to resolve the name is an error, never false. */
  function HostIsLocalhost(net: Network, host: string): (r: Result<bool, string>)
    ensures net.interfaceAddrs.Failure? ==> r == Failure(net.interfaceAddrs.error)
    ensures net.interfaceAddrs.Success? && net.lookupIP(host).Failure? ==> r == Failure(net.lookupIP(host).error)
    ensures r.Failure? && net.interfaceAddrs.Success? && net.lookupIP(host).Success? ==>
      exists i :: 0 <= i < |net.interfaceAddrs.value| && net.interfaceAddrs.value[i] == Failure(r.error)
  {
    match net.interfaceAddrs
    case Failure(e) => Failure(e)
    case Success(addrs) =>
      match net.lookupIP(host)
      case Failure(e) => Failure(e)
      case Success(ips) => ScanAddrs(addrs, ips)
  }

  /** The scan's answer is decided by the first address that fails to parse or
      equals a resolved address; with no such address it is false. */
  lemma {:induction false} ScanAddrsFirstDecisive(addrs: seq<Result<IP, string>>, ips: seq<IP>)
    ensures ScanAddrs(addrs, ips) == Success(true) <==>
      exists i :: 0 <= i < |addrs| && PassedBefore(addrs, ips, i) &&
                  addrs[i].Success? && AnyEqual(ips, addrs[i].value)
    ensures ScanAddrs(addrs, ips).Failure? <==>
      exists i :: 0 <= i < |addrs| && PassedBefore(addrs, ips, i) && addrs[i].Failure?
    ensures ScanAddrs(addrs, ips) == Success(false) <==> PassedBefore(addrs, ips, |addrs|)
    decreases |addrs|
  {
    if |addrs| > 0 {
      var rest := addrs[1..];
      ScanAddrsFirstDecisive(rest, ips);
      if addrs[0].Success? && !AnyEqual(ips, addrs[0].value) {
        forall i | 0 <= i < |rest|
          ensures PassedBefore(rest, ips, i) <==> PassedBefore(addrs, ips, i + 1)
        {
          if PassedBefore(rest, ips, i) {
            forall k | 0 <= k < i + 1
              ensures addrs[k].Success? && !AnyEqual(ips, addrs[k].value)
            {
              if k > 0 { assert addrs[k] == rest[k - 1]; }
            }
          }
          if PassedBefore(addrs, ips, i + 1) {
            forall k | 0 <= k < i
              ensures rest[k].Success? && !AnyEqual(ips, rest[k].value)
            {
              assert rest[k] == addrs[k + 1];
            }
          }
        }
        if PassedBefore(rest, ips, |rest|) {
          forall k | 0 <= k < |addrs|
            ensures addrs[k].Success? && !AnyEqual(ips, addrs[k].value)
          {
            if k > 0 { assert addrs[k] == rest[k - 1]; }
          }
        }
        if PassedBefore(addrs, ips, |addrs|) {
          assert PassedBefore(addrs, ips, |rest| + 1);
        }
        if exists i :: 0 <= i < |addrs| && PassedBefore(addrs, ips, i) && addrs[i].Success? && AnyEqual(ips, addrs[i].value) {
          var i :| 0 <= i < |addrs| && PassedBefore(addrs, ips, i) && addrs[i].Success? && AnyEqual(ips, addrs[i].value);
          assert i > 0;
          assert rest[i - 1] == addrs[i];
        }
        if exists i :: 0 <= i < |addrs| && PassedBefore(addrs, ips, i) && addrs[i].Failure? {
          var i :| 0 <= i < |addrs| && PassedBefore(addrs, ips, i) && addrs[i].Failure?;
          assert i > 0;
          assert rest[i - 1] == addrs[i];
        }
      } else {
        assert PassedBefore(addrs, ips, 0);
        assert !PassedBefore(addrs, ips, |addrs|);
      }
    }
  }

  /** When every interface address parses, the scan finds a match iff one exists. */
  lemma ScanAddrsAllParsed(addrs: seq<Result<IP, string>>, ips: seq<IP>)
    requires forall i :: 0 <= i < |addrs| ==> addrs[i].Success?
    ensures ScanAddrs(addrs, ips) == Success(exists i :: 0 <= i < |addrs| && AnyEqual(ips, addrs[i].value))
  {
    if exists i :: 0 <= i < |addrs| && AnyEqual(ips, addrs[i].value) {
      var i :| 0 <= i < |addrs| && AnyEqual(ips, addrs[i].value);
      ScanAddrsFound(addrs, ips, i);
    } else {
      ScanAddrsNotFound(addrs, ips);
    }
  }

  lemma {:induction false} ScanAddrsFound(addrs: seq<Result<IP, string>>, ips: seq<IP>, i: nat)
    requires forall k :: 0 <= k < |addrs| ==> addrs[k].Success?
    requires i < |addrs| && AnyEqual(ips, addrs[i].value)
    ensures ScanAddrs(addrs, ips) == Success(true)
    decreases i
  {
    if !AnyEqual(ips, addrs[0].value) {
      assert addrs[1..][i - 1] == addrs[i];
      ScanAddrsFound(addrs[1..], ips, i - 1);
    }
  }

  lemma {:induction false} ScanAddrsNotFound(addrs: seq<Result<IP, string>>, ips: seq<IP>)
    requires forall k :: 0 <= k < |addrs| ==> addrs[k].Success? && !AnyEqual(ips, addrs[k].value)
    ensures ScanAddrs(addrs, ips) == Success(false)
    decreases |addrs|
  {
    if |addrs| > 0 {
      ScanAddrsNotFound(addrs[1..], ips);
    }
  }

  /** When every interface address parses, the host is local iff one of its
      resolved addresses equals (net.IP.Equal) one of the interface addresses;
      address equality, not containment in the interface's network. */
  lemma HostIsLocalhostIsAddressEquality(net: Network, host: string)
    requires net.interfaceAddrs.Success? && net.lookupIP(host).Success?
    requires forall i :: 0 <= i < |net.interfaceAddrs.value| ==> net.interfaceAddrs.value[i].Success?
    ensures HostIsLocalhost(net, host) == Success(
      exists i, j :: 0 <= i < |net.interfaceAddrs.value| && 0 <= j < |net.lookupIP(host).value| &&
                     IPEqual(net.lookupIP(host).value[j], net.interfaceAddrs.value[i].value))
  {
    ScanAddrsAllParsed(net.interfaceAddrs.value, net.lookupIP(host).value);
  }

  // ---------------------------------------------------------------------
  // Execute
  // ---------------------------------------------------------------------

  /** The directive part of a command, which execution never changes. */
  predicate SameDirective(a: ServiceCommand, b: ServiceCommand) {
    a.host == b.host && a.service == b.service && a.port == b.port && a.caller == b.caller
  }

  /** Execute, given the answers of its network calls: HostIsLocalhost of the
      host, HostIsLocalhost of the caller, and the open ports the scanner
      found on the host in the range [port, port].  A failed lookup stores its
      error and leaves match and result as they were; the host takes
      precedence over the caller; a command that concerns neither machine is
      not probed; the probe passes iff exactly one port is reported open. */
  function Execute(c: ServiceCommand, hostLocal: Result<bool, string>, callerLocal: Result<bool, string>,
                   openPorts: seq<int>): (r: ServiceCommand)
    ensures SameDirective(r, c)
    ensures hostLocal.Failure? ==> r == c.(err := Some(hostLocal.error))
    ensures hostLocal.Success? && callerLocal.Failure? ==> r == c.(err := Some(callerLocal.error))
    ensures hostLocal.Success? && callerLocal.Success? ==>
      && r.err == None
      && (r.matchKind == MatchHost <==> hostLocal.value)
      && (r.matchKind == MatchCaller <==> !hostLocal.value && callerLocal.value)
      && (r.matchKind == NoMatch ==> r.result == c.result)
      && (r.matchKind != NoMatch ==> (r.result == Ok <==> |openPorts| == 1) && r.result in {Ok, Fail})
    ensures r.result == Error ==> c.result == Error
  {
    match (hostLocal, callerLocal)
    case (Failure(e), _) => c.(err := Some(e))
    case (Success(_), Failure(e)) => c.(err := Some(e))
    case (Success(matchHost), Success(matchCaller)) =>
      var probed := if |openPorts| == 1 then Ok else Fail;
      if matchHost then c.(err := None, matchKind := MatchHost, result := probed)
      else if matchCaller then c.(err := None, matchKind := MatchCaller, result := probed)
      else c.(err := None, matchKind := NoMatch)
  }

  /** Execute against a network: both names are resolved against the same
      interface list, and whichever end matched, the scan targets the host. */
  function ExecuteOn(c: ServiceCommand, net: Network): (r: ServiceCommand)
    ensures SameDirective(r, c)
    ensures HostIsLocalhost(net, c.host).Success? && HostIsLocalhost(net, c.caller).Success? && r.matchKind != NoMatch ==>
      (r.result == Ok <==> |net.openedPorts(c.host, c.port, c.port)| == 1)
  {
    Execute(c, HostIsLocalhost(net, c.host), HostIsLocalhost(net, c.caller), net.openedPorts(c.host, c.port, c.port))
  }

  /** Executing a fresh command leaves it settled: it carries a probe result
      iff it concerns this machine, and a failed lookup leaves it unanswered
      rather than marked ERROR. */
  lemma ExecuteSettles(c: ServiceCommand, hostLocal: Result<bool, string>, callerLocal: Result<bool, string>,
                       openPorts: seq<int>)
    requires Unexecuted(c)
    ensures Settled(Execute(c, hostLocal, callerLocal, openPorts))
    ensures hostLocal.Failure? || callerLocal.Failure? ==>
      Execute(c, hostLocal, callerLocal, openPorts).result == NoAnswer
  {
  }

  // ---------------------------------------------------------------------
  // HtmlClass
  // ---------------------------------------------------------------------

  function MatchClass(m: Match): string {
    match m
    case MatchHost => "FLOWER-MATCH"
    case MatchCaller => "FLOWER-MATCH"
    case NoMatch => "FLOWER-NO-MATCH"
  }

  function ResultClass(o: Outcome): string {
    match o
    case NoAnswer => "FLOWER-NO-ANSWER"
    case Error => "FLOWER-ERROR"
    case Ok => "FLOWER-OK"
    case Fail => "FLOWER-FAIL"
  }

  /** The CSS classes of a command: its match class, a space, its result class. */
  function HtmlClass(c: ServiceCommand): string {
    MatchClass(c.matchKind) + " " + ResultClass(c.result)
  }

  /** Two commands get the same classes iff they agree on whether they matched
      and on their result: MATCH_HOST and MATCH_CALLER are not told apart. */
  lemma HtmlClassDistinguishes(a: ServiceCommand, b: ServiceCommand)
    ensures HtmlClass(a) == HtmlClass(b) <==>
      ((a.matchKind == NoMatch) == (b.matchKind == NoMatch) && a.result == b.result)
  {
    var x, y := HtmlClass(a), HtmlClass(b);
    if x == y {
      assert x[7] == y[7];
      assert (a.matchKind == NoMatch) == (b.matchKind == NoMatch);
      assert |ResultClass(a.result)| == |ResultClass(b.result)|;
    }
  }

  // ---------------------------------------------------------------------
  // String
  // ---------------------------------------------------------------------

  function MatchName(m: Match): string {
    match m
    case MatchHost => "MATCH_HOST"
    case MatchCaller => "MATCH_CALLER"
    case NoMatch => "NO_MATCH"
  }

  function OutcomeName(o: Outcome): string {
    match o
    case NoAnswer => "NO_ANSWER"
    case Error => "ERROR"
    case Ok => "OK"
    case Fail => "FAIL"
  }

  /** As written, the service is shown only when it is empty. */
  function ServicePart(c: ServiceCommand): string {
    if c.service == "" then ", service:" + c.service else ""
  }

  function CallerPart(c: ServiceCommand): string {
    if c.caller != "" then ", caller:" + c.caller else ""
  }

  /** Everything before the port's digits. */
  function PortLead(c: ServiceCommand): string {
    "host:" + c.host + ServicePart(c) + ", port:"
  }

  /** Everything after the port's digits; it starts with a comma. */
  function PortTrail(c: ServiceCommand): (t: string)
    ensures |t| > 0 && t[0] == ','
  {
    CallerPart(c) + MatchPart(c)
  }

  /** The match kind's name, then the result part. */
  function MatchPart(c: ServiceCommand): string {
    ", match:" + (MatchName(c.matchKind) + ResultPart(c))
  }

  /** The result's name, then the error text, if any. */
  function ResultPart(c: ServiceCommand): string {
    ", result:" + (OutcomeName(c.result) + (if c.err.Some? then c.err.value else ""))
  }

  /** The text form of a command, as ServiceCommand.String builds it. */
  function String(c: ServiceCommand): (s: string)
    ensures |s| > |PortLead(c)| && s[..|PortLead(c)|] == PortLead(c)
  {
    PortLead(c) + Itoa(c.port) + PortTrail(c)
  }

  /** The text up to (not including) the first comma. */
  function UpToComma(t: string): (r: string)
    ensures |r| <= |t| && r == t[..|r|] && ',' !in r
  {
    if |t| == 0 || t[0] == ',' then "" else [t[0]] + UpToComma(t[1..])
  }

  lemma {:induction false} UpToCommaOf(x: string, y: string)
    requires ',' !in x && |y| > 0 && y[0] == ','
    ensures UpToComma(x + y) == x
    decreases |x|
  {
    if |x| > 0 {
      assert (x + y)[1..] == x[1..] + y;
      UpToCommaOf(x[1..], y);
    }
  }

  lemma {:induction false} NoCommaInDigits(s: string)
    requires AllIn(s, 0, |s|, Digit)
    ensures ',' !in s
    decreases |s|
  {
    if |s| > 0 {
      assert AllIn(s[1..], 0, |s| - 1, Digit);
      NoCommaInDigits(s[1..]);
    }
  }

  /** The port can be read back from the text: the characters after ", port:"
      up to the next comma are its decimal form. */
  lemma StringShowsPort(c: ServiceCommand)
    requires MinInt <= c.port <= MaxInt
    ensures Atoi(UpToComma(String(c)[|PortLead(c)|..])) == Success(c.port)
  {
    AfterLead(PortLead(c), Itoa(c.port), PortTrail(c));
    ItoaHasNoComma(c.port);
    UpToCommaOf(Itoa(c.port), PortTrail(c));
    AtoiOfItoa(c.port);
  }

  lemma AfterLead(a: string, b: string, t: string)
    ensures (a + b + t)[|a|..] == b + t
  {
  }

  lemma ItoaHasNoComma(n: int)
    ensures ',' !in Itoa(n)
  {
    var digits := Itoa(n);
    if n < 0 {
      NoCommaInDigits(digits[1..]);
      assert digits == [digits[0]] + digits[1..];
    } else {
      NoCommaInDigits(digits);
    }
  }

  /** The caller is shown, right after the port, iff it is non-empty. */
  lemma StringShowsCaller(c: ServiceCommand)
    ensures var t := String(c)[|PortLead(c)| + |Itoa(c.port)|..];
            (c.caller != "" <==> ", caller:" <= t) &&
            (c.caller != "" ==> ", caller:" + c.caller <= t)
  {
    AfterLeadAndPort(PortLead(c), Itoa(c.port), PortTrail(c));
    if c.caller == "" {
      assert PortTrail(c) == MatchPart(c);
      assert MatchPart(c)[2] == 'm';
    } else {
      PrefixOfAppend(", caller:", c.caller);
      PrefixOfAppend(CallerPart(c), MatchPart(c));
    }
  }

  lemma AfterLeadAndPort(a: string, b: string, t: string)
    ensures (a + b + t)[|a| + |b|..] == t
  {
  }

  lemma PrefixOfAppend(a: string, b: string)
    ensures a <= a + b
  {
    assert (a + b)[..|a|] == a;
  }

  lemma AppendCancel(a: string, b: string, b': string)
    requires a + b == a + b'
    ensures b == b'
  {
    assert b == (a + b)[|a|..];
    assert b' == (a + b')[|a|..];
  }

  /** Equal texts of two commands that differ only after the port have equal trails. */
  lemma SameTrail(c: ServiceCommand, d: ServiceCommand)
    requires PortLead(c) == PortLead(d) && c.port == d.port && String(c) == String(d)
    ensures PortTrail(c) == PortTrail(d)
  {
    AppendCancel(PortLead(c) + Itoa(c.port), PortTrail(c), PortTrail(d));
  }

  /** The text tells all three match kinds apart (unlike the CSS classes):
      changing the match kind changes the text. */
  lemma StringShowsMatch(c: ServiceCommand, m: Match)
    ensures String(c.(matchKind := m)) == String(c) <==> m == c.matchKind
  {
    var d := c.(matchKind := m);
    if String(d) == String(c) {
      SameTrail(d, c);
      AppendCancel(CallerPart(c), MatchPart(d), MatchPart(c));
      AppendCancel(", match:", MatchName(m) + ResultPart(c), MatchName(c.matchKind) + ResultPart(c));
      MatchNamesDiffer(m, c.matchKind, ResultPart(c));
    }
  }

  lemma MatchNamesDiffer(m: Match, m': Match, t: string)
    requires MatchName(m) + t == MatchName(m') + t
    ensures m == m'
  {
    var j := if MatchName(m)[0] != MatchName(m')[0] then 0 else 6;
    assert (MatchName(m) + t)[j] == MatchName(m)[j];
    assert (MatchName(m') + t)[j] == MatchName(m')[j];
  }

  /** The text tells all four results apart: changing the result changes it. */
  lemma StringShowsResult(c: ServiceCommand, o: Outcome)
    ensures String(c.(result := o)) == String(c) <==> o == c.result
  {
    var d := c.(result := o);
    if String(d) == String(c) {
      SameTrail(d, c);
      AppendCancel(CallerPart(c), MatchPart(d), MatchPart(c));
      AppendCancel(", match:", MatchName(c.matchKind) + ResultPart(d), MatchName(c.matchKind) + ResultPart(c));
      AppendCancel(MatchName(c.matchKind), ResultPart(d), ResultPart(c));
      var e := if c.err.Some? then c.err.value else "";
      AppendCancel(", result:", OutcomeName(o) + e, OutcomeName(c.result) + e);
      OutcomeNamesDiffer(o, c.result, e);
    }
  }

  lemma OutcomeNamesDiffer(o: Outcome, o': Outcome, t: string)
    requires OutcomeName(o) + t == OutcomeName(o') + t
    ensures o == o'
  {
    assert (OutcomeName(o) + t)[0] == OutcomeName(o)[0];
    assert (OutcomeName(o') + t)[0] == OutcomeName(o')[0];
  }

  /** A non-empty service never appears in the text: changing it to another
      non-empty name leaves the text unchanged. */
  lemma StringHidesService(c: ServiceCommand, service: string)
    requires c.service != "" && service != ""
    ensures String(c.(service := service)) == String(c)
  {
  }
}
