/** Directive lines of the kind flower/parser_test.go parses, and what they
    mean: the command each yields, under either visiting order of the
    pattern table, and a line on which the order decides. */
module DirectiveLines {
  import opened Wrappers
  import opened Chars
  import opened Grammar
  import opened Matching
  import opened ServiceCmd
  import opened Directive

  // ---------------------------------------------------------------------
  // Lines written from their parts
  // ---------------------------------------------------------------------

  /** The optional port group as written: nothing, or a colon and the digits. */
  function PortSuffix(port: string): string {
    if port == "" then "" else ":" + port
  }

  predicate PortWritable(port: string) {
    port == "" || IsDigits(port)
  }

  /** The port a line with this service and written port denotes. */
  function PortValue(service: string, port: string): int
    requires PortWritable(port)
  {
    if port == "" then GetOr(ServicePort, service, 0) else DigitsValue(port)
  }

  /** The command a line with these parts should yield: none when the port
      exceeds the 64-bit range. */
  function Expected(host: string, service: string, port: string, caller: string): Option<ServiceCommand>
    requires PortWritable(port)
  {
    var n := PortValue(service, port);
    if n <= MaxInt then Some(NewServiceCommand(host, service, n, caller)) else None
  }

  /** `flower: HOST offers SERVICE[:PORT]`, with single spaces. */
  function OffersText(host: string, service: string, port: string): string {
    "flower: " + host + " offers " + service + PortSuffix(port)
  }

  /** `flower: LOCAL uses SERVICE[:PORT] at REMOTE`, with single spaces. */
  function UsesText(local: string, service: string, port: string, remote: string): string {
    "flower: " + local + " uses " + service + PortSuffix(port) + " at " + remote
  }

  lemma Layout5(a: string, b: string, c: string, d: string, e: string)
    ensures var s := a + b + c + d + e;
            var i1 := |a|; var i2 := i1 + |b|; var i3 := i2 + |c|; var i4 := i3 + |d|;
            |s| == i4 + |e| &&
            s[..i1] == a && s[i1..i2] == b && s[i2..i3] == c && s[i3..i4] == d && s[i4..] == e
  {
  }

  lemma Layout7(a: string, b: string, c: string, d: string, e: string, f: string, g: string)
    ensures var s := a + b + c + d + e + f + g;
            var i1 := |a|; var i2 := i1 + |b|; var i3 := i2 + |c|; var i4 := i3 + |d|;
            var i5 := i4 + |e|; var i6 := i5 + |f|;
            |s| == i6 + |g| &&
            s[..i1] == a && s[i1..i2] == b && s[i2..i3] == c && s[i3..i4] == d && s[i4..i5] == e &&
            s[i5..i6] == f && s[i6..] == g
  {
  }

  /** A token placed in a line makes that stretch of the line a run of its class. */
  lemma TokenPlaced(s: string, i: nat, j: nat, t: string, cls: Class)
    requires i <= j <= |s| && s[i..j] == t && AllIn(t, 0, |t|, cls)
    ensures AllIn(s, i, j, cls)
  {
    forall k | i <= k < j
      ensures In(cls, s[k])
    {
      assert s[k] == t[k - i];
    }
  }

  /** `flower: ` at the start of a line. */
  lemma PrefixPlaced(s: string)
    requires |s| >= 8 && s[..8] == "flower: "
    ensures HasPrefix(s) && IsSpace(s[7]) && AllIn(s, 7, 8, Space)
  {
    assert s[..7] == s[..8][..7];
  }

  /** A keyword between single spaces. */
  lemma KeywordPlaced(s: string, i: nat, kw: string)
    requires i + |kw| + 2 <= |s| && s[i..i + |kw| + 2] == " " + kw + " "
    ensures IsSpace(s[i]) && AllIn(s, i, i + 1, Space) && s[i + 1..i + 1 + |kw|] == kw
    ensures AllIn(s, i + 1 + |kw|, i + 2 + |kw|, Space)
  {
    var w := " " + kw + " ";
    assert s[i] == w[0];
    assert s[i + 1 + |kw|] == w[1 + |kw|];
    forall k | 0 <= k < |kw|
      ensures s[i + 1..i + 1 + |kw|][k] == kw[k]
    {
      assert s[i + 1 + k] == s[i..i + |kw| + 2][1 + k] == w[1 + k];
    }
  }

  /** The written port group, read back: the port it denotes. */
  lemma PortPlaced(s: string, se: nat, pe: nat, service: string, port: string)
    requires PortWritable(port) && se <= pe <= |s| && s[se..pe] == PortSuffix(port)
    ensures PortOk(s, se, pe) && DenotedPort(s, service, se, pe) == PortValue(service, port)
  {
    if port != "" {
      assert s[se] == s[se..pe][0];
      assert s[se + 1..pe] == s[se..pe][1..];
      TokenPlaced(s, se + 1, pe, port, Digit);
    }
  }

  /** Where the parts of an offers line sit. */
  function OffersLayout(host: string, service: string, port: string): OffersSpan {
    var he := 8 + |host|;
    OffersSpan(8, he, he + 1, he + 8, he + 8 + |service|, |OffersText(host, service, port)|)
  }

  /** The offers span of a line written from its parts. */
  lemma OffersTextSpan(host: string, service: string, port: string)
    requires Token(host, NonSpace) && Token(service, Word) && PortWritable(port)
    ensures var s := OffersText(host, service, port);
            var m := OffersLayout(host, service, port);
            m.serviceEnd <= m.portEnd == |s| &&
            IsOffersSpan(s, NonSpace, m) && IsSpace(s[m.leadEnd]) &&
            s[m.leadStart..m.leadEnd] == host && s[m.serviceStart..m.serviceEnd] == service &&
            DenotedPort(s, service, m.serviceEnd, m.portEnd) == PortValue(service, port)
  {
    OffersTextParts(host, service, port);
    OffersSpanOfParts(OffersText(host, service, port), OffersLayout(host, service, port));
  }

  lemma OffersTextParts(host: string, service: string, port: string)
    requires Token(host, NonSpace) && Token(service, Word) && PortWritable(port)
    ensures var s := OffersText(host, service, port);
            var he := 8 + |host|;
            var se := he + 8 + |service|;
            se <= |s| && HasPrefix(s) && AllIn(s, 7, 8, Space) && AllIn(s, 8, he, NonSpace) &&
            IsSpace(s[he]) && AllIn(s, he, he + 1, Space) && s[he + 1..he + 7] == Offers &&
            AllIn(s, he + 7, he + 8, Space) && AllIn(s, he + 8, se, Word) && PortOk(s, se, |s|) &&
            s[8..he] == host && s[he + 8..se] == service &&
            DenotedPort(s, service, se, |s|) == PortValue(service, port)
  {
    OffersTextHead(host, service, port);
    OffersTextTail(host, service, port);
  }

  lemma OffersTextHead(host: string, service: string, port: string)
    requires Token(host, NonSpace)
    ensures var s := OffersText(host, service, port);
            var he := 8 + |host|;
            he + 8 + |service| <= |s| && HasPrefix(s) && AllIn(s, 7, 8, Space) && AllIn(s, 8, he, NonSpace) &&
            IsSpace(s[he]) && AllIn(s, he, he + 1, Space) && s[he + 1..he + 7] == Offers &&
            AllIn(s, he + 7, he + 8, Space) && s[8..he] == host
  {
    var s := OffersText(host, service, port);
    Layout5("flower: ", host, " offers ", service, PortSuffix(port));
    PrefixPlaced(s);
    TokenPlaced(s, 8, 8 + |host|, host, NonSpace);
    KeywordPlaced(s, 8 + |host|, Offers);
  }

  lemma OffersTextTail(host: string, service: string, port: string)
    requires Token(service, Word) && PortWritable(port)
    ensures var s := OffersText(host, service, port);
            var se := 16 + |host| + |service|;
            se <= |s| && AllIn(s, 16 + |host|, se, Word) && PortOk(s, se, |s|) &&
            s[16 + |host|..se] == service && DenotedPort(s, service, se, |s|) == PortValue(service, port)
  {
    var s := OffersText(host, service, port);
    var se := 16 + |host| + |service|;
    Layout5("flower: ", host, " offers ", service, PortSuffix(port));
    TokenPlaced(s, 16 + |host|, se, service, Word);
    PortPlaced(s, se, |s|, service, port);
  }

  /** An offers span from its parts, each of which holds. */
  lemma OffersSpanOfParts(s: string, m: OffersSpan)
    requires m.leadStart == 8 && 8 < m.leadEnd && m.leadEnd + 8 < m.serviceEnd <= m.portEnd == |s|
    requires m.kwStart == m.leadEnd + 1 && m.serviceStart == m.leadEnd + 8
    requires HasPrefix(s) && AllIn(s, 7, 8, Space) && AllIn(s, 8, m.leadEnd, NonSpace)
    requires AllIn(s, m.leadEnd, m.kwStart, Space) && s[m.kwStart..m.kwStart + 6] == Offers
    requires AllIn(s, m.kwStart + 6, m.serviceStart, Space) && AllIn(s, m.serviceStart, m.serviceEnd, Word)
    requires PortOk(s, m.serviceEnd, m.portEnd)
    ensures IsOffersSpan(s, NonSpace, m)
  {
  }

  /** Where the parts of a uses line sit. */
  function UsesLayout(local: string, service: string, port: string, remote: string): UsesSpan {
    var le := 8 + |local|;
    var se := le + 6 + |service|;
    var pe := se + |PortSuffix(port)|;
    UsesSpan(8, le, le + 1, le + 6, se, pe, At(pe + 1), pe + 4, |UsesText(local, service, port, remote)|)
  }

  /** The uses span of a line written from its parts. */
  lemma UsesTextSpan(local: string, service: string, port: string, remote: string)
    requires Token(local, NonSpace) && Token(service, Word) && PortWritable(port) && Token(remote, NonSpace)
    ensures var s := UsesText(local, service, port, remote);
            var m := UsesLayout(local, service, port, remote);
            m.remoteStart <= m.remoteEnd == |s| &&
            IsUsesSpan(s, m) && IsSpace(s[m.leadEnd]) &&
            s[m.leadStart..m.leadEnd] == local && s[m.serviceStart..m.serviceEnd] == service &&
            s[m.remoteStart..m.remoteEnd] == remote &&
            DenotedPort(s, service, m.serviceEnd, m.portEnd) == PortValue(service, port)
  {
    UsesTextIsSpan(local, service, port, remote);
    UsesTextMiddle(local, service, port, remote);
    UsesTextHead(local, service, port, remote);
    UsesTextTail(local, service, port, remote);
  }

  lemma UsesTextIsSpan(local: string, service: string, port: string, remote: string)
    requires Token(local, NonSpace) && Token(service, Word) && PortWritable(port) && Token(remote, NonSpace)
    ensures IsUsesSpan(UsesText(local, service, port, remote), UsesLayout(local, service, port, remote))
  {
    UsesTextHead(local, service, port, remote);
    UsesTextMiddle(local, service, port, remote);
    UsesTextTail(local, service, port, remote);
    UsesSpanOfParts(UsesText(local, service, port, remote), UsesLayout(local, service, port, remote));
  }

  lemma UsesTextHead(local: string, service: string, port: string, remote: string)
    requires Token(local, NonSpace)
    ensures var s := UsesText(local, service, port, remote);
            var m := UsesLayout(local, service, port, remote);
            m.leadStart == 8 && 8 < m.leadEnd && m.kwStart == m.leadEnd + 1 && m.serviceStart == m.leadEnd + 6 &&
            m.serviceStart <= |s| && HasPrefix(s) && AllIn(s, 7, 8, Space) && AllIn(s, 8, m.leadEnd, NonSpace) &&
            IsSpace(s[m.leadEnd]) && AllIn(s, m.leadEnd, m.kwStart, Space) && s[m.kwStart..m.kwStart + 4] == Uses &&
            AllIn(s, m.kwStart + 4, m.serviceStart, Space) && s[m.leadStart..m.leadEnd] == local
  {
    var s := UsesText(local, service, port, remote);
    Layout7("flower: ", local, " uses ", service, PortSuffix(port), " at ", remote);
    PrefixPlaced(s);
    TokenPlaced(s, 8, 8 + |local|, local, NonSpace);
    KeywordPlaced(s, 8 + |local|, Uses);
  }

  lemma UsesTextMiddle(local: string, service: string, port: string, remote: string)
    requires Token(service, Word) && PortWritable(port)
    ensures var s := UsesText(local, service, port, remote);
            var m := UsesLayout(local, service, port, remote);
            m.serviceStart < m.serviceEnd <= m.portEnd <= |s| && m.serviceStart == 14 + |local| &&
            AllIn(s, m.serviceStart, m.serviceEnd, Word) && PortOk(s, m.serviceEnd, m.portEnd) &&
            s[m.serviceStart..m.serviceEnd] == service &&
            DenotedPort(s, service, m.serviceEnd, m.portEnd) == PortValue(service, port)
  {
    var s := UsesText(local, service, port, remote);
    var se := 14 + |local| + |service|;
    Layout7("flower: ", local, " uses ", service, PortSuffix(port), " at ", remote);
    TokenPlaced(s, 14 + |local|, se, service, Word);
    PortPlaced(s, se, se + |PortSuffix(port)|, service, port);
  }

  lemma UsesTextTail(local: string, service: string, port: string, remote: string)
    requires Token(remote, NonSpace)
    ensures var s := UsesText(local, service, port, remote);
            var m := UsesLayout(local, service, port, remote);
            m.sep == At(m.portEnd + 1) && m.remoteStart == m.portEnd + 4 < m.remoteEnd == |s| &&
            AllIn(s, m.portEnd, m.portEnd + 1, Space) && s[m.portEnd + 1..m.portEnd + 3] == AtWord &&
            AllIn(s, m.portEnd + 3, m.remoteStart, Space) && AllIn(s, m.remoteStart, m.remoteEnd, NonSpace) &&
            s[m.remoteStart..m.remoteEnd] == remote
  {
    var s := UsesText(local, service, port, remote);
    var pe := 14 + |local| + |service| + |PortSuffix(port)|;
    Layout7("flower: ", local, " uses ", service, PortSuffix(port), " at ", remote);
    KeywordPlaced(s, pe, AtWord);
    TokenPlaced(s, pe + 4, |s|, remote, NonSpace);
  }

  /** A uses span from its parts, each of which holds. */
  lemma UsesSpanOfParts(s: string, m: UsesSpan)
    requires m.leadStart == 8 && 8 < m.leadEnd && m.kwStart == m.leadEnd + 1 && m.serviceStart == m.leadEnd + 6
    requires m.serviceStart < m.serviceEnd <= m.portEnd && m.sep == At(m.portEnd + 1)
    requires m.remoteStart == m.portEnd + 4 < m.remoteEnd == |s|
    requires HasPrefix(s) && AllIn(s, 7, 8, Space) && AllIn(s, 8, m.leadEnd, NonSpace)
    requires AllIn(s, m.leadEnd, m.kwStart, Space) && s[m.kwStart..m.kwStart + 4] == Uses
    requires AllIn(s, m.kwStart + 4, m.serviceStart, Space) && AllIn(s, m.serviceStart, m.serviceEnd, Word)
    requires PortOk(s, m.serviceEnd, m.portEnd)
    requires AllIn(s, m.portEnd, m.portEnd + 1, Space) && s[m.portEnd + 1..m.portEnd + 3] == AtWord
    requires AllIn(s, m.portEnd + 3, m.remoteStart, Space) && AllIn(s, m.remoteStart, m.remoteEnd, NonSpace)
    ensures IsUsesSpan(s, m)
  {
  }

  /** An offers line written from its parts parses back to them, whatever
      the visiting order: the host offers the service on the written port (or
      the service's default), called from the host.  With single spaces the
      line leaves the uses pattern no separator before its last token. */
  lemma OffersTextParses(host: string, service: string, port: string, order: MapOrder)
    requires Token(host, NonSpace) && Token(service, Word) && PortWritable(port)
    ensures Parse(OffersText(host, service, port), order) == Expected(host, service, port, host)
  {
    OffersTextSpan(host, service, port);
    ParseOfOffersSpan(OffersText(host, service, port), order, OffersLayout(host, service, port), host, service, port);
  }

  /** The step of OffersTextParses that no longer needs the text's shape. */
  lemma ParseOfOffersSpan(s: string, order: MapOrder, m: OffersSpan, host: string, service: string, port: string)
    requires PortWritable(port)
    requires IsOffersSpan(s, NonSpace, m) && IsSpace(s[m.leadEnd])
    requires m.portEnd == |s| && m.serviceStart == m.kwStart + |Offers| + 1
    requires s[m.leadStart..m.leadEnd] == host && s[m.serviceStart..m.serviceEnd] == service
    requires DenotedPort(s, service, m.serviceEnd, m.portEnd) == PortValue(service, port)
    ensures Parse(s, order) == Expected(host, service, port, host)
  {
    MatchOffersOfMaximalLead(s, NonSpace, m);
    MatchOffersIsLeftmostFirst(s, NonSpace, m);
    OffersSpanExcludesUses(s, NonSpace, m);
    ParseOffersLine(s, order, m);
  }

  /** A uses line written from its parts parses back to them, whatever the
      visiting order: the remote offers the service on the written port (or
      the default), called from the local name.  The word `at` before the
      remote leaves the offers pattern no service that ends the line. */
  lemma UsesTextParses(local: string, service: string, port: string, remote: string, order: MapOrder)
    requires Token(local, NonSpace) && Token(service, Word) && PortWritable(port) && Token(remote, NonSpace)
    ensures Parse(UsesText(local, service, port, remote), order) == Expected(remote, service, port, local)
  {
    UsesTextSpan(local, service, port, remote);
    ParseOfUsesSpan(UsesText(local, service, port, remote), order, UsesLayout(local, service, port, remote),
                    local, service, port, remote);
  }

  /** The step of UsesTextParses that no longer needs the text's shape. */
  lemma ParseOfUsesSpan(s: string, order: MapOrder, m: UsesSpan, local: string, service: string, port: string, remote: string)
    requires PortWritable(port)
    requires IsUsesSpan(s, m) && IsSpace(s[m.leadEnd])
    requires m.leadEnd < m.kwStart && m.sep.At? && m.remoteEnd == |s|
    requires s[m.leadStart..m.leadEnd] == local && s[m.remoteStart..m.remoteEnd] == remote
    requires s[m.serviceStart..m.serviceEnd] == service
    requires DenotedPort(s, service, m.serviceEnd, m.portEnd) == PortValue(service, port)
    ensures Parse(s, order) == Expected(remote, service, port, local)
  {
    MatchUsesOfMaximalLead(s, m);
    MatchUsesIsLeftmostFirst(s, m);
    UsesSpanExcludesOffers(s, NonSpace, m);
    ParseUsesLine(s, order, m);
  }

  // ---------------------------------------------------------------------
  // The lines of flower/parser_test.go
  // ---------------------------------------------------------------------

  lemma Value8080()
    ensures IsDigits("8080") && DigitsValue("8080") == 8080
  {
    assert "8080"[..3] == "808" && "808"[..2] == "80" && "80"[..1] == "8";
  }

  /** `flower: HOST1 offers http`: HOST1 offers http on its default port 80. */
  lemma OffersDefaultPort(order: MapOrder)
    ensures Parse(OffersText("HOST1", "http", ""), order) == Some(NewServiceCommand("HOST1", "http", 80, "HOST1"))
  {
    OffersTextParses("HOST1", "http", "", order);
  }

  /** `flower: HOST1 offers http:8080`: the written port. */
  lemma OffersWrittenPort(order: MapOrder)
    ensures Parse(OffersText("HOST1", "http", "8080"), order) == Some(NewServiceCommand("HOST1", "http", 8080, "HOST1"))
  {
    Value8080();
    OffersTextParses("HOST1", "http", "8080", order);
  }

  /** `flower: my.host.name offers http:8080`: a dotted host. */
  lemma OffersDottedHost(order: MapOrder)
    ensures Parse(OffersText("my.host.name", "http", "8080"), order)
         == Some(NewServiceCommand("my.host.name", "http", 8080, "my.host.name"))
  {
    Value8080();
    OffersTextParses("my.host.name", "http", "8080", order);
  }

  /** `flower: HOST1 uses http at HOST2`: HOST2's http on port 80, called from HOST1. */
  lemma UsesDefaultPort(order: MapOrder)
    ensures Parse(UsesText("HOST1", "http", "", "HOST2"), order) == Some(NewServiceCommand("HOST2", "http", 80, "HOST1"))
  {
    UsesTextParses("HOST1", "http", "", "HOST2", order);
  }

  /** `flower: HOST1 uses http:8080 at HOST2`: the written port. */
  lemma UsesWrittenPort(order: MapOrder)
    ensures Parse(UsesText("HOST1", "http", "8080", "HOST2"), order) == Some(NewServiceCommand("HOST2", "http", 8080, "HOST1"))
  {
    Value8080();
    UsesTextParses("HOST1", "http", "8080", "HOST2", order);
  }

  /** `flower: my.host.name uses http:8080 at my.remote.host`: dotted names. */
  lemma UsesDottedNames(order: MapOrder)
    ensures Parse(UsesText("my.host.name", "http", "8080", "my.remote.host"), order)
         == Some(NewServiceCommand("my.remote.host", "http", 8080, "my.host.name"))
  {
    Value8080();
    UsesTextParses("my.host.name", "http", "8080", "my.remote.host", order);
  }

  lemma AmbiguousOffersSpan(s: string)
    requires s == "flower: xusesy " + " offersz"
    ensures IsOffersSpan(s, NonSpace, OffersSpan(8, 14, 16, 22, 23, 23)) && IsSpace(s[14])
    ensures s[8..9] == "x" && s[8..14] == "xusesy" && s[13..14] == "y" && s[16..23] == "offersz"
    ensures s[22..23] == "z"
  {
    assert s[8..9] == "x" && s[8..14] == "xusesy" && s[13..14] == "y";
    assert s[16..23] == "offersz" && s[22..23] == "z";
    assert HasPrefix(s);
    assert AllIn(s, 7, 8, Space) && AllIn(s, 8, 14, NonSpace) && AllIn(s, 14, 16, Space);
    assert s[16..22] == Offers && AllIn(s, 22, 23, Word);
  }

  lemma AmbiguousUsesSpan(s: string)
    requires s == "flower: xusesy " + " offersz"
    ensures IsUsesSpan(s, UsesSpan(8, 9, 9, 13, 14, 14, Bare, 16, 23))
    ensures Skip(s, 8, NonSpace) == 14
    ensures forall k :: 9 < k < |s| ==> s[k] != 'u'
  {
    assert HasPrefix(s);
    assert AllIn(s, 7, 8, Space) && AllIn(s, 8, 9, NonSpace);
    assert s[9..13] == Uses && AllIn(s, 13, 14, Word);
    assert AllIn(s, 14, 16, Space) && AllIn(s, 16, 23, NonSpace);
    SkipIs(s, 8, 14, NonSpace);
  }

  /** Only the one-letter local name `x` is followed by `uses`. */
  lemma AmbiguousUsesLongest(s: string)
    requires s == "flower: xusesy " + " offersz"
    ensures IsLongestUses(s, UsesSpan(8, 9, 9, 13, 14, 14, Bare, 16, 23))
  {
    AmbiguousUsesSpan(s);
    forall u' | IsUsesSpan(s, u')
      ensures u'.leadEnd <= 9
    {
      UsesLead(s, u');
      assert s[u'.kwStart] == Uses[0];
    }
  }

  /** "flower: xusesy  offersz" fits both patterns, so what it means depends
      on the order in which the pattern table is visited. */
  lemma AmbiguousLine(s: string)
    requires s == "flower: xusesy " + " offersz"
    ensures Parse(s, LocalFirst) == Some(NewServiceCommand("xusesy", "z", 0, "xusesy"))
    ensures Parse(s, RemoteFirst) == Some(NewServiceCommand("offersz", "y", 0, "x"))
  {
    AmbiguousOffersSpan(s);
    AmbiguousUsesLongest(s);
    var o := OffersSpan(8, 14, 16, 22, 23, 23);
    MatchOffersOfMaximalLead(s, NonSpace, o);
    MatchOffersIsLeftmostFirst(s, NonSpace, o);
    ParseOffersLine(s, LocalFirst, o);
    ParseUsesLine(s, RemoteFirst, UsesSpan(8, 9, 9, 13, 14, 14, Bare, 16, 23));
    assert GetOr(ServicePort, "z", 0) == 0 && GetOr(ServicePort, "y", 0) == 0;
  }
}
