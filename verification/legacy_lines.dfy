/** Lines of the kind parser_test.go parses with the two-pattern parser of
    parser.go: an alias line, and a line on which the visiting order decides. */
module LegacyLines {
  import opened Wrappers
  import opened Chars
  import opened Grammar
  import opened Matching
  import opened Directive
  import opened Legacy

  lemma AliasTestSpan(s: string)
    requires s == "flower: 192.168." + "255.199 is HOST1"
    ensures IsAliasSpan(s, AliasSpan(8, 23, 24, 27, 32))
    ensures forall k :: |Prefix| < k < |s| ==> s[k] != 'f'
    ensures s[8..23] == "192.168.255.199" && s[27..32] == "HOST1"
  {
    AliasTestIp(s);
    AliasTestHost(s);
  }

  lemma AliasTestIp(s: string)
    requires s == "flower: 192.168." + "255.199 is HOST1"
    ensures HasPrefix(s) && |s| == 32
    ensures AllIn(s, 7, 8, Space) && AllIn(s, 8, 23, IPChar) && AllIn(s, 23, 24, Space)
    ensures s[8..23] == "192.168.255.199"
  {
  }

  lemma AliasTestHost(s: string)
    requires s == "flower: 192.168." + "255.199 is HOST1"
    ensures s[24..26] == Is && AllIn(s, 26, 27, Space) && AllIn(s, 27, 32, Word) && AllIn(s, 32, 32, Space)
    ensures forall k :: |Prefix| < k < |s| ==> s[k] != 'f'
    ensures s[27..32] == "HOST1"
  {
  }

  /** "flower: 192.168.255.199 is HOST1" is an alias of HOST1, whatever the order. */
  lemma ParseAliasLine(s: string, order: LegacyOrder)
    requires s == "flower: 192.168." + "255.199 is HOST1"
    ensures LegacyParse(s, order) == Some(HostAlias("192.168.255.199", "HOST1", false))
  {
    AliasTestSpan(s);
    NoOffersWithoutF(s, Word);
    LegacyParseAlias(s, order, AliasSpan(8, 23, 24, 27, 32));
  }

  lemma LegacyAmbiguousSpans(s: string)
    requires s == "flower: 1isoffersx"
    ensures IsAliasSpan(s, AliasSpan(8, 9, 9, 11, 18))
    ensures IsOffersSpan(s, Word, OffersSpan(8, 11, 11, 17, 18, 18))
    ensures s[8..9] == "1" && s[11..18] == "offersx" && s[8..11] == "1is" && s[17..18] == "x"
  {
    assert HasPrefix(s);
    assert AllIn(s, 8, 9, IPChar) && s[9..11] == Is && AllIn(s, 11, 18, Word);
    assert AllIn(s, 8, 11, Word) && s[11..17] == Offers && AllIn(s, 17, 18, Word);
  }

  /** Only the host `1is` is followed by `offers`. */
  lemma LegacyAmbiguousLongest(s: string)
    requires s == "flower: 1isoffersx"
    ensures IsLongestOffers(s, Word, OffersSpan(8, 11, 11, 17, 18, 18))
  {
    LegacyAmbiguousSpans(s);
    forall o | IsOffersSpan(s, Word, o)
      ensures o.leadEnd <= 11
    {
      OffersLead(s, Word, o);
      SkipIs(s, 8, 18, Word);
      assert s[o.kwStart] == Offers[0];
      assert forall k :: 11 < k < |s| ==> s[k] != 'o';
    }
  }

  /** "flower: 1isoffersx" fits both patterns: an alias `offersx` of ip `1`,
      or a service `x` of host `1is`, depending on the visiting order. */
  lemma LegacyAmbiguousLine(s: string)
    requires s == "flower: 1isoffersx"
    ensures LegacyParse(s, AliasFirst) == Some(HostAlias("1", "offersx", false))
    ensures LegacyParse(s, ServiceFirst) == Some(HostService("1is", false, "x", 0, false, None))
  {
    LegacyAmbiguousSpans(s);
    LegacyAmbiguousLongest(s);
    LegacyParseAlias(s, AliasFirst, AliasSpan(8, 9, 9, 11, 18));
    LegacyParseService(s, ServiceFirst, OffersSpan(8, 11, 11, 17, 18, 18));
    assert GetOr(ServicePort, "x", 0) == 0;
  }
}
