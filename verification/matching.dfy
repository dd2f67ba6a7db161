/** Proofs that the matchers of Grammar implement Go's leftmost-first
    semantics: each returns a valid span (sound), finds one whenever one
    exists (complete), and the one it returns has the longest leading
    token, which is the span Go's RE2 reports. */
module Matching {
  import opened Wrappers
  import opened Chars
  import opened Grammar

  lemma OffersTailSound(s: string, lead: Class, ls: nat, e: nat)
    requires HasPrefix(s) && |Prefix| <= ls < e <= |s|
    requires AllIn(s, |Prefix|, ls, Space) && AllIn(s, ls, e, lead)
    requires OffersTail(s, ls, e).Some?
    ensures IsOffersSpan(s, lead, OffersTail(s, ls, e).value)
  {
  }

  /** Once the host is fixed, a valid span is the one `OffersTail` builds. */
  lemma OffersTailComplete(s: string, lead: Class, m: OffersSpan)
    requires IsOffersSpan(s, lead, m)
    ensures OffersTail(s, m.leadStart, m.leadEnd) == Some(m)
  {
    OffersTailParts(s, lead, m);
    OffersTailOf(s, m);
  }

  /** `OffersTail` from the readings of its parts. */
  lemma OffersTailOf(s: string, m: OffersSpan)
    requires m.leadEnd <= |s| && m.kwStart + |Offers| <= |s| && m.portEnd <= |s|
    requires KeywordAt(s, m.leadEnd, Offers) == Some(m.kwStart)
    requires ServicePortAt(s, m.kwStart + |Offers|) == Some((m.serviceStart, m.serviceEnd, m.portEnd))
    requires Skip(s, m.portEnd, Space) == |s|
    ensures OffersTail(s, m.leadStart, m.leadEnd) == Some(m)
  {
    OffersRestOf(s, m);
  }

  lemma OffersRestOf(s: string, m: OffersSpan)
    requires m.kwStart + |Offers| <= |s| && m.portEnd <= |s|
    requires ServicePortAt(s, m.kwStart + |Offers|) == Some((m.serviceStart, m.serviceEnd, m.portEnd))
    requires Skip(s, m.portEnd, Space) == |s|
    ensures OffersRest(s, m.leadStart, m.leadEnd, m.kwStart) == Some(m)
  {
    OffersRestOfParts(s, m.leadStart, m.leadEnd, m.kwStart, (m.serviceStart, m.serviceEnd, m.portEnd));
  }

  lemma OffersRestOfParts(s: string, ls: nat, e: nat, kw: nat, sp: (nat, nat, nat))
    requires kw + |Offers| <= |s| && ServicePortAt(s, kw + |Offers|) == Some(sp)
    requires sp.2 <= |s| && Skip(s, sp.2, Space) == |s|
    ensures OffersRest(s, ls, e, kw) == Some(OffersSpan(ls, e, kw, sp.0, sp.1, sp.2))
  {
  }

  lemma OffersTailParts(s: string, lead: Class, m: OffersSpan)
    requires IsOffersSpan(s, lead, m)
    ensures m.leadEnd <= |s| && m.kwStart + |Offers| <= |s| && m.portEnd <= |s|
    ensures KeywordAt(s, m.leadEnd, Offers) == Some(m.kwStart)
    ensures ServicePortAt(s, m.kwStart + |Offers|) == Some((m.serviceStart, m.serviceEnd, m.portEnd))
    ensures Skip(s, m.portEnd, Space) == |s|
  {
    OffersKeyword(s, lead, m);
    OffersServicePort(s, lead, m);
    SkipIs(s, m.portEnd, |s|, Space);
  }

  lemma OffersKeyword(s: string, lead: Class, m: OffersSpan)
    requires IsOffersSpan(s, lead, m)
    ensures KeywordAt(s, m.leadEnd, Offers) == Some(m.kwStart)
  {
    assert Offers[0] == 'o';
    KeywordAtIs(s, m.leadEnd, Offers, m.kwStart);
  }

  lemma OffersServicePort(s: string, lead: Class, m: OffersSpan)
    requires IsOffersSpan(s, lead, m)
    ensures ServicePortAt(s, m.kwStart + |Offers|) == Some((m.serviceStart, m.serviceEnd, m.portEnd))
  {
    ServicePortBeforeSpaces(s, m.kwStart + |Offers|, m.serviceStart, m.serviceEnd, m.portEnd);
  }

  lemma ServicePortBeforeSpaces(s: string, i: nat, ss: nat, se: nat, pe: nat)
    requires ServicePortOk(s, i, ss, se, pe) && AllIn(s, pe, |s|, Space)
    ensures ServicePortAt(s, i) == Some((ss, se, pe))
  {
    assert pe == |s| || IsSpace(s[pe]);
    ServicePortAtIs(s, i, ss, se, pe);
  }

  /** The host of every valid span starts after the spaces that follow the prefix
      and lies inside the first run of `lead` characters. */
  lemma OffersLead(s: string, lead: Class, m: OffersSpan)
    requires lead != Space && IsOffersSpan(s, lead, m)
    ensures m.leadStart == Skip(s, |Prefix|, Space)
    ensures m.leadEnd <= Skip(s, m.leadStart, lead)
  {
    assert In(lead, s[m.leadStart]);
    SkipIs(s, |Prefix|, m.leadStart, Space);
    RunBound(s, m.leadStart, m.leadEnd, lead);
  }

  /** What the offers matcher returns is a valid span with the longest host. */
  lemma MatchOffersSound(s: string, lead: Class)
    requires lead != Space && MatchOffers(s, lead).Some?
    ensures IsLongestOffers(s, lead, MatchOffers(s, lead).value)
  {
    MatchOffersValid(s, lead);
    forall m' | IsOffersSpan(s, lead, m')
      ensures m'.leadEnd <= MatchOffers(s, lead).value.leadEnd
    {
      MatchOffersComplete(s, lead, m');
    }
  }

  lemma MatchOffersValid(s: string, lead: Class)
    requires lead != Space && MatchOffers(s, lead).Some?
    ensures IsOffersSpan(s, lead, MatchOffers(s, lead).value)
  {
    var ls := Skip(s, |Prefix|, Space);
    var r := Longest(ls, Skip(s, ls, lead), k => OffersTail(s, ls, k));
    var k := r.value.0;
    assert AllIn(s, ls, k, lead);
    OffersTailSound(s, lead, ls, k);
  }

  /** Whenever some span is valid, the offers matcher succeeds with a host at least as long. */
  lemma MatchOffersComplete(s: string, lead: Class, m: OffersSpan)
    requires lead != Space && IsOffersSpan(s, lead, m)
    ensures MatchOffers(s, lead).Some?
    ensures m.leadEnd <= MatchOffers(s, lead).value.leadEnd
  {
    var ls := Skip(s, |Prefix|, Space);
    var tail := k => OffersTail(s, ls, k);
    OffersAnchor(s, lead, m);
    assert tail(m.leadEnd).Some?;
    LongestReaches(ls, Skip(s, ls, lead), tail, m.leadEnd);
  }

  /** A valid span is the tail built after its host, and that host lies
      inside the first run of `lead` characters. */
  lemma OffersAnchor(s: string, lead: Class, m: OffersSpan)
    requires lead != Space && IsOffersSpan(s, lead, m)
    ensures HasPrefix(s) && m.leadStart == Skip(s, |Prefix|, Space)
    ensures m.leadStart < m.leadEnd <= Skip(s, m.leadStart, lead)
    ensures OffersTail(s, m.leadStart, m.leadEnd) == Some(m)
  {
    OffersLead(s, lead, m);
    OffersTailComplete(s, lead, m);
  }

  /** A search that can stop at `k` stops at `k` or later. */
  lemma LongestReaches<T>(lo: nat, hi: nat, tail: nat -> Option<T>, k: nat)
    requires lo < k <= hi && tail(k).Some?
    ensures Longest(lo, hi, tail).Some? && k <= Longest(lo, hi, tail).value.0
  {
  }

  /** The offers matcher returns exactly the span Go's leftmost-first semantics reports. */
  lemma MatchOffersIsLeftmostFirst(s: string, lead: Class, m: OffersSpan)
    requires lead != Space
    ensures MatchOffers(s, lead) == Some(m) <==> IsLongestOffers(s, lead, m)
  {
    if MatchOffers(s, lead) == Some(m) {
      MatchOffersSound(s, lead);
    }
    if IsLongestOffers(s, lead, m) {
      MatchOffersComplete(s, lead, m);
      MatchOffersSound(s, lead);
      LongestOffersUnique(s, lead, m, MatchOffers(s, lead).value);
    }
  }

  /** Two valid offers spans with the longest host are the same span. */
  lemma LongestOffersUnique(s: string, lead: Class, a: OffersSpan, b: OffersSpan)
    requires lead != Space && IsLongestOffers(s, lead, a) && IsLongestOffers(s, lead, b)
    ensures a == b
  {
    assert a.leadEnd == b.leadEnd;
    OffersLead(s, lead, a);
    OffersLead(s, lead, b);
    OffersTailComplete(s, lead, a);
    OffersTailComplete(s, lead, b);
  }

  /** The offers matcher fails exactly when no span is valid. */
  lemma MatchOffersFailsIffNoSpan(s: string, lead: Class)
    requires lead != Space
    ensures MatchOffers(s, lead).None? <==> forall m :: !IsOffersSpan(s, lead, m)
  {
    if MatchOffers(s, lead).Some? {
      MatchOffersSound(s, lead);
    } else {
      forall m | IsOffersSpan(s, lead, m)
        ensures false
      {
        MatchOffersComplete(s, lead, m);
      }
    }
  }

  /** The separator reading is forced: the remote is the last token, and the word
      `at` cannot both be read as the separator and as the remote name. */
  lemma SepRemoteAtIs(s: string, pe: nat, sep: Sep, rs: nat, re: nat)
    requires pe <= rs < re && SepOk(s, pe, rs, sep)
    requires AllIn(s, rs, re, NonSpace) && AllIn(s, re, |s|, Space)
    ensures SepRemoteAt(s, pe) == Some((sep, rs, re))
  {
    RemoteAtIs(s, rs, re);
    match sep
    case At(k) => SepRemoteAtWord(s, pe, k, rs, re);
    case Bare => SepRemoteAtBare(s, pe, rs, re);
  }

  lemma RemoteAtIs(s: string, rs: nat, re: nat)
    requires rs < re && AllIn(s, rs, re, NonSpace) && AllIn(s, re, |s|, Space)
    ensures RemoteAt(s, rs) == Some(re)
  {
    SkipIs(s, rs, re, NonSpace);
    SkipIs(s, re, |s|, Space);
  }

  lemma SepRemoteAtWord(s: string, pe: nat, k: nat, rs: nat, re: nat)
    requires rs <= |s| && SepOk(s, pe, rs, At(k)) && RemoteAt(s, rs) == Some(re)
    ensures SepRemoteAt(s, pe) == Some((At(k), rs, re))
  {
    assert s[k] == AtWord[0];
    SkipIs(s, pe, k, Space);
    SkipIs(s, k + |AtWord|, rs, Space);
  }

  /** Without the word, the remote cannot be `at` followed by a space: then
      nothing but spaces follows the `at`, so reading it as the word fails. */
  lemma SepRemoteAtBare(s: string, pe: nat, rs: nat, re: nat)
    requires rs < re && SepOk(s, pe, rs, Bare)
    requires AllIn(s, rs, re, NonSpace) && RemoteAt(s, rs) == Some(re)
    ensures SepRemoteAt(s, pe) == Some((Bare, rs, re))
  {
    SkipIs(s, pe, rs, Space);
    var g := rs;
    if g + |AtWord| < |s| && s[g..g + |AtWord|] == AtWord {
      var g2 := Skip(s, g + |AtWord|, Space);
      if g2 > g + |AtWord| {
        assert s[g + 1] == AtWord[1];
        assert re == g + |AtWord|;
        assert RemoteAt(s, g2).None?;
      }
    }
  }

  lemma UsesTailSound(s: string, ls: nat, e: nat)
    requires HasPrefix(s) && |Prefix| <= ls < e <= |s|
    requires AllIn(s, |Prefix|, ls, Space) && AllIn(s, ls, e, NonSpace)
    requires UsesTail(s, ls, e).Some?
    ensures IsUsesSpan(s, UsesTail(s, ls, e).value)
  {
    var kw := KeywordAt(s, e, Uses).value;
    UsesRestSound(s, ls, e, kw);
  }

  /** What `UsesRest` builds satisfies the pattern after the keyword. */
  lemma UsesRestSound(s: string, ls: nat, e: nat, kw: nat)
    requires kw + |Uses| <= |s| && UsesRest(s, ls, e, kw).Some?
    ensures var m := UsesRest(s, ls, e, kw).value;
            && m.kwStart == kw
            && ServicePortOk(s, kw + |Uses|, m.serviceStart, m.serviceEnd, m.portEnd)
            && m.portEnd <= m.remoteStart < m.remoteEnd
            && SepOk(s, m.portEnd, m.remoteStart, m.sep)
            && AllIn(s, m.remoteStart, m.remoteEnd, NonSpace)
            && AllIn(s, m.remoteEnd, |s|, Space)
  {
    var sp := ServicePortAt(s, kw + |Uses|).value;
    var sr := SepRemoteAt(s, sp.2).value;
    UsesRestOfParts(s, ls, e, kw, sp, sr);
  }

  /** Once the local name is fixed, a valid span is the one `UsesTail` builds. */
  lemma UsesTailComplete(s: string, m: UsesSpan)
    requires IsUsesSpan(s, m)
    ensures UsesTail(s, m.leadStart, m.leadEnd) == Some(m)
  {
    UsesKeyword(s, m);
    UsesSpanServiceParts(s, m);
    UsesServicePort(s, m);
    UsesSepRemote(s, m);
    UsesTailOf(s, m);
  }

  /** `UsesTail` from the readings of its parts. */
  lemma UsesTailOf(s: string, m: UsesSpan)
    requires m.leadEnd <= |s| && m.kwStart + |Uses| <= |s| && m.portEnd <= |s|
    requires KeywordAt(s, m.leadEnd, Uses) == Some(m.kwStart)
    requires ServicePortAt(s, m.kwStart + |Uses|) == Some((m.serviceStart, m.serviceEnd, m.portEnd))
    requires SepRemoteAt(s, m.portEnd) == Some((m.sep, m.remoteStart, m.remoteEnd))
    ensures UsesTail(s, m.leadStart, m.leadEnd) == Some(m)
  {
    UsesRestOf(s, m);
  }

  lemma UsesRestOf(s: string, m: UsesSpan)
    requires m.kwStart + |Uses| <= |s| && m.portEnd <= |s|
    requires ServicePortAt(s, m.kwStart + |Uses|) == Some((m.serviceStart, m.serviceEnd, m.portEnd))
    requires SepRemoteAt(s, m.portEnd) == Some((m.sep, m.remoteStart, m.remoteEnd))
    ensures UsesRest(s, m.leadStart, m.leadEnd, m.kwStart) == Some(m)
  {
    UsesRestOfParts(s, m.leadStart, m.leadEnd, m.kwStart, (m.serviceStart, m.serviceEnd, m.portEnd),
                    (m.sep, m.remoteStart, m.remoteEnd));
  }

  lemma UsesRestOfParts(s: string, ls: nat, e: nat, kw: nat, sp: (nat, nat, nat), sr: (Sep, nat, nat))
    requires kw + |Uses| <= |s| && sp.2 <= |s|
    requires ServicePortAt(s, kw + |Uses|) == Some(sp)
    requires SepRemoteAt(s, sp.2) == Some(sr)
    ensures UsesRest(s, ls, e, kw) == Some(UsesSpan(ls, e, kw, sp.0, sp.1, sp.2, sr.0, sr.1, sr.2))
  {
  }

  lemma UsesKeyword(s: string, m: UsesSpan)
    requires IsUsesSpan(s, m)
    ensures m.leadEnd <= |s| && m.kwStart + |Uses| <= |s|
    ensures KeywordAt(s, m.leadEnd, Uses) == Some(m.kwStart)
  {
    assert Uses[0] == 'u';
    KeywordAtIs(s, m.leadEnd, Uses, m.kwStart);
  }

  lemma UsesServicePort(s: string, m: UsesSpan)
    requires ServicePortOk(s, m.kwStart + |Uses|, m.serviceStart, m.serviceEnd, m.portEnd)
    requires SepOk(s, m.portEnd, m.remoteStart, m.sep) && m.remoteStart <= |s|
    ensures m.kwStart + |Uses| <= |s| && m.portEnd <= |s|
    ensures ServicePortAt(s, m.kwStart + |Uses|) == Some((m.serviceStart, m.serviceEnd, m.portEnd))
  {
    ServicePortBeforeSep(s, m.kwStart + |Uses|, m.serviceStart, m.serviceEnd, m.portEnd, m.remoteStart, m.sep);
  }

  /** The service, port and separator readings a `uses` span is built from. */
  lemma UsesSpanServiceParts(s: string, m: UsesSpan)
    requires IsUsesSpan(s, m)
    ensures ServicePortOk(s, m.kwStart + |Uses|, m.serviceStart, m.serviceEnd, m.portEnd)
    ensures SepOk(s, m.portEnd, m.remoteStart, m.sep) && m.remoteStart <= |s|
  {
  }

  lemma ServicePortBeforeSep(s: string, i: nat, ss: nat, se: nat, pe: nat, rs: nat, sep: Sep)
    requires ServicePortOk(s, i, ss, se, pe) && SepOk(s, pe, rs, sep) && rs <= |s|
    ensures ServicePortAt(s, i) == Some((ss, se, pe))
  {
    SepStartsWithSpace(s, pe, rs, sep);
    ServicePortAtIs(s, i, ss, se, pe);
  }

  lemma UsesSepRemote(s: string, m: UsesSpan)
    requires IsUsesSpan(s, m)
    ensures m.portEnd <= |s|
    ensures SepRemoteAt(s, m.portEnd) == Some((m.sep, m.remoteStart, m.remoteEnd))
  {
    SepRemoteAtIs(s, m.portEnd, m.sep, m.remoteStart, m.remoteEnd);
  }

  /** The separator before the remote starts with a space. */
  lemma SepStartsWithSpace(s: string, i: nat, j: nat, sep: Sep)
    requires SepOk(s, i, j, sep) && j <= |s|
    ensures i < |s| && IsSpace(s[i])
  {
  }

  lemma UsesLead(s: string, m: UsesSpan)
    requires IsUsesSpan(s, m)
    ensures m.leadStart == Skip(s, |Prefix|, Space)
    ensures m.leadEnd <= Skip(s, m.leadStart, NonSpace)
  {
    SkipIs(s, |Prefix|, m.leadStart, Space);
    RunBound(s, m.leadStart, m.leadEnd, NonSpace);
  }

  /** What the uses matcher returns is a valid span with the longest local name. */
  lemma MatchUsesSound(s: string)
    requires MatchUses(s).Some?
    ensures IsLongestUses(s, MatchUses(s).value)
  {
    MatchUsesValid(s);
    forall m' | IsUsesSpan(s, m')
      ensures m'.leadEnd <= MatchUses(s).value.leadEnd
    {
      MatchUsesComplete(s, m');
    }
  }

  lemma MatchUsesValid(s: string)
    requires MatchUses(s).Some?
    ensures IsUsesSpan(s, MatchUses(s).value)
  {
    var ls := Skip(s, |Prefix|, Space);
    var r := Longest(ls, Skip(s, ls, NonSpace), k => UsesTail(s, ls, k));
    var k := r.value.0;
    assert AllIn(s, ls, k, NonSpace);
    UsesTailSound(s, ls, k);
  }

  /** Whenever some span is valid, the uses matcher succeeds with a local name at least as long. */
  lemma MatchUsesComplete(s: string, m: UsesSpan)
    requires IsUsesSpan(s, m)
    ensures MatchUses(s).Some?
    ensures m.leadEnd <= MatchUses(s).value.leadEnd
  {
    var ls := Skip(s, |Prefix|, Space);
    var tail := k => UsesTail(s, ls, k);
    UsesAnchor(s, m);
    assert tail(m.leadEnd).Some?;
    LongestReaches(ls, Skip(s, ls, NonSpace), tail, m.leadEnd);
  }

  /** A valid span is the tail built after its local name, and that name lies
      inside the first non-space run. */
  lemma UsesAnchor(s: string, m: UsesSpan)
    requires IsUsesSpan(s, m)
    ensures HasPrefix(s) && m.leadStart == Skip(s, |Prefix|, Space)
    ensures m.leadStart < m.leadEnd <= Skip(s, m.leadStart, NonSpace)
    ensures UsesTail(s, m.leadStart, m.leadEnd) == Some(m)
  {
    UsesLead(s, m);
    UsesTailComplete(s, m);
  }

  /** The uses matcher returns exactly the span Go's leftmost-first semantics reports. */
  lemma MatchUsesIsLeftmostFirst(s: string, m: UsesSpan)
    ensures MatchUses(s) == Some(m) <==> IsLongestUses(s, m)
  {
    if MatchUses(s) == Some(m) {
      MatchUsesSound(s);
    }
    if IsLongestUses(s, m) {
      MatchUsesComplete(s, m);
      MatchUsesSound(s);
      LongestUsesUnique(s, m, MatchUses(s).value);
    }
  }

  /** Two valid uses spans with the longest local name are the same span. */
  lemma LongestUsesUnique(s: string, a: UsesSpan, b: UsesSpan)
    requires IsLongestUses(s, a) && IsLongestUses(s, b)
    ensures a == b
  {
    assert a.leadEnd == b.leadEnd;
    UsesLead(s, a);
    UsesLead(s, b);
    UsesTailComplete(s, a);
    UsesTailComplete(s, b);
  }

  /** The uses matcher fails exactly when no span is valid. */
  lemma MatchUsesFailsIffNoSpan(s: string)
    ensures MatchUses(s).None? <==> forall m :: !IsUsesSpan(s, m)
  {
    if MatchUses(s).Some? {
      MatchUsesSound(s);
    } else {
      forall m | IsUsesSpan(s, m)
        ensures false
      {
        MatchUsesComplete(s, m);
      }
    }
  }

  /** A valid alias span is the one the matcher finds. */
  lemma MatchAliasComplete(s: string, m: AliasSpan)
    requires IsAliasSpan(s, m)
    ensures MatchAlias(s) == Some(m)
  {
    AliasIpParts(s, m);
    AliasHostParts(s, m);
    AliasTailOf(s, m);
  }

  /** `AliasTail` from the readings of its parts. */
  lemma AliasTailOf(s: string, m: AliasSpan)
    requires m.ipEnd <= |s| && m.kwStart + |Is| <= |s|
    requires KeywordAt(s, m.ipEnd, Is) == Some(m.kwStart)
    requires HostAt(s, m.kwStart + |Is|) == Some((m.hostStart, m.hostEnd))
    ensures AliasTail(s, m.ipStart, m.ipEnd) == Some(m)
  {
    AliasTailOfParts(s, m.ipStart, m.ipEnd, m.kwStart, (m.hostStart, m.hostEnd));
  }

  lemma AliasTailOfParts(s: string, ls: nat, e: nat, kw: nat, hp: (nat, nat))
    requires e <= |s| && KeywordAt(s, e, Is) == Some(kw)
    requires kw + |Is| <= |s| && HostAt(s, kw + |Is|) == Some(hp)
    ensures AliasTail(s, ls, e) == Some(AliasSpan(ls, e, kw, hp.0, hp.1))
  {
  }

  lemma AliasIpParts(s: string, m: AliasSpan)
    requires IsAliasSpan(s, m)
    ensures Skip(s, |Prefix|, Space) == m.ipStart && Skip(s, m.ipStart, IPChar) == m.ipEnd
    ensures KeywordAt(s, m.ipEnd, Is) == Some(m.kwStart)
  {
    assert IsDigit(s[m.ipStart]) || s[m.ipStart] == '.' || s[m.ipStart] == '*';
    SkipIs(s, |Prefix|, m.ipStart, Space);
    assert s[m.kwStart] == Is[0];
    assert !In(IPChar, s[m.ipEnd]);
    SkipIs(s, m.ipStart, m.ipEnd, IPChar);
    KeywordAtIs(s, m.ipEnd, Is, m.kwStart);
  }

  lemma AliasHostParts(s: string, m: AliasSpan)
    requires IsAliasSpan(s, m)
    ensures m.kwStart + |Is| <= |s| && HostAt(s, m.kwStart + |Is|) == Some((m.hostStart, m.hostEnd))
  {
    assert IsWord(s[m.hostStart]);
    SkipIs(s, m.kwStart + |Is|, m.hostStart, Space);
    SkipIs(s, m.hostStart, m.hostEnd, Word);
    SkipIs(s, m.hostEnd, |s|, Space);
  }

  /** The alias matcher returns a span iff it is valid: the alias pattern has at most one. */
  lemma MatchAliasExact(s: string, m: AliasSpan)
    ensures MatchAlias(s) == Some(m) <==> IsAliasSpan(s, m)
  {
    if IsAliasSpan(s, m) {
      MatchAliasComplete(s, m);
    }
  }

  // =====================================================================
  // Reading a match off a line
  // =====================================================================

  /** A valid offers span whose host cannot be extended is the reported one. */
  lemma MatchOffersOfMaximalLead(s: string, lead: Class, m: OffersSpan)
    requires lead != Space && IsOffersSpan(s, lead, m)
    requires !In(lead, s[m.leadEnd])
    ensures MatchOffers(s, lead) == Some(m)
  {
    MatchOffersComplete(s, lead, m);
    MatchOffersSound(s, lead);
    var found := MatchOffers(s, lead).value;
    OffersLead(s, lead, m);
    OffersLead(s, lead, found);
    SkipIs(s, m.leadStart, m.leadEnd, lead);
    OffersTailComplete(s, lead, m);
    OffersTailComplete(s, lead, found);
  }

  /** A valid uses span whose local name cannot be extended is the reported one. */
  lemma MatchUsesOfMaximalLead(s: string, m: UsesSpan)
    requires IsUsesSpan(s, m)
    requires IsSpace(s[m.leadEnd])
    ensures MatchUses(s) == Some(m)
  {
    MatchUsesComplete(s, m);
    MatchUsesSound(s);
    var found := MatchUses(s).value;
    UsesLead(s, m);
    UsesLead(s, found);
    SkipIs(s, m.leadStart, m.leadEnd, NonSpace);
    UsesTailComplete(s, m);
    UsesTailComplete(s, found);
  }

  /** A line with no `f` after the prefix has no offers span (`offers` has an `f`). */
  lemma NoOffersWithoutF(s: string, lead: Class)
    requires forall k :: |Prefix| < k < |s| ==> s[k] != 'f'
    ensures forall m :: !IsOffersSpan(s, lead, m)
  {
    assert Offers[1] == 'f';
  }

  /** A line with no `u` after the prefix has no uses span. */
  lemma NoUsesWithoutU(s: string)
    requires forall k :: |Prefix| < k < |s| ==> s[k] != 'u'
    ensures forall m :: !IsUsesSpan(s, m)
  {
    assert Uses[0] == 'u';
  }

  /** The service and port of an offers span hold no space. */
  lemma ServicePortNoSpace(s: string, i: nat, ss: nat, se: nat, pe: nat, k: nat)
    requires ServicePortOk(s, i, ss, se, pe) && ss <= k < pe
    ensures !IsSpace(s[k])
  {
    if k >= se {
      assert k == se || In(Digit, s[k]);
    }
  }

  /** An offers span whose service follows `offers` after one space and whose
      port ends the line leaves no room for a uses span: the uses remote would
      have to be the service, and `offers` does not end in a separator. */
  lemma OffersSpanExcludesUses(s: string, lead: Class, m: OffersSpan)
    requires IsOffersSpan(s, lead, m)
    requires m.portEnd == |s| && m.serviceStart == m.kwStart + |Offers| + 1
    ensures forall u :: !IsUsesSpan(s, u)
  {
    forall k | m.serviceStart <= k < |s|
      ensures !IsSpace(s[k])
    {
      ServicePortNoSpace(s, m.kwStart + |Offers|, m.serviceStart, m.serviceEnd, m.portEnd, k);
    }
    var sp := m.serviceStart - 1;
    assert s[sp - 2] == Offers[4] && s[sp - 1] == Offers[5];
    assert IsSpace(s[sp]) && !IsSpace(s[|s| - 1]);
    forall u
      ensures !IsUsesSpan(s, u)
    {
      UsesRemoteSeparated(s, u);
      assert IsUsesSpan(s, u) ==> u.remoteEnd == |s|;
      assert IsUsesSpan(s, u) ==> u.remoteStart > sp;
      assert IsUsesSpan(s, u) ==> u.remoteStart - 1 == sp;
    }
  }

  /** In a uses span the remote follows a space, which follows a space or the word `at`. */
  lemma UsesRemoteSeparated(s: string, u: UsesSpan)
    ensures IsUsesSpan(s, u) ==>
      && 3 <= u.remoteStart < u.remoteEnd <= |s|
      && IsSpace(s[u.remoteStart - 1])
      && (IsSpace(s[u.remoteStart - 2]) || s[u.remoteStart - 3..u.remoteStart - 1] == AtWord)
      && AllIn(s, u.remoteStart, u.remoteEnd, NonSpace)
      && AllIn(s, u.remoteEnd, |s|, Space)
  {
    if IsUsesSpan(s, u) && u.sep.At? {
      var k := u.sep.at;
      if k + 3 < u.remoteStart {
        assert IsSpace(s[u.remoteStart - 2]);
      }
    }
  }

  /** A uses span with a space after the local name and the word `at` before
      a remote that ends the line leaves no room for an offers span: the
      offers keyword would lie in the local name, and the spaces before the
      offers service would have to cover the `at`. */
  lemma UsesSpanExcludesOffers(s: string, lead: Class, m: UsesSpan)
    requires lead != Space && IsUsesSpan(s, m)
    requires m.leadEnd < m.kwStart && m.sep.At? && m.remoteEnd == |s|
    ensures forall o :: !IsOffersSpan(s, lead, o)
  {
    var at := m.sep.at;
    assert s[at] == AtWord[0] && s[m.kwStart] == Uses[0];
    assert !IsSpace(s[|s| - 1]) && IsSpace(s[at + 2]) && IsSpace(s[m.leadEnd]) && !IsSpace(s[m.leadStart]);
    forall o
      ensures !IsOffersSpan(s, lead, o)
    {
      OffersSpanParts(s, lead, o);
      assert IsOffersSpan(s, lead, o) ==> o.leadStart == m.leadStart;
      assert IsOffersSpan(s, lead, o) ==> o.leadEnd <= m.leadEnd;
      assert IsOffersSpan(s, lead, o) ==> o.kwStart <= m.kwStart;
      assert IsOffersSpan(s, lead, o) ==> at + 2 < o.serviceStart;
    }
  }

  /** The parts of an offers span, with every non-space part stated as such. */
  lemma OffersSpanParts(s: string, lead: Class, o: OffersSpan)
    requires lead != Space
    ensures IsOffersSpan(s, lead, o) ==>
      && |Prefix| <= o.leadStart < o.leadEnd <= o.kwStart
      && o.kwStart + |Offers| <= o.serviceStart < o.portEnd <= |s|
      && !IsSpace(s[o.leadStart])
      && AllIn(s, |Prefix|, o.leadStart, Space)
      && AllIn(s, o.leadStart, o.leadEnd, NonSpace)
      && AllIn(s, o.leadEnd, o.kwStart, Space)
      && AllIn(s, o.kwStart + |Offers|, o.serviceStart, Space)
      && AllIn(s, o.serviceStart, o.portEnd, NonSpace)
      && AllIn(s, o.portEnd, |s|, Space)
  {
    if IsOffersSpan(s, lead, o) {
      forall k | o.serviceStart <= k < o.portEnd
        ensures !IsSpace(s[k])
      {
        ServicePortNoSpace(s, o.kwStart + |Offers|, o.serviceStart, o.serviceEnd, o.portEnd, k);
      }
      forall k | o.leadStart <= k < o.leadEnd
        ensures !IsSpace(s[k])
      {
        assert In(lead, s[k]);
      }
    }
  }
}
