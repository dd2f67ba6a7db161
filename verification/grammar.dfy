/** The directive grammars, i.e. the anchored regular expressions of
    flower/parser.go and parser.go, and hand-written matchers for them.

    A grammar is stated as a predicate on a "span": the positions at which
    each part of the pattern starts and ends in the line.  A regular
    expression matches a line iff some span is valid for it.  Go's RE2
    reports the leftmost-first match, the one a backtracking matcher would
    find first.  In these grammars every part is forced once the leading
    token (the host, the local name or the ip) is fixed, and the leading
    token is a greedy `+` run followed by an optional-space keyword, so the
    reported match is the valid span whose leading token is LONGEST.  The
    matchers search the leading token's end from longest to shortest;
    module Matching proves that they return exactly that span. */
module Grammar {
  import opened Wrappers
  import opened Chars

  /** Every directive line starts with this literal (the `^flower:` of each pattern). */
  const Prefix: string := "flower:"

  predicate HasPrefix(s: string) {
    |s| >= |Prefix| && s[..|Prefix|] == Prefix
  }

  /** The optional `(:(?P<port>\d+))?` group between positions `se` and `pe`:
      absent (`pe == se`) or a colon followed by one or more digits. */
  predicate PortOk(s: string, se: nat, pe: nat) {
    pe == se || (se + 2 <= pe <= |s| && s[se] == ':' && AllIn(s, se + 1, pe, Digit))
  }

  /** Longest-first search: the largest `k` in `(lo, hi]` for which `tail(k)` succeeds. */
  function Longest<T>(lo: nat, hi: nat, tail: nat -> Option<T>): (r: Option<(nat, T)>)
    requires lo <= hi
    ensures r.Some? ==> lo < r.value.0 <= hi && tail(r.value.0) == Some(r.value.1)
    ensures forall k :: lo < k <= hi && (r.None? || r.value.0 < k) ==> tail(k).None?
    decreases hi - lo
  {
    if hi == lo then None
    else
      match tail(hi)
      case Some(t) => Some((hi, t))
      case None => Longest(lo, hi - 1, tail)
  }

  /** The run of `cls` that `Skip` finds is the longest run from `i`. */
  lemma RunBound(s: string, i: nat, j: nat, cls: Class)
    requires i <= |s|
    requires AllIn(s, i, j, cls)
    ensures j <= Skip(s, i, cls)
  {
  }

  /** `\s*KW` from position `e`: where the keyword starts, if it follows the spaces. */
  function KeywordAt(s: string, e: nat, kw: string): (r: Option<nat>)
    requires e <= |s|
    ensures r.Some? ==> e <= r.value && r.value + |kw| <= |s| && AllIn(s, e, r.value, Space)
    ensures r.Some? ==> s[r.value..r.value + |kw|] == kw
  {
    var k := Skip(s, e, Space);
    if k + |kw| <= |s| && s[k..k + |kw|] == kw then Some(k) else None
  }

  lemma KeywordAtIs(s: string, e: nat, kw: string, k: nat)
    requires e <= k && k + |kw| <= |s| && |kw| > 0 && !IsSpace(kw[0])
    requires AllIn(s, e, k, Space) && s[k..k + |kw|] == kw
    ensures KeywordAt(s, e, kw) == Some(k)
  {
    assert s[k] == kw[0];
    SkipIs(s, e, k, Space);
  }

  /** `\s*(?P<service>\w+)(:(?P<port>\d+))?` from position `i`: the service
      starts at `ss` and ends at `se`; the port digits, if any, end at `pe`. */
  predicate ServicePortOk(s: string, i: nat, ss: nat, se: nat, pe: nat) {
    && i <= ss < se <= pe <= |s|
    && AllIn(s, i, ss, Space)
    && AllIn(s, ss, se, Word)
    && PortOk(s, se, pe)
  }

  /** The greedy reading of `\s*(\w+)(:(\d+))?` from `i`. */
  function ServicePortAt(s: string, i: nat): (r: Option<(nat, nat, nat)>)
    requires i <= |s|
    ensures r.Some? ==> ServicePortOk(s, i, r.value.0, r.value.1, r.value.2)
  {
    var ss := Skip(s, i, Space);
    var se := Skip(s, ss, Word);
    var colon := se < |s| && s[se] == ':';
    var pe := if colon then Skip(s, se + 1, Digit) else se;
    if se == ss || (colon && pe == se + 1) then None else Some((ss, se, pe))
  }

  /** When a space or the end of the line follows, the reading is forced. */
  lemma ServicePortAtIs(s: string, i: nat, ss: nat, se: nat, pe: nat)
    requires ServicePortOk(s, i, ss, se, pe)
    requires pe == |s| || IsSpace(s[pe])
    ensures ServicePortAt(s, i) == Some((ss, se, pe))
  {
    assert IsWord(s[ss]);
    SkipIs(s, i, ss, Space);
    assert se < |s| ==> !IsWord(s[se]);
    SkipIs(s, ss, se, Word);
    if pe > se {
      SkipIs(s, se + 1, pe, Digit);
    }
  }

  // =====================================================================
  // `^flower:\s*(?P<host>LEAD+)\s*offers\s*(?P<service>\w+)(:(?P<port>\d+))?\s*$`
  // with LEAD = \S (flower/parser.go:22) or \w (parser.go:218)
  // =====================================================================

  datatype OffersSpan = OffersSpan(
    leadStart: nat, leadEnd: nat,       // the host
    kwStart: nat,                       // the keyword `offers`
    serviceStart: nat, serviceEnd: nat, // the service
    portEnd: nat)                       // the port digits end here; == serviceEnd if absent

  const Offers: string := "offers"

  predicate IsOffersSpan(s: string, lead: Class, m: OffersSpan) {
    && HasPrefix(s)
    && |Prefix| <= m.leadStart < m.leadEnd <= m.kwStart
    && m.kwStart + |Offers| <= m.serviceStart
    && AllIn(s, |Prefix|, m.leadStart, Space)
    && AllIn(s, m.leadStart, m.leadEnd, lead)
    && AllIn(s, m.leadEnd, m.kwStart, Space)
    && ServicePortOk(s, m.kwStart + |Offers|, m.serviceStart, m.serviceEnd, m.portEnd)
    && s[m.kwStart..m.kwStart + |Offers|] == Offers
    && AllIn(s, m.portEnd, |s|, Space)
  }

  /** The valid span Go's leftmost-first matching reports: the one with the longest host. */
  ghost predicate IsLongestOffers(s: string, lead: Class, m: OffersSpan) {
    IsOffersSpan(s, lead, m) &&
    forall m' :: IsOffersSpan(s, lead, m') ==> m'.leadEnd <= m.leadEnd
  }

  /** The rest of the pattern once the host is fixed to `s[ls..e]`; every part is forced. */
  function OffersTail(s: string, ls: nat, e: nat): (r: Option<OffersSpan>)
    ensures r.Some? ==> r.value.leadStart == ls && r.value.leadEnd == e
  {
    if e > |s| then None
    else
      match KeywordAt(s, e, Offers)
      case None => None
      case Some(kw) => OffersRest(s, ls, e, kw)
  }

  /** The service and port after the keyword at `kw`, then only spaces. */
  function OffersRest(s: string, ls: nat, e: nat, kw: nat): (r: Option<OffersSpan>)
    requires kw + |Offers| <= |s|
    ensures r.Some? ==> r.value.leadStart == ls && r.value.leadEnd == e && r.value.kwStart == kw
  {
    match ServicePortAt(s, kw + |Offers|)
    case None => None
    case Some((ss, se, pe)) =>
      if Skip(s, pe, Space) == |s| then Some(OffersSpan(ls, e, kw, ss, se, pe)) else None
  }

  /** Matches the offers-shaped pattern whose host is made of `lead` characters. */
  function MatchOffers(s: string, lead: Class): Option<OffersSpan>
    requires lead != Space
  {
    if !HasPrefix(s) then None
    else
      var ls := Skip(s, |Prefix|, Space);
      match Longest(ls, Skip(s, ls, lead), k => OffersTail(s, ls, k))
      case None => None
      case Some((_, m)) => Some(m)
  }

  // =====================================================================
  // `^flower:\s*(?P<local>\S+)\s*uses\s*(?P<service>\w+)(:(?P<port>\d+))?\s+(at)?\s+(?P<remote>\S+)\s*$`
  // (flower/parser.go:24)
  // =====================================================================

  /** How the `\s+(at)?\s+` between the service and the remote is read:
      spaces only, or spaces, the word `at` at position `at`, spaces. */
  datatype Sep = Bare | At(at: nat)

  datatype UsesSpan = UsesSpan(
    leadStart: nat, leadEnd: nat,       // the local name
    kwStart: nat,                       // the keyword `uses`
    serviceStart: nat, serviceEnd: nat, // the service
    portEnd: nat,                       // the port digits end here; == serviceEnd if absent
    sep: Sep,
    remoteStart: nat, remoteEnd: nat)   // the remote name

  const Uses: string := "uses"
  const AtWord: string := "at"

  /** `\s+(at)?\s+` covers exactly `s[i..j]`; without the word this needs two spaces. */
  predicate SepOk(s: string, i: nat, j: nat, sep: Sep) {
    match sep
    case Bare => i + 2 <= j && AllIn(s, i, j, Space)
    case At(k) =>
      && i < k && k + |AtWord| < j
      && AllIn(s, i, k, Space) && AllIn(s, k + |AtWord|, j, Space)
      && s[k..k + |AtWord|] == AtWord
  }

  predicate IsUsesSpan(s: string, m: UsesSpan) {
    && HasPrefix(s)
    && |Prefix| <= m.leadStart < m.leadEnd <= m.kwStart
    && m.kwStart + |Uses| <= m.serviceStart
    && AllIn(s, |Prefix|, m.leadStart, Space)
    && AllIn(s, m.leadStart, m.leadEnd, NonSpace)
    && AllIn(s, m.leadEnd, m.kwStart, Space)
    && ServicePortOk(s, m.kwStart + |Uses|, m.serviceStart, m.serviceEnd, m.portEnd)
    && s[m.kwStart..m.kwStart + |Uses|] == Uses
    && m.portEnd <= m.remoteStart < m.remoteEnd
    && SepOk(s, m.portEnd, m.remoteStart, m.sep)
    && AllIn(s, m.remoteStart, m.remoteEnd, NonSpace)
    && AllIn(s, m.remoteEnd, |s|, Space)
  }

  /** The valid span Go's leftmost-first matching reports: the one with the longest local name. */
  ghost predicate IsLongestUses(s: string, m: UsesSpan) {
    IsUsesSpan(s, m) &&
    forall m' :: IsUsesSpan(s, m') ==> m'.leadEnd <= m.leadEnd
  }

  /** `(?P<remote>\S+)\s*$` from position `i`: where the remote name ends. */
  function RemoteAt(s: string, i: nat): (r: Option<nat>)
    requires i <= |s|
    ensures r.Some? ==> i < r.value && AllIn(s, i, r.value, NonSpace) && AllIn(s, r.value, |s|, Space)
  {
    var re := Skip(s, i, NonSpace);
    if re > i && Skip(s, re, Space) == |s| then Some(re) else None
  }

  /** `\s+(at)?\s+(?P<remote>\S+)\s*$` from position `pe`, trying the word `at` first. */
  function SepRemoteAt(s: string, pe: nat): (r: Option<(Sep, nat, nat)>)
    requires pe <= |s|
    ensures r.Some? ==> pe <= r.value.1 < r.value.2 && SepOk(s, pe, r.value.1, r.value.0)
    ensures r.Some? ==> AllIn(s, r.value.1, r.value.2, NonSpace) && AllIn(s, r.value.2, |s|, Space)
  {
    var g := Skip(s, pe, Space);
    var viaAt :=
      if g > pe && g + |AtWord| < |s| && s[g..g + |AtWord|] == AtWord then
        var g2 := Skip(s, g + |AtWord|, Space);
        if g2 > g + |AtWord| then
          match RemoteAt(s, g2)
          case Some(re) => Some((At(g), g2, re))
          case None => None
        else None
      else None;
    if viaAt.Some? then viaAt
    else if g >= pe + 2 then
      match RemoteAt(s, g)
      case Some(re) => Some((Bare, g, re))
      case None => None
    else None
  }

  /** The rest of the uses pattern once the local name is fixed to `s[ls..e]`. */
  function UsesTail(s: string, ls: nat, e: nat): (r: Option<UsesSpan>)
    ensures r.Some? ==> r.value.leadStart == ls && r.value.leadEnd == e
  {
    if e > |s| then None
    else
      match KeywordAt(s, e, Uses)
      case None => None
      case Some(kw) => UsesRest(s, ls, e, kw)
  }

  /** The service, port, separator and remote after the keyword at `kw`. */
  function UsesRest(s: string, ls: nat, e: nat, kw: nat): (r: Option<UsesSpan>)
    requires kw + |Uses| <= |s|
    ensures r.Some? ==> r.value.leadStart == ls && r.value.leadEnd == e && r.value.kwStart == kw
  {
    match ServicePortAt(s, kw + |Uses|)
    case None => None
    case Some((ss, se, pe)) =>
      match SepRemoteAt(s, pe)
      case None => None
      case Some((sep, rs, re)) => Some(UsesSpan(ls, e, kw, ss, se, pe, sep, rs, re))
  }

  function MatchUses(s: string): Option<UsesSpan> {
    if !HasPrefix(s) then None
    else
      var ls := Skip(s, |Prefix|, Space);
      match Longest(ls, Skip(s, ls, NonSpace), k => UsesTail(s, ls, k))
      case None => None
      case Some((_, m)) => Some(m)
  }

  // =====================================================================
  // `^flower:\s*(?P<ip>[0-9\.\*]+)\s*is\s*(?P<host>\w+)\s*$`  (parser.go:216)
  // =====================================================================

  datatype AliasSpan = AliasSpan(
    ipStart: nat, ipEnd: nat,   // the ip pattern
    kwStart: nat,               // the keyword `is`
    hostStart: nat, hostEnd: nat)

  const Is: string := "is"

  predicate IsAliasSpan(s: string, m: AliasSpan) {
    && HasPrefix(s)
    && |Prefix| <= m.ipStart < m.ipEnd <= m.kwStart
    && m.kwStart + |Is| <= m.hostStart < m.hostEnd
    && AllIn(s, |Prefix|, m.ipStart, Space)
    && AllIn(s, m.ipStart, m.ipEnd, IPChar)
    && AllIn(s, m.ipEnd, m.kwStart, Space)
    && AllIn(s, m.kwStart + |Is|, m.hostStart, Space)
    && AllIn(s, m.hostStart, m.hostEnd, Word)
    && AllIn(s, m.hostEnd, |s|, Space)
    && s[m.kwStart..m.kwStart + |Is|] == Is
  }

  /** `\s*(?P<host>\w+)\s*$` from position `i`: where the host starts and ends. */
  function HostAt(s: string, i: nat): (r: Option<(nat, nat)>)
    requires i <= |s|
    ensures r.Some? ==> i <= r.value.0 < r.value.1 <= |s| && AllIn(s, i, r.value.0, Space)
    ensures r.Some? ==> AllIn(s, r.value.0, r.value.1, Word) && AllIn(s, r.value.1, |s|, Space)
  {
    var hs := Skip(s, i, Space);
    var he := Skip(s, hs, Word);
    if he > hs && Skip(s, he, Space) == |s| then Some((hs, he)) else None
  }

  /** The rest of the alias pattern once the ip is fixed to `s[ls..e]`. */
  function AliasTail(s: string, ls: nat, e: nat): (r: Option<AliasSpan>)
    requires e <= |s|
    ensures r.Some? ==> r.value.ipStart == ls && r.value.ipEnd == e
  {
    match KeywordAt(s, e, Is)
    case None => None
    case Some(kw) =>
      match HostAt(s, kw + |Is|)
      case None => None
      case Some((hs, he)) => Some(AliasSpan(ls, e, kw, hs, he))
  }

  /** No choice is left in this pattern: the ip cannot contain the `i` of `is`. */
  function MatchAlias(s: string): (r: Option<AliasSpan>)
    ensures r.Some? ==> IsAliasSpan(s, r.value)
  {
    if !HasPrefix(s) then None
    else
      var ipStart := Skip(s, |Prefix|, Space);
      var ipEnd := Skip(s, ipStart, IPChar);
      if ipEnd == ipStart then None else AliasTail(s, ipStart, ipEnd)
  }
}
