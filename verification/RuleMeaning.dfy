/** What an emitted rule means, and how that compares with what the analysis removed for it.
    A rule is read as the conjunction of the components present, as section 4.2 of RFC 8955
    has it; several values of one component are alternatives, and TCP flag names (section
    4.2.2.9) are read as "all the named flags are set". */
module RuleMeaning {
  import opened Network
  import opened Flows
  import opened Candidates
  import opened Mitigation

  predicate AddressesMatch(rule: MitigationRule, f: FlowRecord) {
    && (rule.sourcePrefix.Some? ==> Contains(rule.sourcePrefix.value, f.srcIp))
    && Contains(rule.destinationPrefix, f.dstIp)
  }

  predicate AllSet(names: seq<FlagName>, g: bv8) {
    forall name :: name in names ==> FlagIsSet(g, name)
  }

  predicate DstPortsMatch(rule: MitigationRule, f: FlowRecord) {
    rule.destinationPorts != [] ==> f.dstPort in rule.destinationPorts
  }

  predicate SrcPortsMatch(rule: MitigationRule, f: FlowRecord) {
    rule.sourcePorts != [] ==> f.srcPort in rule.sourcePorts
  }

  predicate ProtocolsMatch(rule: MitigationRule, f: FlowRecord) {
    rule.protocols != [] ==> ProtocolName(f.protocol) in rule.protocols
  }

  predicate HeadersMatch(rule: MitigationRule, f: FlowRecord) {
    && DstPortsMatch(rule, f)
    && SrcPortsMatch(rule, f)
    && ProtocolsMatch(rule, f)
    && AllSet(rule.tcpFlags, f.tcpFlags)
  }

  predicate RuleMatches(rule: MitigationRule, f: FlowRecord) {
    AddressesMatch(rule, f) && HeadersMatch(rule, f)
  }

  // ---------------------------------------------------------------- names are faithful

  lemma DigitInjective(a: nat, b: nat)
    requires a < 10 && b < 10 && Digit(a) == Digit(b)
    ensures a == b
  {
  }

  lemma DecimalInjective(p: u8, q: u8)
    requires Decimal(p) == Decimal(q)
    ensures p == q
  {
    var s := Decimal(p);
    assert |s| == |Decimal(q)| && s[0] == Decimal(q)[0];
    if p < 10 {
      DigitInjective(p, q);
    } else if p < 100 {
      assert s[1] == Decimal(q)[1];
      DigitInjective(p / 10, q / 10);
      DigitInjective(p % 10, q % 10);
    } else {
      assert s[1] == Decimal(q)[1] && s[2] == Decimal(q)[2];
      DigitInjective(p / 100, q / 100);
      DigitInjective(p / 10 % 10, q / 10 % 10);
      DigitInjective(p % 10, q % 10);
    }
  }

  predicate HasWordName(n: u8) {
    n == 1 || n == 6 || n == 17 || n == 47 || n == 50 || n == 58
  }

  lemma FirstLetterTells(n: u8)
    ensures |ProtocolName(n)| >= 1
    ensures HasWordName(n) <==> 'a' <= ProtocolName(n)[0]
  {
  }

  /** Different protocol numbers never share a name. */
  lemma ProtocolNameInjective(p: u8, q: u8)
    requires ProtocolName(p) == ProtocolName(q)
    ensures p == q
  {
    FirstLetterTells(p);
    FirstLetterTells(q);
    if HasWordName(p) {
      assert |ProtocolName(p)| == |ProtocolName(q)| && ProtocolName(p)[0] == ProtocolName(q)[0];
    } else {
      DecimalInjective(p, q);
    }
  }

  /** The names that rules use for protocols: the six words, and decimal digits otherwise. */
  lemma ProtocolNamesAre(n: u8)
    ensures ProtocolName(1) == "icmp" && ProtocolName(6) == "tcp" && ProtocolName(17) == "udp"
    ensures ProtocolName(47) == "gre" && ProtocolName(50) == "esp" && ProtocolName(58) == "icmp6"
    ensures !HasWordName(n) ==> 1 <= |ProtocolName(n)| <= 3 && DigitsValue(ProtocolName(n)) == Some(n)
  {
    DecimalDenotes(n);
  }

  /** The number that a string of digits denotes. */
  function DigitsValue(s: string): Option<nat> {
    if s == [] then Some(0) else
      var n := |s| - 1;
      var rest := DigitsValue(s[..n]);
      if rest.Some? && '0' <= s[n] <= '9' then Some(10 * rest.value + (s[n] - '0') as nat) else None
  }

  lemma DigitsPush(s: string, d: nat)
    requires d < 10 && DigitsValue(s).Some?
    ensures DigitsValue(s + [Digit(d)]) == Some(10 * DigitsValue(s).value + d)
  {
    assert (s + [Digit(d)])[..|s|] == s;
  }

  lemma OneDigit(d: nat)
    requires d < 10
    ensures DigitsValue([Digit(d)]) == Some(d)
  {
    DigitsPush([], d);
    assert [] + [Digit(d)] == [Digit(d)];
  }

  lemma TwoDigits(d: nat, e: nat)
    requires d < 10 && e < 10
    ensures DigitsValue([Digit(d), Digit(e)]) == Some(10 * d + e)
  {
    OneDigit(d);
    DigitsPush([Digit(d)], e);
    assert [Digit(d)] + [Digit(e)] == [Digit(d), Digit(e)];
  }

  lemma DecimalDenotes(n: u8)
    ensures 1 <= |Decimal(n)| <= 3 && DigitsValue(Decimal(n)) == Some(n)
  {
    if n < 10 {
      OneDigit(n);
    } else if n < 100 {
      TwoDigits(n / 10, n % 10);
    } else {
      TwoDigits(n / 100, n / 10 % 10);
      var two := [Digit(n / 100), Digit(n / 10 % 10)];
      DigitsPush(two, n % 10);
      assert Decimal(n) == two + [Digit(n % 10)];
    }
  }

  lemma FlagNamesAreTheSetFlags(flags: bv8, name: FlagName)
    ensures name in FlagNames(flags) <==> FlagIsSet(flags, name)
  {
    NamedFlagsAreAll();
    SetAmongFacts(NamedFlags(), flags);
  }

  /** The named flags are all set exactly when the low six bits cover those of `flags`. */
  lemma NamedFlagsMeanLowBits(flags: bv8, g: bv8)
    ensures AllSet(FlagNames(flags), g) <==> g & (flags & 0x3F) == flags & 0x3F
    ensures (Fin in FlagNames(flags) <==> flags & 0x01 != 0) && (Syn in FlagNames(flags) <==> flags & 0x02 != 0)
    ensures (Rst in FlagNames(flags) <==> flags & 0x04 != 0) && (Psh in FlagNames(flags) <==> flags & 0x08 != 0)
    ensures (Ack in FlagNames(flags) <==> flags & 0x10 != 0) && (Urg in FlagNames(flags) <==> flags & 0x20 != 0)
  {
    FlagNamesAreTheSetFlags(flags, Fin);
    FlagNamesAreTheSetFlags(flags, Syn);
    FlagNamesAreTheSetFlags(flags, Rst);
    FlagNamesAreTheSetFlags(flags, Psh);
    FlagNamesAreTheSetFlags(flags, Ack);
    FlagNamesAreTheSetFlags(flags, Urg);
    LowBitsCover(flags, g);
  }

  lemma LowBitsCover(flags: bv8, g: bv8)
    ensures g & (flags & 0x3F) == flags & 0x3F <==>
      && (flags & 0x01 != 0 ==> g & 0x01 != 0) && (flags & 0x02 != 0 ==> g & 0x02 != 0)
      && (flags & 0x04 != 0 ==> g & 0x04 != 0) && (flags & 0x08 != 0 ==> g & 0x08 != 0)
      && (flags & 0x10 != 0 ==> g & 0x10 != 0) && (flags & 0x20 != 0 ==> g & 0x20 != 0)
  {
  }

  // ---------------------------------------------------------------- what candidates look like

  lemma {:induction false} RemainingIsFiltered(q: Request, rounds: seq<Round>)
    requires Chained(q, rounds)
    ensures forall f :: f in Remaining(q, rounds) ==> f in Filtered(q)
  {
    if rounds != [] {
      var n := |rounds| - 1;
      RemainingIsFiltered(q, rounds[..n]);
      WhereFacts(rounds[n].before, NotMatchedBy(rounds[n].candidate));
    }
  }

  lemma BeforeIsInCategory(q: Request, rounds: seq<Round>, i: nat)
    requires Chained(q, rounds) && i < |rounds|
    ensures forall f :: f in rounds[i].before ==> f in q.flows && InCategory(f, q.category)
  {
    ChainedAt(q, rounds, i);
    RemainingIsFiltered(q, rounds[..i]);
    WhereFacts(q.flows, OfCategory(q.category));
  }

  /** The facts about a candidate that its rule relies on, and a captured flow behind it. */
  ghost predicate WellShaped(q: Request, c: Candidate, w: FlowRecord) {
    && c.Matches(w)
    && InCategory(w, q.category)
    && (c.dstPort.Some? ==> c.dstPort.value != 0 && ForcedDstPort(q.category) == None)
    && (c.srcPort.Some? ==> c.srcPort.value != 0)
    && (c.protocol.Some? ==> ForcedProtocol(q.category) == None)
    && (c.tcpFlags.Some? ==> c.tcpFlags.value == w.tcpFlags)
  }

  lemma ExcludedFields(fields: FieldSet, category: Category)
    requires Allowed(fields, ExcludeMask(category))
    ensures fields.Has(PROTOCOL) ==> ForcedProtocol(category) == None
    ensures fields.Has(DST_PORT) ==> ForcedDstPort(category) == None
  {
  }

  lemma RoundIsWellShaped(q: Request, rounds: seq<Round>, i: nat) returns (w: FlowRecord)
    requires ValidRounds(q, rounds) && i < |rounds|
    ensures w in rounds[i].before && WellShaped(q, rounds[i].candidate, w)
    ensures !rounds[i].fallback ==> rounds[i].candidate.fields.Count() >= 1
  {
    RoundIsValid(q, rounds, i);
    BeforeIsInCategory(q, rounds, i);
    var round := rounds[i];
    if round.fallback {
      w := round.before[0];
    } else {
      w := BestHasAFlow(round.before, ExcludeMask(q.category), Some(round.candidate));
      ExcludedFields(round.candidate.fields, q.category);
    }
  }

  // ---------------------------------------------------------------- the meaning of a rule

  /** What the candidate says in the flags that a rule can name. */
  function Nameable(c: Candidate): Candidate {
    if c.tcpFlags.Some? then c.(tcpFlags := Some(c.tcpFlags.value & 0x3F)) else c
  }

  predicate NamesAllItsFlags(c: Candidate) {
    c.tcpFlags.Some? ==> c.tcpFlags.value & 0xC0 == 0
  }

  /** Without the addresses, a rule says what its candidate says in nameable flags; under the
      `Icmp` filter it says protocol 1, which leaves ICMPv6 out. */
  lemma RuleBodyMeaning(q: Request, c: Candidate, narrowed: IpNet, w: FlowRecord, f: FlowRecord)
    requires WellShaped(q, c, w) && InCategory(f, q.category)
    ensures var rule := BuildRule(c, narrowed, q.destPrefix, q.direction, q.category);
      HeadersMatch(rule, f) <==> Nameable(c).(srcIp := None).Matches(f) && (q.category == Icmp ==> f.protocol == 1)
  {
    var rule := BuildRule(c, narrowed, q.destPrefix, q.direction, q.category);
    PortPartsMeaning(q, c, narrowed, w, f);
    ProtocolPartMeaning(q, c, narrowed, w, f);
    FlagPartMeaning(q, c, narrowed, w, f);
    assert HeadersMatch(rule, f) ==
      (DstPortsMatch(rule, f) && SrcPortsMatch(rule, f) && ProtocolsMatch(rule, f)
       && AllSet(rule.tcpFlags, f.tcpFlags));
    NameableParts(c, f);
  }

  /** The parts of a candidate's match, without the source address. */
  lemma NameableParts(c: Candidate, f: FlowRecord)
    ensures Nameable(c).(srcIp := None).Matches(f) <==>
      && (c.dstPort.Some? ==> f.dstPort == c.dstPort.value)
      && (c.srcPort.Some? ==> f.srcPort == c.srcPort.value)
      && (c.protocol.Some? ==> f.protocol == c.protocol.value)
      && CoversNamed(c, f.tcpFlags)
  {
  }

  lemma PortPartsMeaning(q: Request, c: Candidate, narrowed: IpNet, w: FlowRecord, f: FlowRecord)
    requires WellShaped(q, c, w) && InCategory(f, q.category)
    ensures var rule := BuildRule(c, narrowed, q.destPrefix, q.direction, q.category);
      && (DstPortsMatch(rule, f) <==> (c.dstPort.Some? ==> f.dstPort == c.dstPort.value))
      && (SrcPortsMatch(rule, f) <==> (c.srcPort.Some? ==> f.srcPort == c.srcPort.value))
  {
  }

  lemma ProtocolPartMeaning(q: Request, c: Candidate, narrowed: IpNet, w: FlowRecord, f: FlowRecord)
    requires WellShaped(q, c, w) && InCategory(f, q.category)
    ensures var rule := BuildRule(c, narrowed, q.destPrefix, q.direction, q.category);
      ProtocolsMatch(rule, f)
      <==> (c.protocol.Some? ==> f.protocol == c.protocol.value) && (q.category == Icmp ==> f.protocol == 1)
  {
    var named: u8 := if c.protocol.Some? then c.protocol.value else ProtoNumber(q.category);
    if ProtocolName(f.protocol) == ProtocolName(named) {
      ProtocolNameInjective(f.protocol, named);
    }
  }

  lemma FlagPartMeaning(q: Request, c: Candidate, narrowed: IpNet, w: FlowRecord, f: FlowRecord)
    requires WellShaped(q, c, w) && InCategory(f, q.category)
    ensures var rule := BuildRule(c, narrowed, q.destPrefix, q.direction, q.category);
      && (AllSet(rule.tcpFlags, f.tcpFlags) <==> CoversNamed(c, f.tcpFlags))
      && (q.category == TcpSyn ==> Syn in rule.tcpFlags)
  {
    RuleFlagsMeaning(c, q.category, w, f);
  }

  /** The flags of the candidate that have a name are all set in `g`. */
  predicate CoversNamed(c: Candidate, g: bv8) {
    c.tcpFlags.Some? ==> g & (c.tcpFlags.value & 0x3F) == c.tcpFlags.value & 0x3F
  }

  lemma RuleFlagsMeaning(c: Candidate, category: Category, w: FlowRecord, f: FlowRecord)
    requires InCategory(w, category) && InCategory(f, category)
    requires c.tcpFlags.Some? ==> c.tcpFlags.value == w.tcpFlags
    ensures AllSet(RuleFlags(c, category), f.tcpFlags) <==> CoversNamed(c, f.tcpFlags)
    ensures category == TcpSyn ==> Syn in RuleFlags(c, category)
  {
    if c.tcpFlags.Some? {
      NamedFlagsMeanLowBits(c.tcpFlags.value, f.tcpFlags);
      assert category == TcpSyn ==> Syn in FlagNames(c.tcpFlags.value);
      assert RuleFlags(c, category) == FlagNames(c.tcpFlags.value);
    } else {
      assert RuleFlags(c, category) == if category == TcpSyn then [Syn] else [];
    }
  }

  lemma InboundAddresses(q: Request, c: Candidate, narrowed: IpNet, f: FlowRecord)
    requires q.direction == Inbound
    ensures AddressesMatch(BuildRule(c, narrowed, q.destPrefix, q.direction, q.category), f) <==>
      (c.srcIp.Some? ==> f.srcIp == c.srcIp.value) && Contains(narrowed, f.dstIp)
  {
    if c.srcIp.Some? {
      HostContains(c.srcIp.value, f.srcIp);
    }
  }

  lemma SourceSplitsOff(c: Candidate, f: FlowRecord)
    ensures c.Matches(f) <==> (c.srcIp.Some? ==> f.srcIp == c.srcIp.value) && c.(srcIp := None).Matches(f)
  {
  }

  /** The rule of one round, by its candidate and its narrowed prefix. */
  lemma InboundMeaning(q: Request, c: Candidate, narrowed: IpNet, w: FlowRecord, f: FlowRecord)
    requires q.direction == Inbound && WellShaped(q, c, w) && InCategory(f, q.category)
    ensures RuleMatches(BuildRule(c, narrowed, q.destPrefix, q.direction, q.category), f) <==>
      && Nameable(c).Matches(f)
      && Contains(narrowed, f.dstIp)
      && (q.category == Icmp ==> f.protocol == 1)
  {
    var rule := BuildRule(c, narrowed, q.destPrefix, q.direction, q.category);
    var nameable := Nameable(c);
    var addresses, headers := AddressesMatch(rule, f), HeadersMatch(rule, f);
    RuleBodyMeaning(q, c, narrowed, w, f);
    InboundAddresses(q, c, narrowed, f);
    SourceSplitsOff(nameable, f);
    assert nameable.srcIp == c.srcIp;
    assert RuleMatches(rule, f) == (addresses && headers);
  }

  /** Inbound, without assumptions: a rule matches what the nameable part of its candidate
      matches inside the narrowed prefix, less ICMPv6 under the `Icmp` filter. */
  lemma InboundRuleMeaning(q: Request, rounds: seq<Round>, i: nat, f: FlowRecord)
    requires ValidRounds(q, rounds) && i < |rounds| && q.direction == Inbound && InCategory(f, q.category)
    ensures RuleMatches(RuleOf(q, rounds[i]), f) <==>
      && Nameable(rounds[i].candidate).Matches(f)
      && Contains(rounds[i].narrowed, f.dstIp)
      && (q.category == Icmp ==> f.protocol == 1)
    ensures q.category == TcpSyn ==> Syn in RuleOf(q, rounds[i]).tcpFlags
  {
    var w := RoundIsWellShaped(q, rounds, i);
    InboundMeaning(q, rounds[i].candidate, rounds[i].narrowed, w, f);
    FlagPartMeaning(q, rounds[i].candidate, rounds[i].narrowed, w, f);
  }

  /** The rule says exactly "the candidate, inside the narrowed prefix". */
  ghost predicate RuleIsExact(q: Request, c: Candidate, narrowed: IpNet) {
    var rule := BuildRule(c, narrowed, q.destPrefix, q.direction, q.category);
    forall f: FlowRecord :: InCategory(f, q.category) ==>
      (RuleMatches(rule, f) <==> c.Matches(f) && Contains(narrowed, f.dstIp))
  }

  lemma ExactWithoutUnnamedFlags(q: Request, c: Candidate, narrowed: IpNet, w: FlowRecord)
    requires q.direction == Inbound && WellShaped(q, c, w)
    requires NamesAllItsFlags(c) && q.category != Icmp
    ensures RuleIsExact(q, c, narrowed)
  {
    if c.tcpFlags.Some? {
      MaskIsIdentity(c.tcpFlags.value);
    }
    forall f: FlowRecord | InCategory(f, q.category)
      ensures RuleMatches(BuildRule(c, narrowed, q.destPrefix, q.direction, q.category), f)
        <==> c.Matches(f) && Contains(narrowed, f.dstIp)
    {
      InboundMeaning(q, c, narrowed, w, f);
    }
  }

  ghost predicate Disagree(q: Request, c: Candidate, narrowed: IpNet, f: FlowRecord) {
    && InCategory(f, q.category)
    && Contains(narrowed, f.dstIp)
    && RuleMatches(BuildRule(c, narrowed, q.destPrefix, q.direction, q.category), f) != c.Matches(f)
  }

  /** Under the `Icmp` filter an ICMPv6 flow matches the candidate but not the rule. */
  lemma IcmpRuleMissesIcmpV6(q: Request, c: Candidate, narrowed: IpNet, w: FlowRecord) returns (f: FlowRecord)
    requires q.direction == Inbound && WellShaped(q, c, w) && q.category == Icmp
    ensures Disagree(q, c, narrowed, f)
  {
    f := w.(dstIp := narrowed.addr, protocol := 58);
    assert ForcedProtocol(Icmp).Some? && c.protocol == None;
    assert c.Matches(f);
    InboundMeaning(q, c, narrowed, w, f);
  }

  /** With a flag that has no name, a flow with just the named ones matches only the rule. */
  lemma UnnamedFlagWidensRule(q: Request, c: Candidate, narrowed: IpNet, w: FlowRecord) returns (f: FlowRecord)
    requires q.direction == Inbound && WellShaped(q, c, w) && q.category != Icmp && !NamesAllItsFlags(c)
    ensures Disagree(q, c, narrowed, f) && !c.Matches(f)
  {
    f := w.(dstIp := narrowed.addr, tcpFlags := w.tcpFlags & 0x3F);
    MaskKeepsSyn(w.tcpFlags);
    MaskDropsHighBits(w.tcpFlags);
    InboundMeaning(q, c, narrowed, w, f);
    assert !c.Matches(f);
    assert Nameable(c).Matches(f);
  }

  /** An inbound rule is exact for the flows of its category if and only if the candidate
      uses no flag without a name (0x40, 0x80) and the filter is not `Icmp`. */
  lemma InboundRuleExactIff(q: Request, rounds: seq<Round>, i: nat)
    requires ValidRounds(q, rounds) && i < |rounds| && q.direction == Inbound
    ensures RuleIsExact(q, rounds[i].candidate, rounds[i].narrowed)
      <==> NamesAllItsFlags(rounds[i].candidate) && q.category != Icmp
  {
    var c, narrowed := rounds[i].candidate, rounds[i].narrowed;
    var w := RoundIsWellShaped(q, rounds, i);
    if NamesAllItsFlags(c) && q.category != Icmp {
      ExactWithoutUnnamedFlags(q, c, narrowed, w);
    } else {
      var f;
      if q.category == Icmp {
        f := IcmpRuleMissesIcmpV6(q, c, narrowed, w);
      } else {
        f := UnnamedFlagWidensRule(q, c, narrowed, w);
      }
      assert Disagree(q, c, narrowed, f);
    }
  }

  lemma UnnamedFlagEscapesIcmp(q: Request, c: Candidate, narrowed: IpNet, w: FlowRecord) returns (f: FlowRecord)
    requires q.direction == Inbound && WellShaped(q, c, w) && q.category == Icmp && !NamesAllItsFlags(c)
    ensures InCategory(f, Icmp) && !c.Matches(f)
    ensures RuleMatches(BuildRule(c, narrowed, q.destPrefix, q.direction, q.category), f)
  {
    f := w.(dstIp := narrowed.addr, tcpFlags := w.tcpFlags & 0x3F, protocol := 1);
    MaskDropsHighBits(w.tcpFlags);
    assert c.protocol == None;
    assert Nameable(c).Matches(f);
    InboundMeaning(q, c, narrowed, w, f);
  }

  /** With a flag that has no name, a flow of the category with just the named ones matches
      the rule but not the candidate, also under the `Icmp` filter. */
  lemma UnnamedFlagEscapes(q: Request, c: Candidate, narrowed: IpNet, w: FlowRecord) returns (f: FlowRecord)
    requires q.direction == Inbound && WellShaped(q, c, w) && !NamesAllItsFlags(c)
    ensures InCategory(f, q.category) && !c.Matches(f)
    ensures RuleMatches(BuildRule(c, narrowed, q.destPrefix, q.direction, q.category), f)
  {
    if q.category == Icmp {
      f := UnnamedFlagEscapesIcmp(q, c, narrowed, w);
    } else {
      f := UnnamedFlagWidensRule(q, c, narrowed, w);
    }
  }

  /** An inbound rule matches only what its candidate matches, within the category, if and
      only if the candidate uses no flag without a name. */
  lemma RuleWithinCandidateIff(q: Request, rounds: seq<Round>, i: nat)
    requires ValidRounds(q, rounds) && i < |rounds| && q.direction == Inbound
    ensures (forall f: FlowRecord :: InCategory(f, q.category) && RuleMatches(RuleOf(q, rounds[i]), f) ==>
               rounds[i].candidate.Matches(f))
      <==> NamesAllItsFlags(rounds[i].candidate)
  {
    var c := rounds[i].candidate;
    var w := RoundIsWellShaped(q, rounds, i);
    if NamesAllItsFlags(c) {
      if c.tcpFlags.Some? {
        MaskIsIdentity(c.tcpFlags.value);
      }
      forall f: FlowRecord | InCategory(f, q.category) && RuleMatches(RuleOf(q, rounds[i]), f) ensures c.Matches(f) {
        InboundMeaning(q, c, rounds[i].narrowed, w, f);
      }
    } else {
      var f := UnnamedFlagEscapes(q, c, rounds[i].narrowed, w);
    }
  }

  /** What a caller can check beforehand: if no captured flow of the category uses a flag
      without a name, then no candidate does. */
  lemma CapturedFlagsAreNamed(q: Request, rounds: seq<Round>, i: nat)
    requires ValidRounds(q, rounds) && i < |rounds|
    requires forall f :: f in q.flows && InCategory(f, q.category) ==> f.tcpFlags & 0xC0 == 0
    ensures NamesAllItsFlags(rounds[i].candidate)
  {
    var w := RoundIsWellShaped(q, rounds, i);
    BeforeIsInCategory(q, rounds, i);
  }

  lemma MaskIsIdentity(flags: bv8)
    requires flags & 0xC0 == 0
    ensures flags & 0x3F == flags
  {
  }

  lemma MaskKeepsSyn(flags: bv8)
    ensures flags & 0x3F & 0x02 == flags & 0x02
  {
  }

  lemma MaskDropsHighBits(flags: bv8)
    requires flags & 0xC0 != 0
    ensures (flags & 0x3F) & flags != flags
    ensures (flags & 0x3F) & (flags & 0x3F) == flags & 0x3F
  {
  }

  /** On the captured flows themselves, ICMPv6 is the only other obstacle. */
  lemma InboundRuleExactOnCaptured(q: Request, rounds: seq<Round>, i: nat, f: FlowRecord)
    requires ValidRounds(q, rounds) && i < |rounds| && q.direction == Inbound && f in rounds[i].before
    requires NamesAllItsFlags(rounds[i].candidate)
    ensures RuleMatches(RuleOf(q, rounds[i]), f) <==>
      && rounds[i].candidate.Matches(f)
      && Contains(rounds[i].narrowed, f.dstIp)
      && !(q.category == Icmp && f.protocol == 58)
  {
    BeforeIsInCategory(q, rounds, i);
    InboundRuleMeaning(q, rounds, i, f);
    if rounds[i].candidate.tcpFlags.Some? {
      MaskIsIdentity(rounds[i].candidate.tcpFlags.value);
    }
  }

  ghost predicate StaysInCategory(rule: MitigationRule, category: Category) {
    forall f: FlowRecord :: RuleMatches(rule, f) ==> InCategory(f, category)
  }

  /** Inbound or outbound, a rule names its category: it touches no other traffic, except that
      a DNS rule without a protocol also matches port 53 of every other protocol. */
  lemma RuleStaysInCategoryIff(q: Request, rounds: seq<Round>, i: nat)
    requires ValidRounds(q, rounds) && i < |rounds|
    ensures StaysInCategory(RuleOf(q, rounds[i]), q.category)
      <==> !(q.category == Dns && rounds[i].candidate.protocol == None)
  {
    var w := RoundIsWellShaped(q, rounds, i);
    if q.category == Dns && rounds[i].candidate.protocol == None {
      var f := DnsRuleLeavesCategory(q, rounds[i].candidate, rounds[i].narrowed, w);
    } else {
      StaysOtherwise(q, rounds[i].candidate, rounds[i].narrowed, w);
    }
  }

  lemma DnsRuleLeavesCategory(q: Request, c: Candidate, narrowed: IpNet, w: FlowRecord) returns (f: FlowRecord)
    requires WellShaped(q, c, w) && q.category == Dns && c.protocol == None
    ensures !InCategory(f, Dns)
    ensures RuleMatches(BuildRule(c, narrowed, q.destPrefix, q.direction, q.category), f)
  {
    var rule := BuildRule(c, narrowed, q.destPrefix, q.direction, q.category);
    f := w.(dstIp := rule.destinationPrefix.addr, protocol := 0);
    if rule.sourcePrefix.Some? {
      f := f.(srcIp := rule.sourcePrefix.value.addr);
    }
    FlagPartMeaning(q, c, narrowed, w, w);
    LowBitsCoverThemselves(w.tcpFlags);
  }

  lemma StaysOtherwise(q: Request, c: Candidate, narrowed: IpNet, w: FlowRecord)
    requires WellShaped(q, c, w) && !(q.category == Dns && c.protocol == None)
    ensures StaysInCategory(BuildRule(c, narrowed, q.destPrefix, q.direction, q.category), q.category)
  {
    var rule := BuildRule(c, narrowed, q.destPrefix, q.direction, q.category);
    FlagPartMeaning(q, c, narrowed, w, w);
    var named: u8 := if c.protocol.Some? then c.protocol.value else ProtoNumber(q.category);
    forall f: FlowRecord | RuleMatches(rule, f) ensures InCategory(f, q.category) {
      if rule.protocols == [ProtocolName(named)] {
        ProtocolNameInjective(f.protocol, named);
      }
      if q.category == TcpSyn {
        assert FlagIsSet(f.tcpFlags, Syn);
      }
    }
  }

  lemma LowBitsCoverThemselves(flags: bv8)
    ensures flags & (flags & 0x3F) == flags & 0x3F
  {
  }

  // ---------------------------------------------------------------- outbound

  lemma OutboundMeaning(q: Request, c: Candidate, narrowed: IpNet, w: FlowRecord, f: FlowRecord)
    requires q.direction == Outbound && WellShaped(q, c, w) && InCategory(f, q.category)
    ensures RuleMatches(BuildRule(c, narrowed, q.destPrefix, q.direction, q.category), f) <==>
      && Nameable(c).(srcIp := None).Matches(f)
      && Contains(narrowed, f.srcIp)
      && (if c.srcIp.Some? then f.dstIp == c.srcIp.value else Contains(q.destPrefix, f.dstIp))
      && (q.category == Icmp ==> f.protocol == 1)
  {
    RuleBodyMeaning(q, c, narrowed, w, f);
    if c.srcIp.Some? {
      HostContains(c.srcIp.value, f.dstIp);
    }
  }

  /** Outbound, the source component holds the narrowed prefix, but the destination component
      is built from the candidate's source address or from the rule's own prefix. */
  lemma OutboundRuleMeaning(q: Request, rounds: seq<Round>, i: nat, f: FlowRecord)
    requires ValidRounds(q, rounds) && i < |rounds| && q.direction == Outbound && InCategory(f, q.category)
    ensures RuleMatches(RuleOf(q, rounds[i]), f) <==>
      && Nameable(rounds[i].candidate).(srcIp := None).Matches(f)
      && Contains(rounds[i].narrowed, f.srcIp)
      && (if rounds[i].candidate.srcIp.Some? then f.dstIp == rounds[i].candidate.srcIp.value
          else Contains(q.destPrefix, f.dstIp))
      && (q.category == Icmp ==> f.protocol == 1)
  {
    var w := RoundIsWellShaped(q, rounds, i);
    OutboundMeaning(q, rounds[i].candidate, rounds[i].narrowed, w, f);
  }

  /** A flow that the processor captures as outbound for a prefix. */
  predicate LeavesPrefix(f: FlowRecord, p: IpNet) {
    Contains(p, f.srcIp) && !Contains(p, f.dstIp)
  }

  /** So no outbound rule matches any flow that was captured as outbound. */
  lemma OutboundRulesMatchNothingCaptured(q: Request, rounds: seq<Round>, i: nat, f: FlowRecord)
    requires ValidRounds(q, rounds) && i < |rounds| && q.direction == Outbound
    requires forall g :: g in q.flows ==> LeavesPrefix(g, q.destPrefix)
    requires f in q.flows && InCategory(f, q.category)
    ensures !RuleMatches(RuleOf(q, rounds[i]), f)
  {
    var w := RoundIsWellShaped(q, rounds, i);
    BeforeIsInCategory(q, rounds, i);
    OutboundMeaning(q, rounds[i].candidate, rounds[i].narrowed, w, f);
  }
}
