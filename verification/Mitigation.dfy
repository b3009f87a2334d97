/** `analyze_flows`: the loop that emits up to ten rules, each built from the best candidate
    of what the earlier candidates left over. The loop is specified by the list of its rounds. */
module Mitigation {
  import opened Network
  import opened Flows
  import opened PrefixDescent
  import opened Candidates

  const MAX_RULES: nat := 10

  /** The flag names "fin", "syn", "rst", "psh", "ack" and "urg". */
  datatype FlagName = Fin | Syn | Rst | Psh | Ack | Urg

  /** A suggested BGP Flow Spec rule. Prefixes are kept as prefixes: printing them is left out. */
  datatype MitigationRule = MitigationRule(
    sourcePrefix: Option<IpNet>,
    destinationPrefix: IpNet,
    destinationPorts: seq<u16>,
    sourcePorts: seq<u16>,
    protocols: seq<string>,
    tcpFlags: seq<FlagName>)

  // ---------------------------------------------------------------- names

  function Digit(d: nat): char
    requires d < 10
  {
    '0' + d as char
  }

  /** `u8::to_string`. */
  function Decimal(n: u8): string {
    if n < 10 then [Digit(n)]
    else if n < 100 then [Digit(n / 10), Digit(n % 10)]
    else [Digit(n / 100), Digit(n / 10 % 10), Digit(n % 10)]
  }

  function ProtocolName(protocol: u8): string {
    match protocol
    case 1 => "icmp"
    case 6 => "tcp"
    case 17 => "udp"
    case 47 => "gre"
    case 50 => "esp"
    case 58 => "icmp6"
    case n => Decimal(n)
  }

  function ProtoNumber(category: Category): u8 {
    match category
    case Tcp => 6
    case TcpSyn => 6
    case Https => 6
    case Udp => 17
    case Icmp => 1
    case Gre => 47
    case Esp => 50
    case Any => 0
    case Dns => 0
  }

  function FlagBit(name: FlagName): bv8 {
    match name
    case Fin => 0x01
    case Syn => 0x02
    case Rst => 0x04
    case Psh => 0x08
    case Ack => 0x10
    case Urg => 0x20
  }

  predicate FlagIsSet(flags: bv8, name: FlagName) {
    flags & FlagBit(name) != 0
  }

  function NamedFlags(): seq<FlagName> {
    [Fin, Syn, Rst, Psh, Ack, Urg]
  }

  /** Those of the names whose flag is set, in the given order. */
  function SetAmong(names: seq<FlagName>, flags: bv8): seq<FlagName> {
    if names == [] then [] else
      var n := |names| - 1;
      SetAmong(names[..n], flags) + if FlagIsSet(flags, names[n]) then [names[n]] else []
  }

  function FlagNames(flags: bv8): seq<FlagName> {
    SetAmong(NamedFlags(), flags)
  }

  predicate BitBelow(a: FlagName, b: FlagName) {
    FlagBit(a) < FlagBit(b)
  }

  ghost predicate InBitOrder(names: seq<FlagName>) {
    forall i, j :: 0 <= i < j < |names| ==> BitBelow(names[i], names[j])
  }

  lemma {:induction false} SetAmongFacts(names: seq<FlagName>, flags: bv8)
    requires InBitOrder(names)
    ensures forall name :: name in SetAmong(names, flags) <==> name in names && FlagIsSet(flags, name)
    ensures InBitOrder(SetAmong(names, flags))
  {
    if names != [] {
      var n := |names| - 1;
      SetAmongFacts(names[..n], flags);
      assert names == names[..n] + [names[n]];
      var rest := SetAmong(names[..n], flags);
      forall i | 0 <= i < |rest| ensures BitBelow(rest[i], names[n]) {
        assert rest[i] in names[..n];
      }
    }
  }

  lemma NamedFlagsAreAll()
    ensures InBitOrder(NamedFlags()) && forall name: FlagName :: name in NamedFlags()
  {
    var all := NamedFlags();
    assert all[0] == Fin && all[1] == Syn && all[2] == Rst && all[3] == Psh && all[4] == Ack && all[5] == Urg;
    forall name: FlagName ensures name in all {
      match name
      case Fin => assert all[0] in all;
      case Syn => assert all[1] in all;
      case Rst => assert all[2] in all;
      case Psh => assert all[3] in all;
      case Ack => assert all[4] in all;
      case Urg => assert all[5] in all;
    }
  }

  lemma SetAmongPush(names: seq<FlagName>, name: FlagName, flags: bv8)
    ensures SetAmong(names + [name], flags) == SetAmong(names, flags) + if FlagIsSet(flags, name) then [name] else []
  {
    assert (names + [name])[..|names|] == names;
  }

  /** The names are those of the set flags, each once, in the order of their bits. */
  method TcpFlagNames(flags: bv8) returns (names: seq<FlagName>)
    ensures forall name :: name in names <==> FlagIsSet(flags, name)
    ensures InBitOrder(names)
    ensures names == FlagNames(flags)
  {
    names := [];
    ghost var done: seq<FlagName> := [];
    names, done := PushIfSet(flags, Fin, names, done);
    names, done := PushIfSet(flags, Syn, names, done);
    names, done := PushIfSet(flags, Rst, names, done);
    names, done := PushIfSet(flags, Psh, names, done);
    names, done := PushIfSet(flags, Ack, names, done);
    names, done := PushIfSet(flags, Urg, names, done);
    assert done == NamedFlags();
    NamedFlagsAreAll();
    SetAmongFacts(NamedFlags(), flags);
  }

  /** `if flags & bit != 0 { names.push(..) }`, after the flags in `done`. */
  method PushIfSet(flags: bv8, name: FlagName, names: seq<FlagName>, ghost done: seq<FlagName>)
    returns (longer: seq<FlagName>, ghost done': seq<FlagName>)
    requires names == SetAmong(done, flags)
    ensures longer == SetAmong(done', flags) && done' == done + [name]
  {
    SetAmongPush(done, name, flags);
    done' := done + [name];
    longer := names;
    if flags & FlagBit(name) != 0 {
      longer := longer + [name];
    }
  }

  // ---------------------------------------------------------------- forced fields

  function ForcedProtocol(category: Category): Option<string> {
    match category
    case Any => None
    case TcpSyn => Some("tcp")
    case Dns => None
    case Https => Some("tcp")
    case other =>
      var n := ProtoNumber(other);
      if n != 0 then Some(ProtocolName(n)) else None
  }

  function ForcedDstPort(category: Category): Option<u16> {
    match category
    case Dns => Some(53)
    case Https => Some(443)
    case _ => None
  }

  predicate HasForced(category: Category) {
    ForcedProtocol(category).Some? || ForcedDstPort(category).Some?
  }

  function ExcludeMask(category: Category): bv8 {
    (if ForcedProtocol(category).Some? then PROTOCOL else 0)
    | (if ForcedDstPort(category).Some? then DST_PORT else 0)
  }

  /** The candidate of the fallback: it constrains nothing beyond the forced fields. */
  function Blanket(): Candidate {
    Candidate(FieldSet(0), None, None, None, None, None)
  }

  // ---------------------------------------------------------------- building a rule

  /** A port of 0 is not named; the forced port counts only if the candidate has none. */
  function RuleDstPorts(c: Candidate, category: Category): seq<u16> {
    if c.dstPort.Some? then (if c.dstPort.value != 0 then [c.dstPort.value] else [])
    else if ForcedDstPort(category).Some? then [ForcedDstPort(category).value] else []
  }

  function RuleSrcPorts(c: Candidate): seq<u16> {
    if c.srcPort.Some? && c.srcPort.value != 0 then [c.srcPort.value] else []
  }

  function RuleProtocols(c: Candidate, category: Category): seq<string> {
    if c.protocol.Some? then [ProtocolName(c.protocol.value)]
    else if ForcedProtocol(category).Some? then [ForcedProtocol(category).value] else []
  }

  /** A TcpSyn rule always names a flag. */
  function RuleFlags(c: Candidate, category: Category): seq<FlagName> {
    var flagNames := if c.tcpFlags.Some? then FlagNames(c.tcpFlags.value) else [];
    if category == TcpSyn && flagNames == [] then [Syn] else flagNames
  }

  function BuildRule(
    c: Candidate, narrowed: IpNet, destPrefix: IpNet, direction: Direction, category: Category): MitigationRule
  {
    var sourceHost := if c.srcIp.Some? then Some(Host(c.srcIp.value)) else None;
    MitigationRule(
      if direction == Inbound then sourceHost else Some(narrowed),
      if direction == Inbound then narrowed else if sourceHost.Some? then sourceHost.value else destPrefix,
      RuleDstPorts(c, category), RuleSrcPorts(c), RuleProtocols(c, category), RuleFlags(c, category))
  }

  /** The rule as the loop puts it together, list by list. */
  method AssembleRule(
    c: Candidate, narrowed: IpNet, destPrefix: IpNet, direction: Direction, category: Category)
    returns (rule: MitigationRule)
    ensures rule == BuildRule(c, narrowed, destPrefix, direction, category)
  {
    var sourceHost := if c.srcIp.Some? then Some(Host(c.srcIp.value)) else None;
    var destinationPorts: seq<u16>, sourcePorts: seq<u16> := [], [];
    if c.dstPort.Some? {
      if c.dstPort.value != 0 {
        destinationPorts := destinationPorts + [c.dstPort.value];
      }
    } else if ForcedDstPort(category).Some? {
      destinationPorts := destinationPorts + [ForcedDstPort(category).value];
    }
    if c.srcPort.Some? && c.srcPort.value != 0 {
      sourcePorts := sourcePorts + [c.srcPort.value];
    }
    assert destinationPorts == RuleDstPorts(c, category) && sourcePorts == RuleSrcPorts(c);
    var protocols: seq<string> := [];
    if c.protocol.Some? {
      protocols := [ProtocolName(c.protocol.value)];
    } else if ForcedProtocol(category).Some? {
      protocols := [ForcedProtocol(category).value];
    }
    assert protocols == RuleProtocols(c, category);
    var flagNames: seq<FlagName> := [];
    if c.tcpFlags.Some? {
      flagNames := TcpFlagNames(c.tcpFlags.value);
    }
    if category == TcpSyn && flagNames == [] {
      flagNames := flagNames + [Syn];
    }
    assert flagNames == RuleFlags(c, category);
    if direction == Inbound {
      rule := MitigationRule(sourceHost, narrowed, destinationPorts, sourcePorts, protocols, flagNames);
    } else {
      var destination := if sourceHost.Some? then sourceHost.value else destPrefix;
      rule := MitigationRule(Some(narrowed), destination, destinationPorts, sourcePorts, protocols, flagNames);
    }
  }

  // ---------------------------------------------------------------- the rounds of an analysis

  datatype Request = Request(
    flows: seq<FlowRecord>, destPrefix: IpNet, direction: Direction, category: Category,
    currentRate: real, threshold: real)

  /** One pass of the loop: the flows it started from, and what it chose. */
  datatype Round = Round(before: seq<FlowRecord>, candidate: Candidate, narrowed: IpNet, fallback: bool)

  function OfCategory(category: Category): FlowPred {
    (f: FlowRecord) => InCategory(f, category)
  }

  function NotMatchedBy(c: Candidate): FlowPred {
    (f: FlowRecord) => !c.Matches(f)
  }

  function Filtered(q: Request): seq<FlowRecord> {
    Where(q.flows, OfCategory(q.category))
  }

  /** What the rounds so far left over. */
  function Remaining(q: Request, rounds: seq<Round>): seq<FlowRecord> {
    if rounds == [] then Filtered(q) else
      var last := rounds[|rounds| - 1];
      Where(last.before, NotMatchedBy(last.candidate))
  }

  /** `rate * (share / total) >= threshold` for a positive total, compared without division. */
  predicate RateAtLeast(rate: real, share: nat, threshold: real, total: nat) {
    rate * share as real >= threshold * total as real
  }

  /** The estimated rate of the remaining traffic is below the alert's threshold. */
  predicate BelowThreshold(q: Request, remaining: nat, total: nat) {
    total > 0 && q.threshold > 0.0 && !RateAtLeast(q.currentRate, remaining, q.threshold, total)
  }

  ghost predicate IsNarrowed(flows: seq<FlowRecord>, direction: Direction, prefix: IpNet, r: IpNet) {
    if Bytes(flows) == 0 then r == prefix else NarrowestDominant(flows, direction, prefix, r)
  }

  ghost predicate ValidRound(q: Request, round: Round, i: nat) {
    && round.before != []
    && !BelowThreshold(q, Bytes(round.before), Bytes(Filtered(q)))
    && IsNarrowed(round.before, q.direction, q.destPrefix, round.narrowed)
    && (if round.fallback then
          && i == 0 && HasForced(q.category) && round.candidate == Blanket()
          && IsBest(round.before, ExcludeMask(q.category), None)
        else
          IsBest(round.before, ExcludeMask(q.category), Some(round.candidate)))
  }

  /** Each round starts from what the previous ones left, the first from the filtered flows. */
  ghost predicate Chained(q: Request, rounds: seq<Round>) {
    rounds == [] ||
      var n := |rounds| - 1;
      Chained(q, rounds[..n]) && rounds[n].before == Remaining(q, rounds[..n])
  }

  ghost predicate AllValid(q: Request, rounds: seq<Round>) {
    forall i {:trigger ValidRound(q, rounds[i], i)} :: 0 <= i < |rounds| ==> ValidRound(q, rounds[i], i)
  }

  ghost predicate ValidRounds(q: Request, rounds: seq<Round>) {
    |rounds| <= MAX_RULES && Chained(q, rounds) && AllValid(q, rounds)
  }

  /** Why the loop ended. */
  ghost predicate Finished(q: Request, rounds: seq<Round>) {
    var leftover := Remaining(q, rounds);
    || |rounds| == MAX_RULES
    || leftover == []
    || BelowThreshold(q, Bytes(leftover), Bytes(Filtered(q)))
    || (IsBest(leftover, ExcludeMask(q.category), None) && !(rounds == [] && HasForced(q.category)))
  }

  function RuleOf(q: Request, round: Round): MitigationRule {
    BuildRule(round.candidate, round.narrowed, q.destPrefix, q.direction, q.category)
  }

  function RulesOf(q: Request, rounds: seq<Round>): (rules: seq<MitigationRule>)
    ensures |rules| == |rounds|
    ensures forall i :: 0 <= i < |rounds| ==> rules[i] == RuleOf(q, rounds[i])
  {
    seq(|rounds|, i requires 0 <= i < |rounds| => RuleOf(q, rounds[i]))
  }

  ghost predicate IsAnalysis(q: Request, rounds: seq<Round>, rules: seq<MitigationRule>) {
    ValidRounds(q, rounds) && Finished(q, rounds) && rules == RulesOf(q, rounds)
  }

  /** `rules` is what the analysis can answer to this request, for some hash map order. */
  ghost predicate Analyzed(q: Request, rules: seq<MitigationRule>) {
    exists rounds :: IsAnalysis(q, rounds, rules)
  }

  lemma RulesExtend(q: Request, rounds: seq<Round>, round: Round)
    ensures RulesOf(q, rounds + [round]) == RulesOf(q, rounds) + [RuleOf(q, round)]
  {
  }

  lemma ExtendRounds(q: Request, rounds: seq<Round>, round: Round)
    requires ValidRounds(q, rounds) && |rounds| < MAX_RULES
    requires round.before == Remaining(q, rounds) && ValidRound(q, round, |rounds|)
    ensures ValidRounds(q, rounds + [round])
  {
    var longer := rounds + [round];
    assert longer[..|rounds|] == rounds;
    forall i | 0 <= i < |longer| ensures ValidRound(q, longer[i], i) {
      if i < |rounds| {
        assert ValidRound(q, rounds[i], i);
      }
    }
  }

  lemma RoundIsValid(q: Request, rounds: seq<Round>, i: nat)
    requires AllValid(q, rounds) && i < |rounds|
    ensures ValidRound(q, rounds[i], i)
  {
  }

  lemma {:induction false} ChainedAt(q: Request, rounds: seq<Round>, i: nat)
    requires Chained(q, rounds) && i < |rounds|
    ensures Chained(q, rounds[..i]) && rounds[i].before == Remaining(q, rounds[..i])
  {
    var n := |rounds| - 1;
    if i < n {
      ChainedAt(q, rounds[..n], i);
      assert rounds[..n][..i] == rounds[..i];
    }
  }

  method FilterCategory(flows: seq<FlowRecord>, category: Category) returns (filtered: seq<FlowRecord>)
    ensures filtered == Where(flows, OfCategory(category))
  {
    filtered := [];
    for i := 0 to |flows|
      invariant filtered == Where(flows[..i], OfCategory(category))
    {
      var f := flows[i];
      assert flows[..i + 1][..i] == flows[..i];
      ClassifyIsExact(f);
      // The source skips the test for `Any`, which every flow passes.
      if category == Any || category in Categories(f) {
        filtered := filtered + [f];
      }
    }
    assert flows[..|flows|] == flows;
  }

  /** `Vec::retain` with the negated match. */
  method Retain(flows: seq<FlowRecord>, c: Candidate) returns (kept: seq<FlowRecord>)
    ensures kept == Where(flows, NotMatchedBy(c))
  {
    kept := [];
    for i := 0 to |flows|
      invariant kept == Where(flows[..i], NotMatchedBy(c))
    {
      assert flows[..i + 1][..i] == flows[..i];
      if !c.Matches(flows[i]) {
        kept := kept + [flows[i]];
      }
    }
    assert flows[..|flows|] == flows;
  }

  method AnalyzeFlows(q: Request) returns (rules: seq<MitigationRule>, ghost rounds: seq<Round>)
    ensures IsAnalysis(q, rounds, rules)
    ensures Analyzed(q, rules)
  {
    rules, rounds := [], [];
    var filtered := FilterCategory(q.flows, q.category);
    if q.flows != [] && filtered != [] {
      rules, rounds := EmitRules(q, filtered);
    }
    assert IsAnalysis(q, rounds, rules);
  }

  /** The loop of the analysis, over the flows of the alert's category. */
  method EmitRules(q: Request, filtered: seq<FlowRecord>) returns (rules: seq<MitigationRule>, ghost rounds: seq<Round>)
    requires filtered == Filtered(q)
    ensures IsAnalysis(q, rounds, rules)
  {
    rules, rounds := [], [];
    var remaining := filtered;
    var total := SumBytes(remaining);
    for i := 0 to MAX_RULES
      invariant |rounds| == i && ValidRounds(q, rounds) && rules == RulesOf(q, rounds)
      invariant remaining == Remaining(q, rounds)
    {
      if remaining == [] {
        return;
      }
      var remainingBytes := SumBytes(remaining);
      if BelowThreshold(q, remainingBytes, total) {
        return;
      }
      var best := FindBestCandidate(remaining, ExcludeMask(q.category));
      if best == None && !(rules == [] && HasForced(q.category)) {
        return;
      }
      var candidate := if best.Some? then best.value else Blanket();
      var narrowed := ComputeDestinationPrefix(remaining, q.direction, q.destPrefix);
      ghost var round := Round(remaining, candidate, narrowed, best == None);
      ExtendRounds(q, rounds, round);
      RulesExtend(q, rounds, round);
      var rule := AssembleRule(candidate, narrowed, q.destPrefix, q.direction, q.category);
      rules := rules + [rule];
      rounds := rounds + [round];
      remaining := Retain(remaining, candidate);
    }
  }
}
