/** Two inputs that show where the results of `Coverage` end: a first round whose candidate
    holds exactly a fifth of the bytes and whose rule selects none of the captured flows, and
    one whose rule removes flows that the loop counts as left. */
module Tightness {
  import opened Network
  import opened Flows
  import opened PrefixDescent
  import opened Candidates
  import opened Mitigation
  import opened RuleMeaning
  import opened Coverage

  const RULE_PREFIX: IpNet := Prefix(Address(V4, 0), 24)
  const BUSY_HOST: IpAddr := Address(V4, 7)

  /** One flow with every field set to a host of its own, and two bare flows from different
      sources that carry the rest of the bytes to one other host. */
  function Odd(): FlowRecord {
    FlowRecord(Address(V4, 1000), Address(V4, 200), 1, 1, 6, 2, 20, 1, 0, 1)
  }

  function Bare(source: IpAddr): FlowRecord {
    FlowRecord(source, BUSY_HOST, 0, 0, 0, 0, 40, 1, 0, 1)
  }

  function Captured(): seq<FlowRecord> {
    [Odd(), Bare(Address(V4, 1001)), Bare(Address(V4, 1002))]
  }

  function OddCandidate(): Candidate {
    Candidate(FieldSet(31), Some(Address(V4, 1000)), Some(1), Some(1), Some(6), Some(2))
  }

  lemma ThreeFlows(a: FlowRecord, b: FlowRecord, c: FlowRecord, p: FlowPred)
    ensures BytesWhere([a, b, c], p) ==
      (if p(a) then a.SampledBytes() else 0)
      + (if p(b) then b.SampledBytes() else 0) + (if p(c) then c.SampledBytes() else 0)
    ensures Bytes([a, b, c]) == a.SampledBytes() + b.SampledBytes() + c.SampledBytes()
  {
    var one, two, three := [a], [a, b], [a, b, c];
    assert three[..2] == two && two[..1] == one && one[..0] == [];
    assert BytesWhere(one, p) == if p(a) then a.SampledBytes() else 0;
    assert BytesWhere(two, p) == BytesWhere(one, p) + if p(b) then b.SampledBytes() else 0;
    assert Bytes(one) == a.SampledBytes() && Bytes(two) == Bytes(one) + b.SampledBytes();
  }

  lemma CapturedBytes(p: FlowPred)
    ensures Bytes(Captured()) == 100
    ensures BytesWhere(Captured(), p) ==
      (if p(Odd()) then 20 else 0)
      + (if p(Bare(Address(V4, 1001))) then 40 else 0) + (if p(Bare(Address(V4, 1002))) then 40 else 0)
  {
    ThreeFlows(Odd(), Bare(Address(V4, 1001)), Bare(Address(V4, 1002)), p);
  }

  /** A bare flow is grouped by its source alone. */
  lemma BareGroupsBySource(fields: FieldSet, source: IpAddr)
    requires 1 <= fields.bits <= 31 && FromFlow(Bare(source), fields).Some?
    ensures fields == FieldSet(1) && FromFlow(Bare(source), fields).value.srcIp == Some(source)
  {
  }

  lemma FullCount(fields: FieldSet)
    requires fields.bits <= 31
    ensures fields.Count() <= 5 && (fields.Count() == 5 ==> fields == FieldSet(31))
    ensures FieldSet(31).Count() == 5 && FieldSet(1).Count() == 1
  {
  }

  lemma OddIsBest()
    ensures IsBest(Captured(), 0, Some(OddCandidate()))
  {
    var best := Some(OddCandidate());
    var key := OddCandidate().Key();
    CapturedBytes(InGroup(FieldSet(31), key));
    OddGroup();
    assert GroupBytes(Captured(), FieldSet(31), key) == 20;
    forall fields, other | Allowed(fields, 0) ensures Beats(Captured(), best, fields, other) {
      var p := InGroup(fields, other);
      CapturedBytes(p);
      FullCount(fields);
      if p(Bare(Address(V4, 1001))) {
        BareGroupsBySource(fields, Address(V4, 1001));
      }
      if p(Bare(Address(V4, 1002))) {
        BareGroupsBySource(fields, Address(V4, 1002));
      }
      OddOutscores(GroupBytes(Captured(), fields, other), fields);
    }
  }

  lemma OddGroup()
    ensures FromFlow(Odd(), FieldSet(31)) == Some(OddCandidate().Key())
    ensures FromFlow(Bare(Address(V4, 1001)), FieldSet(31)) == None
    ensures FromFlow(Bare(Address(V4, 1002)), FieldSet(31)) == None
  {
  }

  lemma OddOutscores(bytes: nat, fields: FieldSet)
    requires bytes <= 20 || (bytes <= 40 && fields == FieldSet(1))
    requires fields.Count() <= 5 && (fields.Count() == 5 ==> fields == FieldSet(31))
    requires FieldSet(31).Count() == 5 && FieldSet(1).Count() == 1
    ensures Score(bytes, fields.Count()) <= Score(20, 5)
    ensures Score(bytes, fields.Count()) == Score(20, 5) ==> !Before(fields, FieldSet(31))
  {
    var k := fields.Count();
    if fields != FieldSet(1) {
      assert bytes * (2 + k) <= 20 * (2 + k) by {
        MulMonotone(bytes, 20, 2 + k);
      }
    }
  }

  lemma BusyHostIsNarrowest()
    ensures NarrowestDominant(Captured(), Inbound, RULE_PREFIX, Host(BUSY_HOST))
  {
    var host := Host(BUSY_HOST);
    HostContains(BUSY_HOST, Address(V4, 200));
    HostContains(BUSY_HOST, BUSY_HOST);
    CapturedBytes(EndsIn(Inbound, host));
    assert Contains(RULE_PREFIX, BUSY_HOST) by {
      assert BlockSize(V4, 24) == 256;
    }
    forall q: IpNet | Within(q, RULE_PREFIX) && q.len > 24 && DominantIn(Captured(), Inbound, q)
      ensures Within(host, q)
    {
      CapturedBytes(EndsIn(Inbound, q));
    }
  }

  /** At exactly a fifth, the rule of a first round may select nothing that was captured. */
  lemma AFifthIsNotEnough(rate: real, threshold: real)
    requires rate >= threshold
    ensures var q := Request(Captured(), RULE_PREFIX, Inbound, Any, rate, threshold);
      var round := Round(Captured(), OddCandidate(), Host(BUSY_HOST), false);
      && (forall f :: f in q.flows ==> Contains(q.destPrefix, f.dstIp))
      && ValidRound(q, round, 0) && round.before == Remaining(q, [])
      && BytesWhere(round.before, MatchedBy(round.candidate)) * 5 == Bytes(round.before)
      && forall f :: f in round.before ==> !RuleMatches(RuleOf(q, round), f)
  {
    var q := Request(Captured(), RULE_PREFIX, Inbound, Any, rate, threshold);
    var round := Round(Captured(), OddCandidate(), Host(BUSY_HOST), false);
    OddIsBest();
    BusyHostIsNarrowest();
    assert BlockSize(V4, 24) == 256;
    CapturedBytes(MatchedBy(OddCandidate()));
    AnyKeepsAll(Captured());
    HostContains(BUSY_HOST, Address(V4, 200));
    HostContains(Address(V4, 1000), Address(V4, 1001));
    HostContains(Address(V4, 1000), Address(V4, 1002));
    assert rate * 100.0 >= threshold * 100.0;
  }

  lemma {:induction false} AnyKeepsAll(flows: seq<FlowRecord>)
    ensures Where(flows, OfCategory(Any)) == flows
  {
    if flows != [] {
      AnyKeepsAll(flows[..|flows| - 1]);
    }
  }

  // ---------------------------------------------------------------- flags without names

  /** An ECN SYN (0xC2), and a plain SYN that agrees with it in every other field. */
  function EcnSyn(): FlowRecord {
    FlowRecord(Address(V4, 1000), BUSY_HOST, 1, 1, 6, 0xC2, 90, 1, 0, 1)
  }

  function PlainSyn(): FlowRecord {
    FlowRecord(Address(V4, 1000), BUSY_HOST, 1, 1, 6, 0x02, 10, 1, 0, 1)
  }

  function Syns(): seq<FlowRecord> {
    [EcnSyn(), PlainSyn()]
  }

  function EcnCandidate(): Candidate {
    Candidate(FieldSet(31), Some(Address(V4, 1000)), Some(1), Some(1), Some(6), Some(0xC2))
  }

  lemma SynBytes(p: FlowPred)
    ensures Bytes(Syns()) == 100
    ensures BytesWhere(Syns(), p) == (if p(EcnSyn()) then 90 else 0) + (if p(PlainSyn()) then 10 else 0)
  {
    var one, two := [EcnSyn()], Syns();
    assert two[..1] == one && one[..0] == [];
    assert BytesWhere(one, p) == if p(EcnSyn()) then 90 else 0;
    assert Bytes(one) == 90;
  }

  lemma SynKeys(fields: FieldSet)
    requires fields.bits <= 31
    ensures FromFlow(EcnSyn(), FieldSet(31)) == Some(EcnCandidate().Key())
    ensures FromFlow(PlainSyn(), FieldSet(31)).Some? && FromFlow(PlainSyn(), FieldSet(31)) != Some(EcnCandidate().Key())
  {
  }

  lemma EcnOutscores(bytes: nat, fields: FieldSet)
    requires bytes <= 100 && (fields == FieldSet(31) ==> bytes <= 90)
    requires fields.Count() <= 5 && (fields.Count() == 5 ==> fields == FieldSet(31))
    requires FieldSet(31).Count() == 5
    ensures Score(bytes, fields.Count()) <= Score(90, 5)
    ensures Score(bytes, fields.Count()) == Score(90, 5) ==> !Before(fields, FieldSet(31))
  {
    if fields != FieldSet(31) {
      MulMonotone(bytes, 100, 2 + fields.Count());
    }
  }

  lemma EcnIsBest()
    ensures IsBest(Syns(), 0, Some(EcnCandidate()))
  {
    var best := Some(EcnCandidate());
    SynKeys(FieldSet(31));
    SynBytes(InGroup(FieldSet(31), EcnCandidate().Key()));
    forall fields, other | Allowed(fields, 0) ensures Beats(Syns(), best, fields, other) {
      SynBytes(InGroup(fields, other));
      SynKeys(fields);
      FullCount(fields);
      EcnOutscores(GroupBytes(Syns(), fields, other), fields);
    }
  }

  lemma SynHostIsNarrowest()
    ensures NarrowestDominant(Syns(), Inbound, RULE_PREFIX, Host(BUSY_HOST))
  {
    HostContains(BUSY_HOST, BUSY_HOST);
    SynBytes(EndsIn(Inbound, Host(BUSY_HOST)));
    assert BlockSize(V4, 24) == 256;
    forall q: IpNet | Within(q, RULE_PREFIX) && q.len > 24 && DominantIn(Syns(), Inbound, q)
      ensures Within(Host(BUSY_HOST), q)
    {
      SynBytes(EndsIn(Inbound, q));
    }
  }

  function SynRequest(rate: real, threshold: real): Request {
    Request(Syns(), RULE_PREFIX, Inbound, Any, rate, threshold)
  }

  function SynRound(): Round {
    Round(Syns(), EcnCandidate(), Host(BUSY_HOST), false)
  }

  lemma SynRoundIsValid(rate: real, threshold: real)
    requires rate >= threshold
    ensures Filtered(SynRequest(rate, threshold)) == Syns()
    ensures ValidRound(SynRequest(rate, threshold), SynRound(), 0)
  {
    AnyKeepsAll(Syns());
    EcnIsBest();
    SynHostIsNarrowest();
    SynBytes(Everything());
    assert rate * 100.0 >= threshold * 100.0;
  }

  lemma SynsLeft()
    ensures Bytes(Where(Syns(), NotMatchedBy(EcnCandidate()))) == 10
  {
    SynBytes(NotMatchedBy(EcnCandidate()));
    WhereFacts(Syns(), NotMatchedBy(EcnCandidate()));
  }

  /** With a candidate that uses flags without names the stop rule can overestimate: here it
      counts a tenth of the bytes as left, of which the one rule leaves nothing. Below ten times
      the threshold that one round is the whole analysis. */
  lemma EstimateCanBeTooHigh(rate: real, threshold: real)
    requires rate >= threshold
    ensures var q, rounds := SynRequest(rate, threshold), [SynRound()];
      && ValidRounds(q, rounds)
      && Bytes(Remaining(q, rounds)) * 10 == Bytes(Filtered(q)) > 0
      && BytesWhere(Filtered(q), Survives(q, rounds)) == 0
    ensures 0.0 < threshold && rate < 10.0 * threshold ==>
      IsAnalysis(SynRequest(rate, threshold), [SynRound()], RulesOf(SynRequest(rate, threshold), [SynRound()]))
  {
    var q, rounds := SynRequest(rate, threshold), [SynRound()];
    SynRoundIsValid(rate, threshold);
    ExtendRounds(q, [], SynRound());
    assert [] + [SynRound()] == rounds;
    SynsLeft();
    SynBytes(Everything());
    assert RateAtLeast(rate, 10, threshold, 100) <==> rate >= 10.0 * threshold;
    SynRuleTakesBoth(q, rounds[0]);
    SynBytes(Survives(q, rounds));
  }

  lemma SynRuleTakesBoth(q: Request, round: Round)
    requires q.category == Any && q.direction == Inbound
    requires round.candidate == EcnCandidate() && round.narrowed == Host(BUSY_HOST)
    ensures RuleMatches(RuleOf(q, round), EcnSyn()) && RuleMatches(RuleOf(q, round), PlainSyn())
  {
    HostContains(BUSY_HOST, BUSY_HOST);
    assert WellShaped(q, EcnCandidate(), EcnSyn());
    InboundMeaning(q, EcnCandidate(), Host(BUSY_HOST), EcnSyn(), EcnSyn());
    InboundMeaning(q, EcnCandidate(), Host(BUSY_HOST), EcnSyn(), PlainSyn());
  }
}
