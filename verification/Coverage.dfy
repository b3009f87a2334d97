/** What the rounds of an analysis do to the captured traffic as a whole: conservation,
    irredundancy, geometric decay, when rules are emitted at all, and how much of what a
    candidate holds its rule still selects. */
module Coverage {
  import opened Network
  import opened Flows
  import opened PrefixDescent
  import opened Candidates
  import opened Mitigation
  import opened RuleMeaning

  // ---------------------------------------------------------------- conservation

  /** The flows that the rounds removed, with their multiplicity. */
  ghost function Removed(rounds: seq<Round>): multiset<FlowRecord> {
    if rounds == [] then multiset{} else
      var last := rounds[|rounds| - 1];
      Removed(rounds[..|rounds| - 1]) + multiset(Where(last.before, MatchedBy(last.candidate)))
  }

  ghost function RemovedBytes(rounds: seq<Round>): nat {
    if rounds == [] then 0 else
      var last := rounds[|rounds| - 1];
      RemovedBytes(rounds[..|rounds| - 1]) + BytesWhere(last.before, MatchedBy(last.candidate))
  }

  lemma RoundConserves(round: Round)
    ensures var c := round.candidate;
      && multiset(round.before)
         == multiset(Where(round.before, MatchedBy(c))) + multiset(Where(round.before, NotMatchedBy(c)))
      && Bytes(round.before) == BytesWhere(round.before, MatchedBy(c)) + Bytes(Where(round.before, NotMatchedBy(c)))
  {
    var c := round.candidate;
    WhereSplits(round.before, MatchedBy(c), NotMatchedBy(c));
    WhereFacts(round.before, NotMatchedBy(c));
    var all: FlowPred := f => true;
    BytesWhereDisjointUnion(round.before, MatchedBy(c), NotMatchedBy(c), all);
    BytesWhereAll(round.before, all);
  }

  /** Conservation: what the rounds removed and what is left are the filtered flows, each
      exactly once. */
  lemma {:induction false} RoundsPartitionTheFlows(q: Request, rounds: seq<Round>)
    requires Chained(q, rounds)
    ensures multiset(Filtered(q)) == Removed(rounds) + multiset(Remaining(q, rounds))
    ensures Bytes(Filtered(q)) == RemovedBytes(rounds) + Bytes(Remaining(q, rounds))
  {
    if rounds != [] {
      var n := |rounds| - 1;
      RoundsPartitionTheFlows(q, rounds[..n]);
      RoundConserves(rounds[n]);
    }
  }

  // ---------------------------------------------------------------- irredundancy

  lemma {:induction false} RemainingIsUnmatched(q: Request, rounds: seq<Round>)
    requires Chained(q, rounds)
    ensures forall f, j :: f in Remaining(q, rounds) && 0 <= j < |rounds| ==> !rounds[j].candidate.Matches(f)
  {
    if rounds != [] {
      var n := |rounds| - 1;
      RemainingIsUnmatched(q, rounds[..n]);
      WhereFacts(rounds[n].before, NotMatchedBy(rounds[n].candidate));
      forall f, j | f in Remaining(q, rounds) && 0 <= j < |rounds| ensures !rounds[j].candidate.Matches(f) {
        if j < n {
          assert rounds[..n][j] == rounds[j];
        }
      }
    }
  }

  /** Irredundancy: the candidate of round `i` matches a captured flow that no earlier
      candidate matches, so it is implied by none of them. */
  lemma EachCandidateAddsAFlow(q: Request, rounds: seq<Round>, i: nat) returns (f: FlowRecord)
    requires ValidRounds(q, rounds) && i < |rounds|
    ensures f in Filtered(q) && rounds[i].candidate.Matches(f)
    ensures forall j :: 0 <= j < i ==> !rounds[j].candidate.Matches(f)
  {
    f := RoundIsWellShaped(q, rounds, i);
    ChainedAt(q, rounds, i);
    RemainingIsFiltered(q, rounds[..i]);
    RemainingIsUnmatched(q, rounds[..i]);
    forall j | 0 <= j < i ensures !rounds[j].candidate.Matches(f) {
      assert rounds[..i][j] == rounds[j];
    }
  }

  // ---------------------------------------------------------------- decay

  function Power(b: nat, k: nat): nat {
    if k == 0 then 1 else b * Power(b, k - 1)
  }

  /** The candidate matches at least a tenth of the bytes it was chosen from. */
  ghost predicate CoversATenth(round: Round) {
    BytesWhere(round.before, MatchedBy(round.candidate)) * 10 >= Bytes(round.before)
  }

  lemma RoundCovers(q: Request, round: Round, i: nat)
    requires ValidRound(q, round, i)
    ensures CoversATenth(round)
  {
    if round.fallback {
      BytesWhereAll(round.before, MatchedBy(round.candidate));
    } else {
      CandidateCoversItsGroup(round.before, round.candidate);
      BytesWhereMonotone(round.before, MatchedBy(round.candidate), MatchedBy(round.candidate));
    }
  }

  lemma {:induction false} RoundsCover(q: Request, rounds: seq<Round>)
    requires AllValid(q, rounds)
    ensures forall round :: round in rounds ==> CoversATenth(round)
  {
    forall round | round in rounds ensures CoversATenth(round) {
      var i :| 0 <= i < |rounds| && rounds[i] == round;
      RoundIsValid(q, rounds, i);
      RoundCovers(q, round, i);
    }
  }

  lemma RoundShrinks(round: Round)
    requires CoversATenth(round)
    ensures Bytes(Where(round.before, NotMatchedBy(round.candidate))) * 10 <= Bytes(round.before) * 9
  {
    RoundConserves(round);
  }

  lemma DecayStep(left: nat, before: nat, all: nat, tens: nat, nines: nat)
    requires left * 10 <= before * 9 && before * tens <= all * nines
    ensures left * (10 * tens) <= all * (9 * nines)
  {
    assert left * (10 * tens) == (left * 10) * tens;
    MulMonotone(left * 10, before * 9, tens);
    assert (before * 9) * tens == 9 * (before * tens);
    assert all * (9 * nines) == 9 * (all * nines);
  }

  lemma {:induction false} DecayOfCovers(q: Request, rounds: seq<Round>)
    requires Chained(q, rounds) && forall round :: round in rounds ==> CoversATenth(round)
    ensures Bytes(Remaining(q, rounds)) * Power(10, |rounds|) <= Bytes(Filtered(q)) * Power(9, |rounds|)
  {
    if rounds != [] {
      var n := |rounds| - 1;
      DecayOfCovers(q, rounds[..n]);
      assert rounds[n] in rounds;
      RoundShrinks(rounds[n]);
      DecayStep(
        Bytes(Remaining(q, rounds)), Bytes(rounds[n].before), Bytes(Filtered(q)), Power(10, n), Power(9, n));
    }
  }

  /** `left` is at most (9/10)^k of `all`. */
  ghost predicate DecayedTo(left: nat, all: nat, k: nat) {
    left * Power(10, k) <= all * Power(9, k)
  }

  /** Geometric decay: after k rules at most (9/10)^k of the bytes are left. */
  lemma RemainingDecays(q: Request, rounds: seq<Round>)
    requires ValidRounds(q, rounds)
    ensures DecayedTo(Bytes(Remaining(q, rounds)), Bytes(Filtered(q)), |rounds|)
  {
    RoundsCover(q, rounds);
    DecayOfCovers(q, rounds);
  }

  /** A full list of ten rules leaves less than 35% of the bytes. */
  lemma TenRulesLeaveLessThan35Percent(q: Request, rounds: seq<Round>)
    requires ValidRounds(q, rounds) && |rounds| == MAX_RULES && Bytes(Filtered(q)) > 0
    ensures Bytes(Remaining(q, rounds)) * 100 < Bytes(Filtered(q)) * 35
  {
    RemainingDecays(q, rounds);
    assert Power(10, 5) == 100000 && Power(9, 5) == 59049;
    assert Power(10, 10) == 10000000000;
    assert Power(9, 10) == 3486784401;
  }

  /** The rate is at least threshold * (10/9)^k. */
  ghost predicate RateCarries(rate: real, threshold: real, k: nat) {
    rate * Power(9, k) as real >= threshold * Power(10, k) as real
  }

  /** Every rule is paid for: rule number k (from 0) is emitted only if the alert's rate is at
      least threshold * (10/9)^k. */
  lemma RuleCountNeedsRate(q: Request, rounds: seq<Round>, k: nat)
    requires ValidRounds(q, rounds) && k < |rounds|
    requires q.threshold > 0.0 && q.currentRate >= 0.0 && Bytes(Filtered(q)) > 0
    ensures RateCarries(q.currentRate, q.threshold, k)
  {
    DecayBefore(q, rounds, k);
    RoundRanAboveThreshold(q, rounds, k);
    RateBound(q.currentRate, q.threshold, Bytes(rounds[k].before), Bytes(Filtered(q)), k);
  }

  lemma DecayBefore(q: Request, rounds: seq<Round>, k: nat)
    requires ValidRounds(q, rounds) && k < |rounds|
    ensures DecayedTo(Bytes(rounds[k].before), Bytes(Filtered(q)), k)
  {
    RoundsCover(q, rounds);
    ChainedAt(q, rounds, k);
    DecayOfCovers(q, rounds[..k]);
  }

  lemma RoundRanAboveThreshold(q: Request, rounds: seq<Round>, k: nat)
    requires ValidRounds(q, rounds) && k < |rounds|
    requires q.threshold > 0.0 && Bytes(Filtered(q)) > 0
    ensures RateAtLeast(q.currentRate, Bytes(rounds[k].before), q.threshold, Bytes(Filtered(q)))
  {
    RoundIsValid(q, rounds, k);
  }

  lemma RateBound(rate: real, threshold: real, left: nat, total: nat, k: nat)
    requires total > 0 && rate >= 0.0
    requires DecayedTo(left, total, k) && RateAtLeast(rate, left, threshold, total)
    ensures RateCarries(rate, threshold, k)
  {
    var nines, tens := Power(9, k), Power(10, k);
    ProductAsReal(left, tens);
    ProductAsReal(total, nines);
    DivideByTotal(rate, threshold, left as real, total as real, nines as real, tens as real);
  }

  lemma ProductAsReal(a: nat, b: nat)
    ensures (a * b) as real == a as real * b as real
  {
  }

  /** threshold * t * d <= rate * l * d <= rate * t * n, divided by t. */
  lemma DivideByTotal(rate: real, threshold: real, l: real, t: real, n: real, d: real)
    requires t > 0.0 && rate >= 0.0 && d >= 0.0
    requires l * d <= t * n && rate * l >= threshold * t
    ensures rate * n >= threshold * d
  {
    ScaleReal(threshold * t, rate * l, d);
    ScaleReal(l * d, t * n, rate);
    assert (threshold * t) * d == (threshold * d) * t;
    assert (rate * l) * d == (l * d) * rate && (t * n) * rate == (rate * n) * t;
    if threshold * d > rate * n {
      ScaleStrictly(rate * n, threshold * d, t);
      assert false;
    }
  }

  lemma ScaleReal(x: real, y: real, k: real)
    requires x <= y && k >= 0.0
    ensures x * k <= y * k
  {
  }

  lemma ScaleStrictly(x: real, y: real, k: real)
    requires x < y && k > 0.0
    ensures x * k < y * k
  {
  }

  // ---------------------------------------------------------------- when rules are emitted

  lemma AtFullShare(q: Request, total: nat)
    requires total > 0
    ensures BelowThreshold(q, total, total) <==> q.threshold > 0.0 && q.currentRate < q.threshold
  {
    if q.currentRate < q.threshold {
      ScaleStrictly(q.currentRate, q.threshold, total as real);
    } else {
      ScaleReal(q.threshold, q.currentRate, total as real);
    }
  }

  /** How an analysis without rules ended. */
  lemma NoRoundsBecause(q: Request)
    requires Finished(q, []) && q.currentRate >= q.threshold
    ensures Filtered(q) == [] || (IsBest(Filtered(q), ExcludeMask(q.category), None) && !HasForced(q.category))
  {
    if Bytes(Filtered(q)) > 0 {
      AtFullShare(q, Bytes(Filtered(q)));
    }
  }

  lemma FirstRoundBecause(q: Request, rounds: seq<Round>)
    requires ValidRounds(q, rounds) && rounds != []
    ensures Filtered(q) != []
    ensures IsBest(Filtered(q), ExcludeMask(q.category), None) ==> HasForced(q.category)
    ensures !BelowThreshold(q, Bytes(Filtered(q)), Bytes(Filtered(q)))
  {
    ChainedAt(q, rounds, 0);
    RoundIsValid(q, rounds, 0);
    if !rounds[0].fallback {
      OnlyOneVerdict(Filtered(q), ExcludeMask(q.category), rounds[0].candidate);
    }
  }

  lemma OnlyOneVerdict(flows: seq<FlowRecord>, excludeMask: bv8, c: Candidate)
    requires IsBest(flows, excludeMask, Some(c))
    ensures !IsBest(flows, excludeMask, None)
  {
    NothingFoundIff(flows, excludeMask, Some(c));
    if IsBest(flows, excludeMask, None) {
      NothingFoundIff(flows, excludeMask, None);
      assert false;
    }
  }

  /** At or above the threshold, a category alert gets a rule exactly when at least one
      captured flow is of its category. */
  lemma CategoryAlertGetsRuleIff(q: Request, rules: seq<MitigationRule>)
    requires Analyzed(q, rules) && q.category != Any && q.currentRate >= q.threshold
    ensures rules != [] <==> exists f :: f in q.flows && InCategory(f, q.category)
  {
    var rounds: seq<Round> :| IsAnalysis(q, rounds, rules);
    WhereFacts(q.flows, OfCategory(q.category));
    if rounds == [] {
      NoRoundsBecause(q);
    } else {
      FirstRoundBecause(q, rounds);
      assert Filtered(q)[0] in Filtered(q);
    }
    assert (exists f :: f in q.flows && InCategory(f, q.category)) <==> Filtered(q) != [] by {
      if f :| f in q.flows && InCategory(f, q.category) {
        assert OfCategory(q.category)(f);
        assert f in Filtered(q);
      }
      if Filtered(q) != [] {
        assert Filtered(q)[0] in Filtered(q);
      }
    }
  }

  /** An `Any` alert gets a rule exactly when there are bytes and some field combination
      reaches the floor. */
  lemma AnyAlertGetsRuleIff(q: Request, rules: seq<MitigationRule>)
    requires Analyzed(q, rules) && q.category == Any && q.currentRate >= q.threshold
    ensures rules == [] <==>
      || Bytes(Filtered(q)) == 0
      || (forall fields, key :: Allowed(fields, 0) ==> !ReachesFloor(Filtered(q), fields, key))
  {
    var rounds: seq<Round> :| IsAnalysis(q, rounds, rules);
    assert ExcludeMask(Any) == 0 && !HasForced(Any);
    if rounds == [] {
      NoRoundsBecause(q);
      if Filtered(q) != [] {
        NothingFoundIff(Filtered(q), 0, None);
      }
    } else {
      FirstRoundBecause(q, rounds);
      NothingFoundUnless(Filtered(q), 0);
    }
  }

  lemma NothingFoundUnless(flows: seq<FlowRecord>, excludeMask: bv8)
    requires !IsBest(flows, excludeMask, None)
    ensures Bytes(flows) > 0 && exists fields, key :: Allowed(fields, excludeMask) && ReachesFloor(flows, fields, key)
  {
  }

  /** Below a positive threshold there are rules in one case only: flows of the category were
      captured but carry no bytes, so that the stop rule is skipped, and the fallback applies. */
  lemma RulesBelowThresholdIff(q: Request, rules: seq<MitigationRule>)
    requires Analyzed(q, rules) && q.threshold > 0.0 && q.currentRate < q.threshold
    ensures rules != [] <==> Filtered(q) != [] && Bytes(Filtered(q)) == 0 && HasForced(q.category)
  {
    var rounds: seq<Round> :| IsAnalysis(q, rounds, rules);
    if rounds != [] {
      FirstRoundBecause(q, rounds);
    }
    if Bytes(Filtered(q)) > 0 {
      AtFullShare(q, Bytes(Filtered(q)));
    } else {
      assert IsBest(Filtered(q), ExcludeMask(q.category), None);
    }
  }

  // ---------------------------------------------------------------- when the loop goes on

  /** The fields that the search may use for a category: not the protocol where it is forced, and
      not the destination port where that is. */
  predicate MayConstrain(fields: FieldSet, category: Category) {
    && 1 <= fields.bits <= 31
    && (fields.bits & 0x08 != 0 ==> category == Any || category == Dns)
    && (fields.bits & 0x02 != 0 ==> category != Dns && category != Https)
  }

  lemma AllowedIff(fields: FieldSet, category: Category)
    ensures Allowed(fields, ExcludeMask(category)) <==> MayConstrain(fields, category)
  {
  }

  ghost predicate SomeGroupHoldsATenth(flows: seq<FlowRecord>, category: Category) {
    exists fields, key :: MayConstrain(fields, category)
      && BytesWhere(flows, InGroup(fields, key)) * 10 >= Bytes(flows)
  }

  lemma FoundIff(flows: seq<FlowRecord>, category: Category, best: Option<Candidate>)
    requires IsBest(flows, ExcludeMask(category), best)
    ensures best.Some? <==> Bytes(flows) > 0 && SomeGroupHoldsATenth(flows, category)
  {
    BestIsArgmax(flows, ExcludeMask(category), best);
    if best.Some? {
      AllowedIff(best.value.fields, category);
      assert MayConstrain(best.value.fields, category)
        && BytesWhere(flows, InGroup(best.value.fields, best.value.Key())) * 10 >= Bytes(flows);
    } else {
      forall fields, key | MayConstrain(fields, category) && Bytes(flows) > 0
        ensures BytesWhere(flows, InGroup(fields, key)) * 10 < Bytes(flows)
      {
        AllowedIff(fields, category);
      }
    }
  }

  /** The rate scaled by what is left of all bytes, `rate * left / all`, is still at the
      threshold, or there is nothing to compare it with. */
  predicate StillOver(rate: real, left: nat, threshold: real, all: nat) {
    threshold <= 0.0 || all == 0 || rate * left as real >= threshold * all as real
  }

  lemma StillOverIff(q: Request, left: nat, all: nat)
    ensures StillOver(q.currentRate, left, q.threshold, all) <==> !BelowThreshold(q, left, all)
  {
  }

  /** What must hold of the flows left after `i` rules for another rule to follow. */
  ghost predicate GoesOn(q: Request, left: seq<FlowRecord>, all: seq<FlowRecord>, i: nat) {
    && i < 10
    && left != []
    && StillOver(q.currentRate, Bytes(left), q.threshold, Bytes(all))
    && ((Bytes(left) > 0 && SomeGroupHoldsATenth(left, q.category)) || (i == 0 && q.category != Any))
  }

  lemma HasForcedIff(category: Category)
    ensures HasForced(category) <==> category != Any
  {
  }

  lemma EmittedGoesOn(q: Request, rounds: seq<Round>, i: nat)
    requires ValidRounds(q, rounds) && i < |rounds|
    ensures GoesOn(q, Remaining(q, rounds[..i]), Filtered(q), i)
  {
    var round := rounds[i];
    RoundIsValid(q, rounds, i);
    ChainedAt(q, rounds, i);
    StillOverIff(q, Bytes(round.before), Bytes(Filtered(q)));
    HasForcedIff(q.category);
    FoundIff(round.before, q.category, if round.fallback then None else Some(round.candidate));
  }

  lemma FinishedStops(q: Request, rounds: seq<Round>)
    requires Finished(q, rounds)
    ensures !GoesOn(q, Remaining(q, rounds), Filtered(q), |rounds|)
  {
    var left := Remaining(q, rounds);
    StillOverIff(q, Bytes(left), Bytes(Filtered(q)));
    HasForcedIff(q.category);
    if IsBest(left, ExcludeMask(q.category), None) {
      FoundIff(left, q.category, None);
    }
  }

  /** The loop, exactly: after `i` rules another one follows if and only if there are fewer than
      ten, flows are left, the scaled rate is still at the threshold, and either some group of the
      fields that may be used holds a tenth of their bytes or it is the first rule of a category
      that forces a field. */
  lemma NextRuleIff(q: Request, rounds: seq<Round>, rules: seq<MitigationRule>, i: nat)
    requires IsAnalysis(q, rounds, rules) && i <= |rules|
    ensures |rules| == |rounds| <= 10
    ensures i < |rules| <==> GoesOn(q, Remaining(q, rounds[..i]), Filtered(q), i)
  {
    if i < |rounds| {
      EmittedGoesOn(q, rounds, i);
    } else {
      assert rounds[..i] == rounds;
      FinishedStops(q, rounds);
    }
  }

  /** Why an analysis of fewer than ten rules that leaves flows over has stopped. */
  lemma StopsOnlyIf(q: Request, rounds: seq<Round>, rules: seq<MitigationRule>)
    requires IsAnalysis(q, rounds, rules) && |rules| < 10 && Remaining(q, rounds) != []
    ensures var left, all := Bytes(Remaining(q, rounds)), Bytes(Filtered(q));
      || !StillOver(q.currentRate, left, q.threshold, all)
      || ((rules != [] || q.category == Any) && left == 0)
      || ((rules != [] || q.category == Any) && forall fields, key :: MayConstrain(fields, q.category) ==>
            BytesWhere(Remaining(q, rounds), InGroup(fields, key)) * 10 < left)
  {
    NextRuleIff(q, rounds, rules, |rules|);
    assert rounds[..|rules|] == rounds;
  }

  /** The forced-field fallback is always the only rule, and it leaves nothing. */
  lemma FallbackStandsAlone(q: Request, rounds: seq<Round>, i: nat)
    requires ValidRounds(q, rounds) && i < |rounds| && rounds[i].fallback
    ensures |rounds| == 1 && Remaining(q, rounds) == []
  {
    RoundIsValid(q, rounds, i);
    BlanketLeavesNothing(rounds[0].before);
    if |rounds| > 1 {
      ChainedAt(q, rounds, 1);
      RoundIsValid(q, rounds, 1);
      assert false;
    }
  }

  lemma {:induction false} BlanketLeavesNothing(flows: seq<FlowRecord>)
    ensures Where(flows, NotMatchedBy(Blanket())) == []
  {
    if flows != [] {
      BlanketLeavesNothing(flows[..|flows| - 1]);
    }
  }

  // ---------------------------------------------------------------- what the prefix costs

  function Inside(p: FlowPred, direction: Direction, net: IpNet): FlowPred {
    (f: FlowRecord) => p(f) && Contains(net, f.Endpoint(direction))
  }

  function Outside(p: FlowPred, direction: Direction, net: IpNet): FlowPred {
    (f: FlowRecord) => p(f) && !Contains(net, f.Endpoint(direction))
  }

  function Everything(): FlowPred {
    (f: FlowRecord) => true
  }

  /** At most a fifth of the bytes lie outside the narrowed prefix. */
  lemma OutsideIsAtMostAFifth(flows: seq<FlowRecord>, direction: Direction, prefix: IpNet, narrowed: IpNet)
    requires IsNarrowed(flows, direction, prefix, narrowed)
    requires forall f :: f in flows ==> Contains(prefix, f.Endpoint(direction))
    ensures BytesWhere(flows, Outside(Everything(), direction, narrowed)) * 5 <= Bytes(flows)
  {
    BytesWhereDisjointUnion(
      flows, EndsIn(direction, narrowed), Outside(Everything(), direction, narrowed), Everything());
    BytesWhereAll(flows, Everything());
    if Bytes(flows) > 0 && narrowed.len == prefix.len {
      SymmetricAtEqualLength(narrowed, prefix);
      forall f | f in flows ensures EndsIn(direction, narrowed)(f) {
        WithinContains(prefix, narrowed, f.Endpoint(direction));
      }
      BytesWhereAll(flows, EndsIn(direction, narrowed));
    }
  }

  /** Inclusion-exclusion: any selection of flows loses at most a fifth of all bytes when it
      is restricted to the narrowed prefix. */
  lemma SelectionInsidePrefix(
    flows: seq<FlowRecord>, direction: Direction, prefix: IpNet, narrowed: IpNet, p: FlowPred)
    requires IsNarrowed(flows, direction, prefix, narrowed)
    requires forall f :: f in flows ==> Contains(prefix, f.Endpoint(direction))
    ensures BytesWhere(flows, Inside(p, direction, narrowed)) * 5 + Bytes(flows) >= BytesWhere(flows, p) * 5
  {
    OutsideIsAtMostAFifth(flows, direction, prefix, narrowed);
    BytesWhereDisjointUnion(flows, Inside(p, direction, narrowed), Outside(p, direction, narrowed), p);
    BytesWhereMonotone(flows, Outside(p, direction, narrowed), Outside(Everything(), direction, narrowed));
  }

  /** Candidate and narrowed prefix together still select what the candidate selects, less a
      fifth of all remaining bytes; with more than a fifth they select a flow. */
  lemma CandidateInsidePrefix(
    flows: seq<FlowRecord>, direction: Direction, prefix: IpNet, narrowed: IpNet, c: Candidate)
    requires IsNarrowed(flows, direction, prefix, narrowed)
    requires forall f :: f in flows ==> Contains(prefix, f.Endpoint(direction))
    ensures BytesWhere(flows, Inside(MatchedBy(c), direction, narrowed)) * 5 + Bytes(flows)
         >= BytesWhere(flows, MatchedBy(c)) * 5
    ensures BytesWhere(flows, MatchedBy(c)) * 5 > Bytes(flows) ==>
      exists f :: f in flows && c.Matches(f) && Contains(narrowed, f.Endpoint(direction))
  {
    SelectionInsidePrefix(flows, direction, prefix, narrowed, MatchedBy(c));
    if BytesWhere(flows, MatchedBy(c)) * 5 > Bytes(flows) {
      var f := PositiveBytesHaveAFlow(flows, Inside(MatchedBy(c), direction, narrowed));
    }
  }

  function SelectedBy(rule: MitigationRule): FlowPred {
    (f: FlowRecord) => RuleMatches(rule, f)
  }

  /** What a rule of this category can name of its candidate: under `Icmp` not ICMPv6. */
  function MatchedInProtocol(c: Candidate, category: Category): FlowPred {
    (f: FlowRecord) => c.Matches(f) && (category == Icmp ==> f.protocol != 58)
  }

  /** Inbound, the emitted rule itself selects at least the candidate's bytes less a fifth of
      all remaining ones; so with more than a fifth it selects a captured flow. Under `Icmp`
      the candidate's bytes are those outside ICMPv6. */
  lemma InboundRuleSelects(q: Request, rounds: seq<Round>, i: nat)
    requires ValidRounds(q, rounds) && i < |rounds| && q.direction == Inbound
    requires forall f :: f in q.flows ==> Contains(q.destPrefix, f.dstIp)
    ensures var before, held := rounds[i].before, MatchedInProtocol(rounds[i].candidate, q.category);
      && BytesWhere(before, SelectedBy(RuleOf(q, rounds[i]))) * 5 + Bytes(before) >= BytesWhere(before, held) * 5
      && (BytesWhere(before, held) * 5 > Bytes(before) ==>
            exists f :: f in before && RuleMatches(RuleOf(q, rounds[i]), f))
  {
    var before, c, narrowed := rounds[i].before, rounds[i].candidate, rounds[i].narrowed;
    var rule, held := RuleOf(q, rounds[i]), MatchedInProtocol(c, q.category);
    RoundIsValid(q, rounds, i);
    BeforeIsInCategory(q, rounds, i);
    SelectionInsidePrefix(before, q.direction, q.destPrefix, narrowed, held);
    forall f | f in before && Inside(held, q.direction, narrowed)(f) ensures SelectedBy(rule)(f) {
      InboundRuleMeaning(q, rounds, i, f);
      NameableIsWider(c, f);
    }
    BytesWhereMonotone(before, Inside(held, q.direction, narrowed), SelectedBy(rule));
    if BytesWhere(before, held) * 5 > Bytes(before) {
      var f := PositiveBytesHaveAFlow(before, SelectedBy(rule));
    }
  }

  lemma NameableIsWider(c: Candidate, f: FlowRecord)
    requires c.Matches(f)
    ensures Nameable(c).Matches(f)
  {
  }

  // ---------------------------------------------------------------- what the estimate assumes

  ghost function Survives(q: Request, rounds: seq<Round>): FlowPred {
    (f: FlowRecord) => forall i :: 0 <= i < |rounds| ==> !RuleMatches(RuleOf(q, rounds[i]), f)
  }

  /** Inbound the candidates use no flags without names; outbound the flows were captured as
      outbound of the rule prefix. */
  ghost predicate EstimateIsSafe(q: Request, rounds: seq<Round>) {
    if q.direction == Inbound then forall i :: 0 <= i < |rounds| ==> NamesAllItsFlags(rounds[i].candidate)
    else forall f :: f in q.flows ==> LeavesPrefix(f, q.destPrefix)
  }

  lemma SafeRoundSpares(q: Request, rounds: seq<Round>, i: nat, f: FlowRecord)
    requires ValidRounds(q, rounds) && EstimateIsSafe(q, rounds) && i < |rounds|
    requires f in q.flows && InCategory(f, q.category) && !rounds[i].candidate.Matches(f)
    ensures !RuleMatches(RuleOf(q, rounds[i]), f)
  {
    if q.direction == Inbound {
      RuleWithinCandidateIff(q, rounds, i);
    } else {
      OutboundRulesMatchNothingCaptured(q, rounds, i, f);
    }
  }

  /** The loop's stop rule estimates what the rules leave by what the candidates leave. That is
      no overestimate for outbound captures, and inbound if the candidates use no flags without
      names: then every flow counted as left survives all the rules.
      `Tightness.EstimateCanBeTooHigh` shows the other case. */
  lemma EstimateIsALowerBound(q: Request, rounds: seq<Round>)
    requires ValidRounds(q, rounds) && EstimateIsSafe(q, rounds)
    ensures forall f :: f in Remaining(q, rounds) ==> Survives(q, rounds)(f)
    ensures Bytes(Remaining(q, rounds)) <= BytesWhere(Filtered(q), Survives(q, rounds))
  {
    RemainingIsUnmatched(q, rounds);
    RemainingIsFiltered(q, rounds);
    WhereFacts(q.flows, OfCategory(q.category));
    forall f, i | f in Filtered(q) && 0 <= i < |rounds| && !rounds[i].candidate.Matches(f)
      ensures !RuleMatches(RuleOf(q, rounds[i]), f)
    {
      SafeRoundSpares(q, rounds, i, f);
    }
    RemainingWithin(q, rounds, Survives(q, rounds));
  }

  lemma {:induction false} RemainingWithin(q: Request, rounds: seq<Round>, p: FlowPred)
    requires Chained(q, rounds)
    requires forall f :: f in Remaining(q, rounds) ==> p(f)
    ensures Bytes(Remaining(q, rounds)) <= BytesWhere(Filtered(q), p)
  {
    RemainingWhere(q, rounds, p);
    BytesWhereAll(Remaining(q, rounds), p);
  }

  lemma {:induction false} RemainingWhere(q: Request, rounds: seq<Round>, p: FlowPred)
    requires Chained(q, rounds)
    ensures BytesWhere(Remaining(q, rounds), p) <= BytesWhere(Filtered(q), p)
  {
    if rounds != [] {
      var n := |rounds| - 1;
      RemainingWhere(q, rounds[..n], p);
      WhereShrinks(rounds[n].before, NotMatchedBy(rounds[n].candidate), p);
    }
  }

  lemma {:induction false} WhereShrinks(flows: seq<FlowRecord>, keep: FlowPred, p: FlowPred)
    ensures BytesWhere(Where(flows, keep), p) <= BytesWhere(flows, p)
  {
    if flows != [] {
      var n := |flows| - 1;
      WhereShrinks(flows[..n], keep, p);
      var w := Where(flows[..n], keep);
      if keep(flows[n]) {
        assert (w + [flows[n]])[..|w|] == w;
      } else {
        assert Where(flows, keep) == w;
      }
    }
  }
}
