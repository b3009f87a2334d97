/** The search for one candidate rule: field sets, group keys, and `find_best_candidate`
    proved to be an argmax over every group of every allowed field set, for every order in
    which the hash map of groups may be iterated. */
module Candidates {
  import opened Network
  import opened Flows

  // ---------------------------------------------------------------- field sets

  const SRC_IP: bv8 := 0x01
  const DST_PORT: bv8 := 0x02
  const SRC_PORT: bv8 := 0x04
  const PROTOCOL: bv8 := 0x08
  const TCP_FLAGS: bv8 := 0x10

  datatype FieldSet = FieldSet(bits: bv8) {
    predicate Has(flag: bv8) { bits & flag != 0 }

    /** The population count; only the five field bits are ever set. */
    function Count(): nat {
      (if Has(SRC_IP) then 1 else 0) + (if Has(DST_PORT) then 1 else 0) + (if Has(SRC_PORT) then 1 else 0)
      + (if Has(PROTOCOL) then 1 else 0) + (if Has(TCP_FLAGS) then 1 else 0)
    }
  }

  /** Non-empty, and free of the excluded fields. */
  predicate Allowed(fs: FieldSet, excludeMask: bv8) {
    1 <= fs.bits <= 31 && fs.bits & excludeMask == 0
  }

  predicate Before(a: FieldSet, b: FieldSet) {
    a.Count() < b.Count() || (a.Count() == b.Count() && a.bits < b.bits)
  }

  ghost predicate InOrder(s: seq<FieldSet>) {
    forall i, j :: 0 <= i < j < |s| ==> Before(s[i], s[j])
  }

  /** The stable sort of a list that comes in ascending bit order. */
  method SortByCount(list: seq<FieldSet>) returns (sorted: seq<FieldSet>)
    requires forall i, j :: 0 <= i < j < |list| ==> list[i].bits < list[j].bits
    ensures InOrder(sorted)
    ensures forall fs :: fs in sorted <==> fs in list
  {
    sorted := [];
    for i := 0 to |list|
      invariant InOrder(sorted)
      invariant forall fs :: fs in sorted <==> fs in list[..i]
    {
      var x := list[i];
      var k := |sorted|;
      while k > 0 && sorted[k - 1].Count() > x.Count()
        invariant 0 <= k <= |sorted|
        invariant forall j :: k <= j < |sorted| ==> Before(x, sorted[j])
      {
        k := k - 1;
      }
      forall j | 0 <= j < k ensures Before(sorted[j], x) {
        assert j < k - 1 ==> Before(sorted[j], sorted[k - 1]);
        assert sorted[j] in list[..i];
      }
      assert list[..i + 1] == list[..i] + [x];
      sorted := sorted[..k] + [x] + sorted[k..];
    }
    assert list[..|list|] == list;
  }

  lemma AvailableMeansNotExcluded(bits: bv8, excludeMask: bv8)
    requires bits <= 31
    ensures bits & !(!excludeMask & 0x1F) == 0 <==> bits & excludeMask == 0
  {
  }

  /** The allowed field sets below `bits`, in ascending order. */
  ghost predicate AllBelow(list: seq<FieldSet>, excludeMask: bv8, bits: bv8) {
    && (forall i, j :: 0 <= i < j < |list| ==> list[i].bits < list[j].bits)
    && (forall fs :: fs in list <==> Allowed(fs, excludeMask) && fs.bits < bits)
  }

  lemma AllBelowNext(list: seq<FieldSet>, excludeMask: bv8, bits: bv8)
    requires AllBelow(list, excludeMask, bits) && 1 <= bits <= 31
    ensures AllBelow(if bits & excludeMask == 0 then list + [FieldSet(bits)] else list, excludeMask, bits + 1)
  {
    forall fs: FieldSet ensures fs.bits < bits + 1 <==> fs.bits < bits || fs == FieldSet(bits) {
    }
    forall i | 0 <= i < |list| ensures list[i].bits < bits {
      assert list[i] in list;
    }
  }

  /** Every allowed field set exactly once, fewest fields first. */
  method AllCombinations(excludeMask: bv8) returns (result: seq<FieldSet>)
    ensures InOrder(result)
    ensures forall fs :: fs in result <==> Allowed(fs, excludeMask)
  {
    var available: bv8 := !excludeMask & 0x1F;
    var list: seq<FieldSet> := [];
    var bits: bv8 := 1;
    while bits <= 31
      invariant 1 <= bits <= 32
      invariant AllBelow(list, excludeMask, bits)
      decreases 32 - bits
    {
      AvailableMeansNotExcluded(bits, excludeMask);
      AllBelowNext(list, excludeMask, bits);
      if bits & !available == 0 {
        list := list + [FieldSet(bits)];
      }
      bits := bits + 1;
    }
    result := SortByCount(list);
  }

  lemma FewerFields(sub: FieldSet, fs: FieldSet)
    requires sub.bits & fs.bits == sub.bits && sub != fs && fs.bits <= 31
    ensures sub.Count() < fs.Count()
  {
  }

  // ---------------------------------------------------------------- groups and candidates

  datatype GroupKey = GroupKey(
    srcIp: Option<IpAddr>, dstPort: Option<u16>, srcPort: Option<u16>, protocol: Option<u8>, tcpFlags: Option<bv8>)

  /** `GroupKey::from_flow`: no group for a flow whose constrained field is zero. */
  function FromFlow(f: FlowRecord, fields: FieldSet): Option<GroupKey> {
    if fields.Has(TCP_FLAGS) && f.tcpFlags == 0 then None
    else if fields.Has(PROTOCOL) && f.protocol == 0 then None
    else if fields.Has(DST_PORT) && f.dstPort == 0 then None
    else if fields.Has(SRC_PORT) && f.srcPort == 0 then None
    else Some(GroupKey(
      if fields.Has(SRC_IP) then Some(f.srcIp) else None,
      if fields.Has(DST_PORT) then Some(f.dstPort) else None,
      if fields.Has(SRC_PORT) then Some(f.srcPort) else None,
      if fields.Has(PROTOCOL) then Some(f.protocol) else None,
      if fields.Has(TCP_FLAGS) then Some(f.tcpFlags) else None))
  }

  datatype Candidate = Candidate(
    fields: FieldSet,
    srcIp: Option<IpAddr>, dstPort: Option<u16>, srcPort: Option<u16>, protocol: Option<u8>, tcpFlags: Option<bv8>)
  {
    predicate Matches(f: FlowRecord) {
      && (srcIp.Some? ==> f.srcIp == srcIp.value)
      && (dstPort.Some? ==> f.dstPort == dstPort.value)
      && (srcPort.Some? ==> f.srcPort == srcPort.value)
      && (protocol.Some? ==> f.protocol == protocol.value)
      && (tcpFlags.Some? ==> f.tcpFlags & tcpFlags.value == tcpFlags.value)
    }

    function Key(): GroupKey {
      GroupKey(srcIp, dstPort, srcPort, protocol, tcpFlags)
    }
  }

  function CandidateOf(fields: FieldSet, key: GroupKey): Candidate {
    Candidate(fields, key.srcIp, key.dstPort, key.srcPort, key.protocol, key.tcpFlags)
  }

  /** Selects the flows of one group. */
  function InGroup(fields: FieldSet, key: GroupKey): FlowPred {
    (f: FlowRecord) => FromFlow(f, fields) == Some(key)
  }

  function MatchedBy(c: Candidate): FlowPred {
    (f: FlowRecord) => c.Matches(f)
  }

  function GroupBytes(flows: seq<FlowRecord>, fields: FieldSet, key: GroupKey): nat {
    BytesWhere(flows, InGroup(fields, key))
  }

  /** A candidate matches every flow of the group it was built from. */
  lemma CandidateCoversItsGroup(flows: seq<FlowRecord>, c: Candidate)
    ensures forall f :: InGroup(c.fields, c.Key())(f) ==> c.Matches(f)
    ensures GroupBytes(flows, c.fields, c.Key()) <= BytesWhere(flows, MatchedBy(c))
  {
    BytesWhereMonotone(flows, InGroup(c.fields, c.Key()), MatchedBy(c));
  }

  // ---------------------------------------------------------------- the argmax

  /** Coverage of at least 0.1, compared without division. */
  predicate ReachesFloor(flows: seq<FlowRecord>, fields: FieldSet, key: GroupKey) {
    GroupBytes(flows, fields, key) * 10 >= Bytes(flows)
  }

  /** `coverage * (1 + 0.5 * count)`, scaled by twice the total bytes. */
  function Score(bytes: nat, count: nat): nat {
    bytes * (2 + count)
  }

  function GroupScore(flows: seq<FlowRecord>, fields: FieldSet, key: GroupKey): nat {
    Score(GroupBytes(flows, fields, key), fields.Count())
  }

  /** `best` is at least as good as the group: it scores more, or as much with a field set
      that does not come later. */
  ghost predicate Beats(flows: seq<FlowRecord>, best: Option<Candidate>, fields: FieldSet, key: GroupKey) {
    ReachesFloor(flows, fields, key) ==>
      && best.Some?
      && var most := GroupScore(flows, best.value.fields, best.value.Key());
         && GroupScore(flows, fields, key) <= most
         && (GroupScore(flows, fields, key) == most ==> !Before(fields, best.value.fields))
  }

  /** The specification of the search. */
  ghost predicate IsBest(flows: seq<FlowRecord>, excludeMask: bv8, best: Option<Candidate>) {
    if Bytes(flows) == 0 then best == None else
      && (best.Some? ==>
            && Allowed(best.value.fields, excludeMask)
            && ReachesFloor(flows, best.value.fields, best.value.Key()))
      && (forall fields, key :: Allowed(fields, excludeMask) ==> Beats(flows, best, fields, key))
  }

  /** Nothing is found exactly when there are no bytes or no group reaches the floor. */
  lemma NothingFoundIff(flows: seq<FlowRecord>, excludeMask: bv8, best: Option<Candidate>)
    requires IsBest(flows, excludeMask, best)
    ensures best == None <==>
      || Bytes(flows) == 0
      || (forall fields, key :: Allowed(fields, excludeMask) ==> !ReachesFloor(flows, fields, key))
  {
    if Bytes(flows) > 0 && best == None {
      forall fields, key | Allowed(fields, excludeMask) ensures !ReachesFloor(flows, fields, key) {
        assert Beats(flows, best, fields, key);
      }
    }
  }

  /** The search with its arithmetic written out: without a winner every allowed group holds less
      than a tenth of the bytes; a winner of k fields holds at least a tenth, and no allowed
      group of j fields that does reaches bytes * (j + 2) above the winner's bytes * (k + 2), nor
      equals it with fewer fields, or with as many and smaller bits. */
  lemma BestIsArgmax(flows: seq<FlowRecord>, excludeMask: bv8, best: Option<Candidate>)
    requires IsBest(flows, excludeMask, best)
    ensures best == None && Bytes(flows) > 0 ==> forall fields, key :: Allowed(fields, excludeMask) ==>
      BytesWhere(flows, InGroup(fields, key)) * 10 < Bytes(flows)
    ensures best.Some? ==>
      var c, held := best.value, BytesWhere(flows, InGroup(best.value.fields, best.value.Key()));
      && Bytes(flows) > 0 && Allowed(c.fields, excludeMask) && held * 10 >= Bytes(flows)
      && forall fields, key ::
           Allowed(fields, excludeMask) && BytesWhere(flows, InGroup(fields, key)) * 10 >= Bytes(flows) ==>
           var bytes, j, k := BytesWhere(flows, InGroup(fields, key)), fields.Count(), c.fields.Count();
           && bytes * (j + 2) <= held * (k + 2)
           && (j < k || (j == k && fields.bits < c.fields.bits) ==> bytes * (j + 2) < held * (k + 2))
  {
    forall fields, key | Bytes(flows) > 0 && Allowed(fields, excludeMask)
      ensures Beats(flows, best, fields, key)
      ensures best == None ==> BytesWhere(flows, InGroup(fields, key)) * 10 < Bytes(flows)
    {
      assert Beats(flows, best, fields, key);
    }
  }

  /** Who is in a group: the key names the own values of the flow in exactly the fields of the
      set, none of which is zero, and the field count is the number of values named. */
  lemma GroupMembersIff(f: FlowRecord, fields: FieldSet, key: GroupKey)
    ensures FromFlow(f, fields) == Some(key) <==>
      && key.srcIp == (if fields.bits & 0x01 != 0 then Some(f.srcIp) else None)
      && key.dstPort == (if fields.bits & 0x02 != 0 && f.dstPort != 0 then Some(f.dstPort) else None)
      && key.srcPort == (if fields.bits & 0x04 != 0 && f.srcPort != 0 then Some(f.srcPort) else None)
      && key.protocol == (if fields.bits & 0x08 != 0 && f.protocol != 0 then Some(f.protocol) else None)
      && key.tcpFlags == (if fields.bits & 0x10 != 0 && f.tcpFlags != 0 then Some(f.tcpFlags) else None)
      && fields.Count() == (if key.srcIp.Some? then 1 else 0) + (if key.dstPort.Some? then 1 else 0)
           + (if key.srcPort.Some? then 1 else 0) + (if key.protocol.Some? then 1 else 0)
           + (if key.tcpFlags.Some? then 1 else 0)
  {
  }

  lemma BeforeIsTotal(a: FieldSet, b: FieldSet)
    requires !Before(a, b) && !Before(b, a)
    ensures a == b
  {
  }

  /** The order of the hash map can only choose between groups of one field set that hold the
      same bytes: two answers agree on both, and on whether there is an answer. */
  lemma BestUpToTies(flows: seq<FlowRecord>, excludeMask: bv8, a: Option<Candidate>, b: Option<Candidate>)
    requires IsBest(flows, excludeMask, a) && IsBest(flows, excludeMask, b)
    ensures a == None <==> b == None
    ensures a.Some? && b.Some? ==>
      && a.value.fields == b.value.fields
      && GroupBytes(flows, a.value.fields, a.value.Key()) == GroupBytes(flows, b.value.fields, b.value.Key())
  {
    if Bytes(flows) > 0 {
      if a.Some? {
        assert Beats(flows, b, a.value.fields, a.value.Key());
      }
      if b.Some? {
        assert Beats(flows, a, b.value.fields, b.value.Key());
      }
      if a.Some? && b.Some? {
        BeforeIsTotal(a.value.fields, b.value.fields);
        EqualProducts(
          GroupBytes(flows, a.value.fields, a.value.Key()), GroupBytes(flows, b.value.fields, b.value.Key()),
          2 + a.value.fields.Count());
      }
    }
  }

  lemma EqualProducts(x: nat, y: nat, d: nat)
    requires d > 0 && x * d == y * d
    ensures x == y
  {
    if x < y {
      MulMonotone(x + 1, y, d);
      assert false;
    } else if y < x {
      MulMonotone(y + 1, x, d);
      assert false;
    }
  }

  lemma BestHasAFlow(flows: seq<FlowRecord>, excludeMask: bv8, best: Option<Candidate>) returns (w: FlowRecord)
    requires IsBest(flows, excludeMask, best) && best.Some?
    ensures w in flows && FromFlow(w, best.value.fields) == Some(best.value.Key()) && best.value.Matches(w)
  {
    w := PositiveBytesHaveAFlow(flows, InGroup(best.value.fields, best.value.Key()));
    CandidateCoversItsGroup(flows, best.value);
  }

  /** The group over fewer fields that a group is part of. */
  function Coarsen(key: GroupKey, sub: FieldSet): GroupKey {
    GroupKey(
      if sub.Has(SRC_IP) then key.srcIp else None,
      if sub.Has(DST_PORT) then key.dstPort else None,
      if sub.Has(SRC_PORT) then key.srcPort else None,
      if sub.Has(PROTOCOL) then key.protocol else None,
      if sub.Has(TCP_FLAGS) then key.tcpFlags else None)
  }

  lemma SubsetKeepsFlags(sub: FieldSet, fields: FieldSet)
    requires sub.bits & fields.bits == sub.bits
    ensures sub.Has(SRC_IP) ==> fields.Has(SRC_IP)
    ensures sub.Has(DST_PORT) ==> fields.Has(DST_PORT)
    ensures sub.Has(SRC_PORT) ==> fields.Has(SRC_PORT)
    ensures sub.Has(PROTOCOL) ==> fields.Has(PROTOCOL)
    ensures sub.Has(TCP_FLAGS) ==> fields.Has(TCP_FLAGS)
  {
  }

  lemma CoarserGroupContains(f: FlowRecord, fields: FieldSet, key: GroupKey, sub: FieldSet)
    requires sub.bits & fields.bits == sub.bits && FromFlow(f, fields) == Some(key)
    ensures FromFlow(f, sub) == Some(Coarsen(key, sub))
  {
    SubsetKeepsFlags(sub, fields);
  }

  /** Specificity: every coarsening of the winner loses strictly, so dropping fields from a
      k-field winner down to j gains less than a factor (k+2)/(j+2) of bytes. */
  lemma WinnerIsSpecific(flows: seq<FlowRecord>, excludeMask: bv8, best: Option<Candidate>, sub: FieldSet)
    requires IsBest(flows, excludeMask, best) && best.Some?
    requires sub.bits != 0 && sub.bits & best.value.fields.bits == sub.bits && sub != best.value.fields
    ensures var winner := best.value;
      && sub.Count() < winner.fields.Count()
      && GroupBytes(flows, winner.fields, winner.Key()) <= GroupBytes(flows, sub, Coarsen(winner.Key(), sub))
      && GroupBytes(flows, sub, Coarsen(winner.Key(), sub)) * (sub.Count() + 2)
         < GroupBytes(flows, winner.fields, winner.Key()) * (winner.fields.Count() + 2)
  {
    var winner := best.value;
    var coarse := Coarsen(winner.Key(), sub);
    forall f | InGroup(winner.fields, winner.Key())(f) ensures InGroup(sub, coarse)(f) {
      CoarserGroupContains(f, winner.fields, winner.Key(), sub);
    }
    BytesWhereMonotone(flows, InGroup(winner.fields, winner.Key()), InGroup(sub, coarse));
    FewerFields(sub, winner.fields);
    assert Allowed(sub, excludeMask);
    assert Beats(flows, best, sub, coarse);
  }

  // ---------------------------------------------------------------- groups of one field set

  ghost function InSomeGroup(fields: FieldSet, keys: set<GroupKey>): FlowPred {
    (f: FlowRecord) => FromFlow(f, fields).Some? && FromFlow(f, fields).value in keys
  }

  lemma AddGroup(flows: seq<FlowRecord>, fields: FieldSet, keys: set<GroupKey>, key: GroupKey)
    requires key !in keys
    ensures BytesWhere(flows, InSomeGroup(fields, keys + {key}))
         == BytesWhere(flows, InSomeGroup(fields, keys)) + GroupBytes(flows, fields, key)
  {
    BytesWhereDisjointUnion(
      flows, InSomeGroup(fields, keys), InGroup(fields, key), InSomeGroup(fields, keys + {key}));
  }

  /** Groups of one field set are disjoint, so groups that each hold a tenth of the bytes
      hold together at most all of them. */
  lemma {:induction false} GroupsAreDisjoint(flows: seq<FlowRecord>, fields: FieldSet, keys: set<GroupKey>)
    requires forall key :: key in keys ==> ReachesFloor(flows, fields, key)
    ensures |keys| * Bytes(flows) <= 10 * BytesWhere(flows, InSomeGroup(fields, keys))
    decreases |keys|
  {
    if keys != {} {
      var key :| key in keys;
      var rest := keys - {key};
      GroupsAreDisjoint(flows, fields, rest);
      AddGroup(flows, fields, rest, key);
      assert rest + {key} == keys;
      assert |keys| == |rest| + 1;
      assert (|rest| + 1) * Bytes(flows) == |rest| * Bytes(flows) + Bytes(flows);
    }
  }

  lemma AtMostTenGroupsReachTheFloor(flows: seq<FlowRecord>, fields: FieldSet, keys: set<GroupKey>)
    requires Bytes(flows) > 0
    requires forall key :: key in keys ==> ReachesFloor(flows, fields, key)
    ensures |keys| <= 10
  {
    GroupsAreDisjoint(flows, fields, keys);
    BytesWhereMonotone(flows, InSomeGroup(fields, keys), InSomeGroup(fields, keys));
    if |keys| >= 11 {
      MulMonotone(11, |keys|, Bytes(flows));
      assert false;
    }
  }

  // ---------------------------------------------------------------- the algorithm

  /** The byte totals of the hash map that the source builds for one field set. */
  ghost predicate GroupsOf(flows: seq<FlowRecord>, fields: FieldSet, groups: map<GroupKey, (nat, nat)>) {
    && (forall key :: key in groups ==> groups[key].0 == GroupBytes(flows, fields, key))
    && (forall f :: f in flows && FromFlow(f, fields).Some? ==> FromFlow(f, fields).value in groups)
  }

  method GroupFlows(flows: seq<FlowRecord>, fields: FieldSet) returns (groups: map<GroupKey, (nat, nat)>)
    ensures GroupsOf(flows, fields, groups)
  {
    groups := map[];
    for i := 0 to |flows|
      invariant GroupsOf(flows[..i], fields, groups)
    {
      var f := flows[i];
      assert flows[..i + 1] == flows[..i] + [f] && flows[..i + 1][..i] == flows[..i];
      var key := FromFlow(f, fields);
      if key.Some? {
        MissingGroupIsEmpty(flows[..i], fields, groups, key.value);
        var entry := if key.value in groups then groups[key.value] else (0, 0);
        groups := groups[key.value := (entry.0 + f.SampledBytes(), entry.1 + f.SampledPackets())];
      }
    }
    assert flows[..|flows|] == flows;
  }

  lemma MissingGroupIsEmpty(
    flows: seq<FlowRecord>, fields: FieldSet, groups: map<GroupKey, (nat, nat)>, key: GroupKey)
    requires GroupsOf(flows, fields, groups)
    ensures key !in groups ==> GroupBytes(flows, fields, key) == 0
  {
    if key !in groups {
      BytesWhereNone(flows, InGroup(fields, key));
    }
  }

  /** What a search knows of its best candidate so far. */
  ghost predicate Found(flows: seq<FlowRecord>, excludeMask: bv8, best: Option<Candidate>, score: nat) {
    best.Some? ==>
      && Allowed(best.value.fields, excludeMask)
      && ReachesFloor(flows, best.value.fields, best.value.Key())
      && score == GroupScore(flows, best.value.fields, best.value.Key())
  }

  ghost predicate NoWorse(flows: seq<FlowRecord>, before: Option<Candidate>, after: Option<Candidate>) {
    forall fields, key :: Beats(flows, before, fields, key) ==> Beats(flows, after, fields, key)
  }

  lemma BetterBeats(flows: seq<FlowRecord>, worse: Option<Candidate>, better: Option<Candidate>)
    requires better.Some? && (worse == None ||
      GroupScore(flows, worse.value.fields, worse.value.Key())
      < GroupScore(flows, better.value.fields, better.value.Key()))
    ensures NoWorse(flows, worse, better)
  {
  }

  lemma NoWorseTwice(flows: seq<FlowRecord>, a: Option<Candidate>, b: Option<Candidate>, c: Option<Candidate>)
    requires NoWorse(flows, a, b) && NoWorse(flows, b, c)
    ensures NoWorse(flows, a, c)
  {
  }

  /** One group against the best so far, which no later field set holds. */
  method TryGroup(
    flows: seq<FlowRecord>, total: nat, excludeMask: bv8, fields: FieldSet, key: GroupKey, bytes: nat,
    best: Option<Candidate>, score: nat) returns (best': Option<Candidate>, score': nat)
    requires total == Bytes(flows) && bytes == GroupBytes(flows, fields, key)
    requires Allowed(fields, excludeMask) && Found(flows, excludeMask, best, score)
    requires best.Some? ==> !Before(fields, best.value.fields)
    ensures Found(flows, excludeMask, best', score') && NoWorse(flows, best, best')
    ensures best' == best || (best'.Some? && best'.value.fields == fields)
    ensures Beats(flows, best', fields, key)
  {
    best', score' := best, score;
    if bytes * 10 >= total {
      var groupScore := Score(bytes, fields.Count());
      if best == None || groupScore > score {
        best', score' := Some(CandidateOf(fields, key)), groupScore;
        BetterBeats(flows, best, best');
      }
    }
  }

  /** The groups of one field set, in any order. */
  method TryGroups(
    flows: seq<FlowRecord>, total: nat, excludeMask: bv8, fields: FieldSet,
    before: Option<Candidate>, scoreBefore: nat) returns (best: Option<Candidate>, score: nat)
    requires total == Bytes(flows) > 0
    requires Allowed(fields, excludeMask) && Found(flows, excludeMask, before, scoreBefore)
    requires before.Some? ==> !Before(fields, before.value.fields)
    ensures Found(flows, excludeMask, best, score) && NoWorse(flows, before, best)
    ensures best == before || (best.Some? && best.value.fields == fields)
    ensures forall key :: Beats(flows, best, fields, key)
  {
    best, score := before, scoreBefore;
    var groups := GroupFlows(flows, fields);
    var todo := groups.Keys;
    while todo != {}
      invariant todo <= groups.Keys
      invariant Found(flows, excludeMask, best, score) && NoWorse(flows, before, best)
      invariant best == before || (best.Some? && best.value.fields == fields)
      invariant forall key :: key in groups.Keys - todo ==> Beats(flows, best, fields, key)
      decreases |todo|
    {
      var key :| key in todo;
      ghost var previous := best;
      best, score := TryGroup(flows, total, excludeMask, fields, key, groups[key].0, best, score);
      NoWorseTwice(flows, before, previous, best);
      todo := todo - {key};
    }
    forall key ensures Beats(flows, best, fields, key) {
      MissingGroupIsEmpty(flows, fields, groups, key);
    }
  }

  method FindBestCandidate(flows: seq<FlowRecord>, excludeMask: bv8) returns (best: Option<Candidate>)
    ensures IsBest(flows, excludeMask, best)
  {
    best := None;
    if flows == [] {
      return;
    }
    var total := SumBytes(flows);
    if total == 0 {
      return;
    }
    var fieldSets := AllCombinations(excludeMask);
    var score := 0;
    for i := 0 to |fieldSets|
      invariant best.Some? ==> best.value.fields in fieldSets[..i]
      invariant Found(flows, excludeMask, best, score)
      invariant forall j, key :: 0 <= j < i ==> Beats(flows, best, fieldSets[j], key)
    {
      assert fieldSets[i] in fieldSets;
      best, score := TryGroups(flows, total, excludeMask, fieldSets[i], best, score);
      assert fieldSets[i] in fieldSets[..i + 1];
    }
    forall fields, key | Allowed(fields, excludeMask) ensures Beats(flows, best, fields, key) {
      var j :| 0 <= j < |fieldSets| && fieldSets[j] == fields;
    }
  }
}
