/** The flow processor: rules with their ring buffers and capture deques, the prefix index,
    and the fan-out of each flow. Its invariant ties every buffer to the list of flows
    processed since the last reload. */
module Processor {
  import opened Network
  import opened Flows
  import opened Config
  import opened RingBuffers
  import opened FlowSums
  import opened Captures

  predicate HasDirection(keys: set<BufferKey>, direction: Direction) {
    exists key :: key in keys && key.direction == direction
  }

  /** The deque of a rule together with its past. */
  datatype Deque = Deque(entries: seq<CapturedFlow>, tracked: Tracked)

  function NewDeque(): Deque {
    Deque([], Tracked([], [], multiset{}))
  }

  /** The entries after a flow: it arrives if the rule has a buffer for the flow's direction. */
  function EntriesAfter(
    prefix: IpNet, keys: set<BufferKey>, size: nat, entries: seq<CapturedFlow>, f: FlowRecord): seq<CapturedFlow>
  {
    var d := DirectionOf(prefix, f);
    if d.Some? && HasDirection(keys, d.value) then Push(entries, size, CapturedFlow(f, d.value)) else entries
  }

  /** The deque after a flow. */
  function DequeAfter(prefix: IpNet, keys: set<BufferKey>, size: nat, q: Deque, f: FlowRecord): (after: Deque)
    ensures after.entries == EntriesAfter(prefix, keys, size, q.entries, f)
  {
    var d := DirectionOf(prefix, f);
    if d.Some? && HasDirection(keys, d.value) then
      var e := CapturedFlow(f, d.value);
      Deque(Push(q.entries, size, e), q.tracked.Arrive(size, e))
    else q
  }

  /** The deque after a drain of one direction. */
  function DequeDrained(q: Deque, direction: Direction): Deque {
    Deque(OfDirection(q.entries, Opposite(direction)), q.tracked.Drain(direction))
  }

  /** The deque of a rule with prefix `own` after a drain of a prefix and direction. */
  function AfterDrain(own: IpNet, q: Deque, prefix: IpNet, direction: Direction): Deque {
    if own == prefix then DequeDrained(q, direction) else q
  }

  /** What draining a prefix and direction hands out, rule by rule. */
  function Delivered(prefixes: seq<IpNet>, all: seq<Deque>, prefix: IpNet, direction: Direction): seq<FlowRecord>
    requires |prefixes| == |all|
  {
    if all == [] then [] else
      var n := |all| - 1;
      Delivered(prefixes[..n], all[..n], prefix, direction)
      + if prefixes[n] == prefix then FlowsOf(OfDirection(all[n].entries, direction)) else []
  }

  lemma DeliveredStep(prefixes: seq<IpNet>, all: seq<Deque>, i: nat, prefix: IpNet, direction: Direction)
    requires i < |prefixes| == |all|
    ensures Delivered(prefixes[..i + 1], all[..i + 1], prefix, direction)
         == Delivered(prefixes[..i], all[..i], prefix, direction)
      + if prefixes[i] == prefix then FlowsOf(OfDirection(all[i].entries, direction)) else []
  {
    assert prefixes[..i + 1][..i] == prefixes[..i] && all[..i + 1][..i] == all[..i];
  }

  /** A rule that is the only one of its prefix hands out the flows of its entries of that
      direction, in their order. */
  lemma {:induction false} DeliveredByOne(prefixes: seq<IpNet>, all: seq<Deque>, i: nat, direction: Direction)
    requires i < |prefixes| == |all|
    requires forall j :: 0 <= j < |prefixes| && j != i ==> prefixes[j] != prefixes[i]
    ensures Delivered(prefixes, all, prefixes[i], direction) == FlowsOf(OfDirection(all[i].entries, direction))
  {
    var n := |all| - 1;
    if i < n {
      DeliveredByOne(prefixes[..n], all[..n], i, direction);
    } else {
      DeliveredNone(prefixes[..n], all[..n], prefixes[n], direction);
    }
  }

  lemma {:induction false} DeliveredNone(prefixes: seq<IpNet>, all: seq<Deque>, prefix: IpNet, direction: Direction)
    requires |prefixes| == |all| && forall j :: 0 <= j < |prefixes| ==> prefixes[j] != prefix
    ensures Delivered(prefixes, all, prefix, direction) == []
  {
    if all != [] {
      var n := |all| - 1;
      DeliveredNone(prefixes[..n], all[..n], prefix, direction);
    }
  }

  /** The first `i` rules were drained and have handed out `flows`, the others were not. */
  ghost predicate DrainedUpTo(
    i: nat, prefixes: seq<IpNet>, before: seq<Deque>, after: seq<Deque>, flows: seq<FlowRecord>,
    prefix: IpNet, direction: Direction)
  {
    && i <= |prefixes| == |before| == |after|
    && flows == Delivered(prefixes[..i], before[..i], prefix, direction)
    && forall j :: 0 <= j < |after| ==>
         after[j] == if j < i then AfterDrain(prefixes[j], before[j], prefix, direction) else before[j]
  }

  lemma DrainedNext(
    i: nat, prefixes: seq<IpNet>, before: seq<Deque>, after: seq<Deque>, flows: seq<FlowRecord>,
    prefix: IpNet, direction: Direction)
    requires DrainedUpTo(i, prefixes, before, after, flows, prefix, direction) && i < |prefixes|
    ensures DrainedUpTo(
      i + 1, prefixes, before, after[i := AfterDrain(prefixes[i], after[i], prefix, direction)],
      flows + (if prefixes[i] == prefix then FlowsOf(OfDirection(after[i].entries, direction)) else []),
      prefix, direction)
  {
    DeliveredStep(prefixes, before, i, prefix, direction);
  }

  class ProcessedRule {
    const prefix: IpNet
    const network: IpNet
    const buffers: map<BufferKey, RingBuffer>
    const captureBufferSize: nat
    const windowSecs: nat
    var captureBuffer: seq<CapturedFlow>
    ghost var tracked: Tracked
    ghost const Repr: set<object>

    ghost predicate BuffersValid()
      reads this, Repr
    {
      && (forall k :: k in buffers ==>
            && buffers[k] in Repr - {this} && buffers[k].buckets in Repr - {this}
            && buffers[k].Valid() && buffers[k].buckets.Length == windowSecs)
      && (forall k, l :: k in buffers && l in buffers && k != l ==>
            buffers[k] != buffers[l] && buffers[k].buckets != buffers[l].buckets)
    }

    ghost predicate CapturesValid()
      reads this
    {
      && tracked.Holds(captureBuffer)
      && Safe(tracked, captureBufferSize)
      && (forall e :: e in captureBuffer ==> DirectionOf(prefix, e.flow) == Some(e.direction))
    }

    ghost predicate Valid()
      reads this, Repr
    {
      this in Repr && network == prefix && BuffersValid() && CapturesValid()
    }

    /** Every buffer has received exactly the flows of the list that count for it. */
    ghost predicate Follows(flows: seq<FlowRecord>)
      requires Valid()
      reads this, Repr
    {
      forall k :: k in buffers ==> buffers[k].history == HistoryOf(prefix, k, flows)
    }

    ghost function Captured(): Deque
      reads this
    {
      Deque(captureBuffer, tracked)
    }

    ghost function CapturedAfter(q: Deque, f: FlowRecord): Deque {
      DequeAfter(prefix, buffers.Keys, captureBufferSize, q, f)
    }

    lemma IgnoresOthers(flows: seq<FlowRecord>, f: FlowRecord)
      requires Valid() && Follows(flows) && DirectionOf(prefix, f) == None
      ensures Follows(flows + [f])
    {
      forall k | k in buffers ensures buffers[k].history == HistoryOf(prefix, k, flows + [f]) {
        HistoryStep(prefix, k, flows, f);
      }
    }

    constructor (
      prefix: IpNet, buffers: map<BufferKey, RingBuffer>, windowSecs: nat, size: nat, ghost objects: set<object>)
      requires BuffersOwned(buffers, objects, windowSecs)
      ensures Valid() && fresh(Repr - objects)
      ensures this.prefix == prefix && this.buffers == buffers && this.windowSecs == windowSecs
      ensures captureBufferSize == size && captureBuffer == [] && tracked == Tracked([], [], multiset{})
    {
      this.prefix, this.network, this.buffers := prefix, prefix, buffers;
      this.windowSecs, captureBufferSize := windowSecs, size;
      captureBuffer, tracked := [], Tracked([], [], multiset{});
      Repr := objects + {this};
    }

    /** The body of `process_flow` for one (rule, direction) update. */
    method Record(flow: FlowRecord, direction: Direction, categories: seq<Category>, ghost flows: seq<FlowRecord>)
      requires Valid() && windowSecs > 0 && Follows(flows)
      requires categories == Categories(flow) && DirectionOf(prefix, flow) == Some(direction)
      modifies Repr
      ensures Valid() && Follows(flows + [flow])
      ensures Captured() == CapturedAfter(old(Captured()), flow)
    {
      forall k ensures HistoryOf(prefix, k, flows + [flow])
        == HistoryOf(prefix, k, flows) + if Counts(prefix, k, flow) then [SampleOf(flow)] else []
      {
        HistoryStep(prefix, k, flows, flow);
      }
      if !HasDirection(buffers.Keys, direction) {
        return;
      }
      Capture(CapturedFlow(flow, direction));
      ClassifyIsExact(flow);
      AddToBuffers(flow, direction, categories);
    }

    /** Add the flow to the buffer of each of its categories. */
    method AddToBuffers(flow: FlowRecord, direction: Direction, categories: seq<Category>)
      requires Valid() && windowSecs > 0
      requires forall i, j :: 0 <= i < j < |categories| ==> categories[i] != categories[j]
      modifies Repr - {this}
      ensures Valid()
      ensures forall k :: k in buffers ==>
        buffers[k].history == old(buffers[k].history) +
          if k.direction == direction && k.protocol in categories then [SampleOf(flow)] else []
    {
      for j := 0 to |categories|
        invariant Valid()
        invariant forall k :: k in buffers ==>
          buffers[k].history == old(buffers[k].history) +
            if k.direction == direction && k.protocol in categories[..j] then [SampleOf(flow)] else []
      {
        var key := BufferKey(categories[j], direction);
        assert categories[..j + 1] == categories[..j] + [categories[j]];
        AddToBuffer(flow, key);
      }
      assert categories[..|categories|] == categories;
    }

    /** Add the flow to one buffer, if the rule has it; the buffers share no state. */
    method AddToBuffer(flow: FlowRecord, key: BufferKey)
      requires Valid() && windowSecs > 0
      modifies Repr - {this}
      ensures Valid()
      ensures forall k :: k in buffers ==>
        buffers[k].history == old(buffers[k].history) + if k == key then [SampleOf(flow)] else []
    {
      if key in buffers {
        buffers[key].AddInstantFlow(flow.timeReceived, flow.SampledBytes(), flow.SampledPackets());
      }
    }

    /** `pop_front` when full, then `push_back`. */
    method Capture(entry: CapturedFlow)
      requires CapturesValid() && DirectionOf(prefix, entry.flow) == Some(entry.direction)
      modifies this`captureBuffer, this`tracked
      ensures CapturesValid()
      ensures captureBuffer == Push(old(captureBuffer), captureBufferSize, entry)
      ensures tracked == old(tracked).Arrive(captureBufferSize, entry)
    {
      ArriveHolds(tracked, captureBuffer, captureBufferSize, entry);
      ArriveIsSafe(tracked, captureBufferSize, entry);
      tracked := tracked.Arrive(captureBufferSize, entry);
      if |captureBuffer| >= captureBufferSize && captureBuffer != [] {
        captureBuffer := captureBuffer[1..];
      }
      captureBuffer := captureBuffer + [entry];
    }

    /** Hand out the entries of one direction and retain the others. */
    method Drain(direction: Direction) returns (flows: seq<FlowRecord>)
      requires Valid()
      modifies this`captureBuffer, this`tracked
      ensures Valid()
      ensures forall list :: old(Follows(list)) ==> Follows(list)
      ensures flows == FlowsOf(OfDirection(old(captureBuffer), direction))
      ensures Captured() == DequeDrained(old(Captured()), direction)
    {
      DrainHoldsAll(tracked, captureBuffer, direction);
      DrainIsSafe(tracked, captureBufferSize, direction);
      OfDirectionIsSubset(captureBuffer, Opposite(direction));
      tracked := tracked.Drain(direction);
      flows, captureBuffer := SplitOff(captureBuffer, direction);
    }
  }

  /** The filter and the retain of `drain_captured_flows`. */
  method SplitOff(entries: seq<CapturedFlow>, direction: Direction)
    returns (flows: seq<FlowRecord>, kept: seq<CapturedFlow>)
    ensures flows == FlowsOf(OfDirection(entries, direction))
    ensures kept == OfDirection(entries, Opposite(direction))
  {
    flows, kept := [], [];
    for i := 0 to |entries|
      invariant flows == FlowsOf(OfDirection(entries[..i], direction))
      invariant kept == OfDirection(entries[..i], Opposite(direction))
    {
      assert entries[..i + 1][..i] == entries[..i];
      if entries[i].direction == direction {
        flows := flows + [entries[i].flow];
      } else {
        kept := kept + [entries[i]];
      }
    }
    assert entries[..|entries|] == entries;
  }

  /** Fresh, pairwise distinct buffers, all among `objects`. */
  ghost predicate BuffersOwned(buffers: map<BufferKey, RingBuffer>, objects: set<object>, windowSecs: nat)
    reads objects
  {
    && (forall k :: k in buffers ==>
          && buffers[k] in objects && buffers[k].buckets in objects
          && buffers[k].Valid() && buffers[k].buckets.Length == windowSecs)
    && (forall k, l :: k in buffers && l in buffers && k != l ==>
          buffers[k] != buffers[l] && buffers[k].buckets != buffers[l].buckets)
  }

  /** Buffers that have received nothing yet. */
  ghost predicate BuffersReady(buffers: map<BufferKey, RingBuffer>, objects: set<object>, windowSecs: nat)
    reads objects
  {
    BuffersOwned(buffers, objects, windowSecs) && forall k :: k in buffers ==> buffers[k].history == []
  }

  lemma AddBuffer(
    buffers: map<BufferKey, RingBuffer>, objects: set<object>, windowSecs: nat, key: BufferKey, buffer: RingBuffer)
    requires BuffersReady(buffers, objects, windowSecs)
    requires buffer !in objects && buffer.buckets !in objects
    requires buffer.Valid() && buffer.buckets.Length == windowSecs && buffer.history == []
    ensures BuffersReady(buffers[key := buffer], objects + {buffer, buffer.buckets}, windowSecs)
  {
  }

  /** One ring buffer for every configured (protocol, direction), in any order. */
  method BuildBuffers(keys: set<BufferKey>, windowSecs: nat)
    returns (buffers: map<BufferKey, RingBuffer>, ghost objects: set<object>)
    ensures buffers.Keys == keys && fresh(objects) && BuffersReady(buffers, objects, windowSecs)
  {
    buffers, objects := map[], {};
    var todo := keys;
    while todo != {}
      invariant todo <= keys && buffers.Keys == keys - todo
      invariant fresh(objects) && BuffersReady(buffers, objects, windowSecs)
      decreases |todo|
    {
      var key :| key in todo;
      var buffer := new RingBuffer(windowSecs);
      AddBuffer(buffers, objects, windowSecs, key, buffer);
      objects := objects + {buffer, buffer.buckets};
      buffers := buffers[key := buffer];
      todo := todo - {key};
    }
  }

  /** `ProcessedRule::from_config`. The network type accepts no host bits. */
  method FromConfig(config: RuleConfig, windowSecs: nat, size: nat) returns (rule: Option<ProcessedRule>)
    ensures rule.Some? <==> Aligned(config.prefix)
    ensures rule.Some? ==>
      && fresh(rule.value.Repr) && rule.value.Valid()
      && rule.value.prefix == config.prefix && rule.value.buffers.Keys == config.thresholds.Keys
      && rule.value.windowSecs == windowSecs && rule.value.captureBufferSize == size
      && rule.value.captureBuffer == [] && rule.value.tracked == Tracked([], [], multiset{})
      && (forall k :: k in rule.value.buffers ==> rule.value.buffers[k].history == [])
  {
    if !Aligned(config.prefix) {
      return None;
    }
    var buffers, objects := BuildBuffers(config.thresholds.Keys, windowSecs);
    var r := new ProcessedRule(config.prefix, buffers, windowSecs, size, objects);
    return Some(r);
  }

  /** One answer of `compute_all_rates`. */
  datatype RateSnapshot = RateSnapshot(prefix: IpNet, key: BufferKey, rates: Rates)

  /** The prefix index lists every rule under its own network, once. */
  ghost predicate IndexValid(rules: seq<ProcessedRule>, table: map<IpNet, seq<nat>>) {
    && (forall net :: net in table ==>
          NoRepeats(table[net]) && forall i :: i in table[net] ==> i < |rules| && rules[i].network == net)
    && (forall i :: 0 <= i < |rules| ==> rules[i].network in table && i in table[rules[i].network])
  }

  lemma ExtendIndex(rules: seq<ProcessedRule>, table: map<IpNet, seq<nat>>, rule: ProcessedRule)
    requires IndexValid(rules, table)
    ensures var net := rule.network;
      IndexValid(rules + [rule], table[net := (if net in table then table[net] else []) + [|rules|]])
  {
    var net := rule.network;
    var entry := if net in table then table[net] else [];
    var longer := table[net := entry + [|rules|]];
    var all := rules + [rule];
    forall n | n in longer
      ensures NoRepeats(longer[n]) && forall i :: i in longer[n] ==> i < |all| && all[i].network == n
    {
      if n == net {
        NoRepeatsConcat(entry, [|rules|]);
      }
    }
    forall i | 0 <= i < |all| ensures all[i].network in longer && i in longer[all[i].network] {
      if i == |rules| {
        assert longer[net][|entry|] == i;
      } else {
        assert all[i] == rules[i] && i in table[rules[i].network];
      }
    }
  }

  class FlowProcessor {
    var rules: seq<ProcessedRule>
    var prefixTable: map<IpNet, seq<nat>>
    var windowSecs: nat
    ghost var Repr: set<object>
    /** The flows processed since the last successful reload. */
    ghost var seen: seq<FlowRecord>

    ghost predicate Owned()
      reads this, Repr
    {
      && this !in Repr
      && (forall i :: 0 <= i < |rules| ==>
            && rules[i] in Repr && rules[i].Repr <= Repr && rules[i].Valid()
            && rules[i].windowSecs == windowSecs)
      && (forall i, j :: 0 <= i < j < |rules| ==> rules[i].Repr !! rules[j].Repr)
    }

    /** Every buffer has received exactly the flows that count for it. */
    ghost predicate HistoriesMatch()
      requires Owned()
      reads this, Repr
    {
      forall i :: 0 <= i < |rules| ==> rules[i].Follows(seen)
    }

    ghost predicate Valid()
      reads this, Repr
    {
      Owned() && IndexValid(rules, prefixTable) && HistoriesMatch()
    }

    constructor (windowSecs: nat)
      ensures Valid() && fresh(Repr) && rules == [] && this.windowSecs == windowSecs && seen == []
    {
      rules, prefixTable := [], map[];
      this.windowSecs := windowSecs;
      Repr, seen := {}, [];
    }

    /** Every rule whose network contains the address, each of them once, in any order. */
    method MatchingRules(ip: IpAddr) returns (indices: seq<nat>)
      requires Valid()
      ensures NoRepeats(indices)
      ensures forall i: nat :: i in indices <==> i < |rules| && Contains(rules[i].network, ip)
    {
      indices := [];
      var todo := prefixTable.Keys;
      while todo != {}
        invariant todo <= prefixTable.Keys
        invariant NoRepeats(indices)
        invariant forall i: nat :: i in indices <==>
          i < |rules| && rules[i].network !in todo && Contains(rules[i].network, ip)
        decreases |todo|
      {
        var net :| net in todo;
        if Contains(net, ip) {
          NoRepeatsConcat(indices, prefixTable[net]);
          indices := indices + prefixTable[net];
        }
        todo := todo - {net};
      }
    }

    /** Rules with exactly one endpoint inside, with the direction that gives. */
    method CollectUpdates(flow: FlowRecord) returns (updates: seq<(nat, Direction)>)
      requires Valid()
      ensures forall j :: 0 <= j < |updates| ==>
        updates[j].0 < |rules| && DirectionOf(rules[updates[j].0].prefix, flow) == Some(updates[j].1)
      ensures forall i, j :: 0 <= i < j < |updates| ==> updates[i].0 != updates[j].0
      ensures forall i :: 0 <= i < |rules| && DirectionOf(rules[i].prefix, flow).Some? ==>
        exists j :: 0 <= j < |updates| && updates[j].0 == i
    {
      var srcRules := MatchingRules(flow.srcIp);
      var dstRules := MatchingRules(flow.dstIp);
      var inbound := Except(dstRules, srcRules, Inbound);
      var outbound := Except(srcRules, dstRules, Outbound);
      updates := inbound + outbound;
      forall i | 0 <= i < |rules| && DirectionOf(rules[i].prefix, flow).Some?
        ensures exists j :: 0 <= j < |updates| && updates[j].0 == i
      {
        var d := DirectionOf(rules[i].prefix, flow).value;
        assert rules[i].network == rules[i].prefix;
        if d == Inbound {
          assert (i, Inbound) in inbound;
          assert (i, Inbound) in updates;
        } else {
          assert (i, Outbound) in outbound;
          assert (i, Outbound) in updates;
        }
      }
    }

    ghost function CapturedAll(): (all: seq<Deque>)
      reads this, Repr
      requires Owned()
      ensures |all| == |rules|
      ensures forall i :: 0 <= i < |rules| ==> all[i] == rules[i].Captured()
    {
      seq(|rules|, i requires 0 <= i < |rules| reads this, Repr requires Owned() => rules[i].Captured())
    }

    /** Rule `i` has taken in the flow, if it is among those done. */
    ghost predicate UpToDate(i: nat, done: set<nat>, before: seq<Deque>, flow: FlowRecord)
      requires Owned() && i < |rules| && |before| == |rules|
      reads this, Repr
    {
      if i in done
      then rules[i].Follows(seen + [flow]) && rules[i].Captured() == rules[i].CapturedAfter(before[i], flow)
      else rules[i].Follows(seen) && rules[i].Captured() == before[i]
    }

    /** The rules among `done` have taken in the flow, the others have not. */
    ghost predicate InProgress(done: set<nat>, before: seq<Deque>, flow: FlowRecord)
      reads this, Repr
    {
      Owned() && |before| == |rules| && forall i :: 0 <= i < |rules| ==> UpToDate(i, done, before, flow)
    }

    /** One update of one rule; the rules share no state, so the others stay as they are. */
    method ApplyUpdate(flow: FlowRecord, idx: nat, direction: Direction, ghost done: set<nat>, ghost before: seq<Deque>)
      requires InProgress(done, before, flow) && windowSecs > 0
      requires idx < |rules| && idx !in done && DirectionOf(rules[idx].prefix, flow) == Some(direction)
      modifies rules[idx].Repr
      ensures InProgress(done + {idx}, before, flow)
    {
      assert UpToDate(idx, done, before, flow);
      rules[idx].Record(flow, direction, Categories(flow), seen);
      forall i | 0 <= i < |rules| ensures UpToDate(i, done + {idx}, before, flow) {
        if i != idx {
          assert old(UpToDate(i, done, before, flow));
        }
      }
    }

    method ApplyUpdates(flow: FlowRecord, updates: seq<(nat, Direction)>, ghost before: seq<Deque>)
      returns (ghost done: set<nat>)
      requires InProgress({}, before, flow) && windowSecs > 0
      requires forall j :: 0 <= j < |updates| ==>
        updates[j].0 < |rules| && DirectionOf(rules[updates[j].0].prefix, flow) == Some(updates[j].1)
      requires forall i, j :: 0 <= i < j < |updates| ==> updates[i].0 != updates[j].0
      modifies Repr
      ensures InProgress(done, before, flow)
      ensures forall j :: 0 <= j < |updates| ==> updates[j].0 in done
    {
      done := {};
      for j := 0 to |updates|
        invariant InProgress(done, before, flow)
        invariant forall i :: i in done <==> exists m :: 0 <= m < j && updates[m].0 == i
      {
        ApplyUpdate(flow, updates[j].0, updates[j].1, done, before);
        done := done + {updates[j].0};
      }
    }

    /** Every rule has taken in the flow. */
    ghost predicate AllTook(before: seq<Deque>, flow: FlowRecord)
      reads this, Repr
    {
      && Owned() && |before| == |rules|
      && forall i :: 0 <= i < |rules| ==>
           rules[i].Follows(seen + [flow]) && rules[i].Captured() == rules[i].CapturedAfter(before[i], flow)
    }

    /** A flow whose direction is undefined for a rule changes nothing about it. */
    lemma SkippedAreUpToDate(done: set<nat>, before: seq<Deque>, flow: FlowRecord)
      requires InProgress(done, before, flow)
      requires forall i :: 0 <= i < |rules| && i !in done ==> DirectionOf(rules[i].prefix, flow) == None
      ensures AllTook(before, flow)
    {
      forall i | 0 <= i < |rules|
        ensures rules[i].Follows(seen + [flow]) && rules[i].Captured() == rules[i].CapturedAfter(before[i], flow)
      {
        assert UpToDate(i, done, before, flow);
        if i !in done {
          rules[i].IgnoresOthers(seen, flow);
        }
      }
    }

    /** The flow joins the history. */
    ghost method AppendSeen(flow: FlowRecord, before: seq<Deque>)
      requires AllTook(before, flow) && IndexValid(rules, prefixTable)
      modifies this`seen
      ensures Valid() && seen == old(seen) + [flow]
      ensures forall i :: 0 <= i < |rules| ==> CapturedAll()[i] == rules[i].CapturedAfter(before[i], flow)
    {
      seen := seen + [flow];
    }

    method ProcessFlow(flow: FlowRecord)
      requires Valid() && windowSecs > 0
      modifies this`seen, Repr
      ensures Valid() && seen == old(seen) + [flow]
      ensures forall i :: 0 <= i < |rules| ==> CapturedAll()[i] == rules[i].CapturedAfter(old(CapturedAll())[i], flow)
    {
      var updates := CollectUpdates(flow);
      ghost var before := CapturedAll();
      assert InProgress({}, before, flow);
      ghost var done := ApplyUpdates(flow, updates, before);
      SkippedAreUpToDate(done, before, flow);
      AppendSeen(flow, before);
    }

    ghost function Prefixes(): (prefixes: seq<IpNet>)
      reads this
      ensures |prefixes| == |rules|
      ensures forall i :: 0 <= i < |rules| ==> prefixes[i] == rules[i].prefix
    {
      seq(|rules|, i requires 0 <= i < |rules| reads this => rules[i].prefix)
    }

    /** The rules share no state and follow the flow history. */
    ghost predicate Sound()
      reads this, Repr
    {
      Owned() && HistoriesMatch()
    }

    /** Drain one rule; it shares no state with the others, which stay as they are. */
    method DrainAt(idx: nat, direction: Direction) returns (flows: seq<FlowRecord>)
      requires Sound() && idx < |rules|
      modifies rules[idx]
      ensures Sound()
      ensures flows == FlowsOf(OfDirection(old(CapturedAll())[idx].entries, direction))
      ensures CapturedAll() == old(CapturedAll())[idx := DequeDrained(old(CapturedAll())[idx], direction)]
    {
      flows := rules[idx].Drain(direction);
      forall i | 0 <= i < |rules| && i != idx
        ensures rules[i].Valid() && rules[i].Follows(seen) && rules[i].Captured() == old(rules[i].Captured())
      {
        assert rules[i].Repr !! rules[idx].Repr;
      }
    }

    /** Drain one rule if its prefix is the one asked for. */
    method DrainRule(idx: nat, prefix: IpNet, direction: Direction) returns (flows: seq<FlowRecord>)
      requires Sound() && idx < |rules|
      modifies rules[idx]
      ensures Sound()
      ensures flows ==
        if rules[idx].prefix == prefix then FlowsOf(OfDirection(old(CapturedAll())[idx].entries, direction)) else []
      ensures CapturedAll() ==
        old(CapturedAll())[idx := AfterDrain(rules[idx].prefix, old(CapturedAll())[idx], prefix, direction)]
    {
      flows := [];
      if rules[idx].prefix == prefix {
        flows := DrainAt(idx, direction);
      }
    }

    /** All captures of the prefix and direction, in order; they are gone afterwards and all
        others are still there, in order. */
    method DrainCapturedFlows(prefix: IpNet, direction: Direction) returns (flows: seq<FlowRecord>)
      requires Valid()
      modifies Repr
      ensures Valid()
      ensures flows == Delivered(Prefixes(), old(CapturedAll()), prefix, direction)
      ensures forall i :: 0 <= i < |rules| ==>
        CapturedAll()[i] == AfterDrain(rules[i].prefix, old(CapturedAll())[i], prefix, direction)
    {
      flows := [];
      ghost var before, prefixes := CapturedAll(), Prefixes();
      for i := 0 to |rules|
        invariant Sound()
        invariant DrainedUpTo(i, prefixes, before, CapturedAll(), flows, prefix, direction)
      {
        ghost var current := CapturedAll();
        var more := DrainRule(i, prefix, direction);
        DrainedNext(i, prefixes, before, current, flows, prefix, direction);
        flows := flows + more;
      }
      assert before[..|before|] == before && prefixes[..|prefixes|] == prefixes;
    }

    /** Rebuild rules and index from the configuration; a rejected prefix changes nothing. */
    method ReloadConfig(config: Config) returns (ok: bool)
      requires Valid()
      modifies this
      ensures ok <==> forall i :: 0 <= i < |config.rules| ==> Aligned(config.rules[i].prefix)
      ensures !ok ==> unchanged(this)
      ensures ok ==>
        && Valid() && fresh(Repr) && seen == []
        && windowSecs == (if config.windowSecs > 0 then config.windowSecs else old(windowSecs))
        && |rules| == |config.rules|
        && forall i :: 0 <= i < |rules| ==>
             && rules[i].prefix == config.rules[i].prefix
             && rules[i].buffers.Keys == config.rules[i].thresholds.Keys
             && rules[i].captureBufferSize == config.captureBufferSize
             && rules[i].Captured() == NewDeque()
    {
      var window := if config.windowSecs > 0 then config.windowSecs else windowSecs;
      var newRules, newTable, objects := BuildRules(config, window);
      if newRules == None {
        return false;
      }
      Adopt(config, newRules.value, newTable, window, objects);
      return true;
    }

    /** Replace rules, index and window; the flow history starts anew. */
    method Adopt(
      config: Config, newRules: seq<ProcessedRule>, newTable: map<IpNet, seq<nat>>, window: nat,
      ghost objects: set<object>)
      requires this !in objects && RulesBuilt(newRules, config, window, objects) && IndexValid(newRules, newTable)
      modifies this
      ensures Valid() && seen == []
      ensures rules == newRules && windowSecs == window && Repr == objects
    {
      rules, prefixTable, windowSecs := newRules, newTable, window;
      Repr, seen := objects, [];
      assert RulesBuilt(newRules, config, window, objects);
      assert Owned();
    }

    /** Some rule with this prefix has a buffer for this protocol and direction. */
    ghost predicate Measures(prefix: IpNet, key: BufferKey)
      reads this
    {
      exists i: nat :: i < |rules| && rules[i].prefix == prefix && key in rules[i].buffers
    }

    /** The rates of a buffer with this key, as the flows since the last reload determine them. */
    ghost function RatesAt(prefix: IpNet, key: BufferKey, now: nat): Rates
      reads this
    {
      QueryRates(HistoryOf(prefix, key, seen), windowSecs, now)
    }

    /** `compute_all_rates`: one snapshot for each buffer of each rule, in any order of keys,
        and nothing else. */
    method ComputeAllRates(now: nat) returns (snapshots: seq<RateSnapshot>)
      requires Valid()
      ensures Tallied(rules, seen, windowSecs, snapshots, now)
      ensures forall s :: s in snapshots ==> Measures(s.prefix, s.key) && s.rates == RatesAt(s.prefix, s.key, now)
      ensures forall prefix, key :: Measures(prefix, key) ==>
        RateSnapshot(prefix, key, RatesAt(prefix, key, now)) in snapshots
      ensures windowSecs > 0 && now + 1 >= windowSecs && Timely(seen, windowSecs, now) ==>
        forall s :: s in snapshots ==> MeasureFlows(s.rates, s.prefix, s.key, seen, windowSecs, now)
    {
      snapshots := [];
      for i := 0 to |rules|
        invariant Tallied(rules[..i], seen, windowSecs, snapshots, now)
      {
        var more := RuleRates(i, now);
        TalliedRule(rules, i, seen, windowSecs, snapshots, more, now);
        snapshots := snapshots + more;
      }
      assert rules[..|rules|] == rules;
      TalliedMeansMeasured(rules, seen, windowSecs, snapshots, now);
      SnapshotsMeasureFlows(rules, seen, windowSecs, snapshots, now);
    }

    method RuleRates(i: nat, now: nat) returns (snapshots: seq<RateSnapshot>)
      requires Valid() && i < |rules|
      ensures RatesOfRule(rules[i], seen, windowSecs, snapshots, now)
    {
      snapshots := [];
      var rule := rules[i];
      assert rule.Valid() && rule.Follows(seen);
      var todo := rule.buffers.Keys;
      while todo != {}
        invariant todo <= rule.buffers.Keys
        invariant forall s :: s in snapshots <==>
          s.key in rule.buffers.Keys - todo && s.prefix == rule.prefix && s.rates == RatesAt(s.prefix, s.key, now)
        invariant forall s :: s in snapshots ==> multiset(snapshots)[s] == 1
        decreases |todo|
      {
        var key :| key in todo;
        var rates := rule.buffers[key].ComputeRates(now);
        snapshots := snapshots + [RateSnapshot(rule.prefix, key, rates)];
        todo := todo - {key};
      }
    }
  }

  /** How many of the rules have this prefix and a buffer for this key. */
  ghost function BufferCount(rules: seq<ProcessedRule>, prefix: IpNet, key: BufferKey): nat {
    if rules == [] then 0 else
      var last := rules[|rules| - 1];
      BufferCount(rules[..|rules| - 1], prefix, key) + if last.prefix == prefix && key in last.buffers then 1 else 0
  }

  lemma {:induction false} BufferCountIsPositiveIff(rules: seq<ProcessedRule>, prefix: IpNet, key: BufferKey)
    ensures BufferCount(rules, prefix, key) > 0 <==>
      exists i: nat :: i < |rules| && rules[i].prefix == prefix && key in rules[i].buffers
  {
    if rules != [] {
      var n := |rules| - 1;
      BufferCountIsPositiveIff(rules[..n], prefix, key);
      if i: nat :| i < n && rules[i].prefix == prefix && key in rules[i].buffers {
        assert rules[..n][i] == rules[i];
      }
    }
  }

  ghost function SnapshotOf(prefix: IpNet, key: BufferKey, seen: seq<FlowRecord>, w: nat, now: nat): RateSnapshot {
    RateSnapshot(prefix, key, QueryRates(HistoryOf(prefix, key, seen), w, now))
  }

  /** As many snapshots for each prefix and key as the rules have buffers for them, all with the
      rates of the flow history. */
  ghost predicate Tallied(
    rules: seq<ProcessedRule>, seen: seq<FlowRecord>, w: nat, snapshots: seq<RateSnapshot>, now: nat)
  {
    && (forall s :: s in snapshots ==> s == SnapshotOf(s.prefix, s.key, seen, w, now))
    && (forall prefix, key ::
          multiset(snapshots)[SnapshotOf(prefix, key, seen, w, now)] == BufferCount(rules, prefix, key))
  }

  /** One snapshot for each buffer of the rule. */
  ghost predicate RatesOfRule(
    rule: ProcessedRule, seen: seq<FlowRecord>, w: nat, snapshots: seq<RateSnapshot>, now: nat)
  {
    && (forall s :: s in snapshots <==>
          s.key in rule.buffers && s.prefix == rule.prefix && s == SnapshotOf(s.prefix, s.key, seen, w, now))
    && (forall s :: s in snapshots ==> multiset(snapshots)[s] == 1)
  }

  lemma TalliedRule(
    rules: seq<ProcessedRule>, n: nat, seen: seq<FlowRecord>, w: nat, snapshots: seq<RateSnapshot>,
    more: seq<RateSnapshot>, now: nat)
    requires n < |rules| && Tallied(rules[..n], seen, w, snapshots, now)
    requires RatesOfRule(rules[n], seen, w, more, now)
    ensures Tallied(rules[..n + 1], seen, w, snapshots + more, now)
  {
    assert rules[..n + 1][..n] == rules[..n];
    forall prefix, key ensures
      multiset(snapshots + more)[SnapshotOf(prefix, key, seen, w, now)] == BufferCount(rules[..n + 1], prefix, key)
    {
      var s := SnapshotOf(prefix, key, seen, w, now);
      assert multiset(snapshots + more)[s] == multiset(snapshots)[s] + multiset(more)[s];
      assert multiset(more)[s] == if s in more then 1 else 0;
    }
  }

  /** Past start-up and with timely flows, every snapshot measures the flows. */
  lemma SnapshotsMeasureFlows(
    rules: seq<ProcessedRule>, seen: seq<FlowRecord>, w: nat, snapshots: seq<RateSnapshot>, now: nat)
    requires Tallied(rules, seen, w, snapshots, now)
    ensures w > 0 && now + 1 >= w && Timely(seen, w, now) ==>
      forall s :: s in snapshots ==> MeasureFlows(s.rates, s.prefix, s.key, seen, w, now)
  {
    if w > 0 && now + 1 >= w && Timely(seen, w, now) {
      forall s | s in snapshots ensures MeasureFlows(s.rates, s.prefix, s.key, seen, w, now) {
        RingMeasuresFlows(s.prefix, s.key, seen, w, now);
      }
    }
  }

  lemma TalliedMeansMeasured(
    rules: seq<ProcessedRule>, seen: seq<FlowRecord>, w: nat, snapshots: seq<RateSnapshot>, now: nat)
    requires Tallied(rules, seen, w, snapshots, now)
    ensures forall s :: s in snapshots ==>
      && s == SnapshotOf(s.prefix, s.key, seen, w, now)
      && exists i: nat :: i < |rules| && rules[i].prefix == s.prefix && s.key in rules[i].buffers
    ensures forall i, key :: 0 <= i < |rules| && key in rules[i].buffers ==>
      SnapshotOf(rules[i].prefix, key, seen, w, now) in snapshots
  {
    forall s | s in snapshots
      ensures exists i: nat :: i < |rules| && rules[i].prefix == s.prefix && s.key in rules[i].buffers
    {
      assert s == SnapshotOf(s.prefix, s.key, seen, w, now);
      assert multiset(snapshots)[s] > 0;
      BufferCountIsPositiveIff(rules, s.prefix, s.key);
    }
    forall i, key | 0 <= i < |rules| && key in rules[i].buffers
      ensures SnapshotOf(rules[i].prefix, key, seen, w, now) in snapshots
    {
      BufferCountIsPositiveIff(rules, rules[i].prefix, key);
    }
  }

  method BuildRules(config: Config, window: nat)
    returns (rules: Option<seq<ProcessedRule>>, table: map<IpNet, seq<nat>>, ghost objects: set<object>)
    ensures fresh(objects)
    ensures rules.Some? <==> forall i :: 0 <= i < |config.rules| ==> Aligned(config.rules[i].prefix)
    ensures rules.Some? ==>
      && |rules.value| == |config.rules| && IndexValid(rules.value, table)
      && RulesBuilt(rules.value, config, window, objects)
  {
    var built: seq<ProcessedRule> := [];
    table, objects := map[], {};
    for idx := 0 to |config.rules|
      invariant |built| == idx && fresh(objects) && IndexValid(built, table)
      invariant forall i :: 0 <= i < idx ==> Aligned(config.rules[i].prefix)
      invariant RulesBuilt(built, config, window, objects)
    {
      var processed := FromConfig(config.rules[idx], window, config.captureBufferSize);
      if processed == None {
        rules := None;
        return;
      }
      var rule := processed.value;
      ExtendIndex(built, table, rule);
      ExtendBuilt(built, rule, config, window, objects);
      var net := rule.network;
      table := table[net := (if net in table then table[net] else []) + [idx]];
      objects := objects + rule.Repr;
      built := built + [rule];
    }
    rules := Some(built);
  }

  lemma ExtendBuilt(rules: seq<ProcessedRule>, rule: ProcessedRule, config: Config, window: nat, objects: set<object>)
    requires RulesBuilt(rules, config, window, objects) && |rules| < |config.rules|
    requires rule.Repr !! objects && rule.Valid() && rule.Follows([]) && rule.windowSecs == window
    requires rule.prefix == config.rules[|rules|].prefix
    requires rule.buffers.Keys == config.rules[|rules|].thresholds.Keys
    requires rule.captureBufferSize == config.captureBufferSize && rule.Captured() == NewDeque()
    ensures RulesBuilt(rules + [rule], config, window, objects + rule.Repr)
  {
  }

  /** Fresh rules that share nothing and follow the configuration. */
  ghost predicate RulesBuilt(rules: seq<ProcessedRule>, config: Config, window: nat, objects: set<object>)
    reads objects
  {
    && |rules| <= |config.rules|
    && (forall i, j :: 0 <= i < j < |rules| ==> rules[i].Repr !! rules[j].Repr)
    && (forall i :: 0 <= i < |rules| ==>
          && rules[i] in objects && rules[i].Repr <= objects && rules[i].Valid() && rules[i].Follows([])
          && rules[i].windowSecs == window
          && rules[i].prefix == config.rules[i].prefix
          && rules[i].buffers.Keys == config.rules[i].thresholds.Keys
          && rules[i].captureBufferSize == config.captureBufferSize
          && rules[i].Captured() == NewDeque())
  }

  /** What one more flow adds to the history of a buffer. */
  lemma HistoryStep(prefix: IpNet, key: BufferKey, flows: seq<FlowRecord>, f: FlowRecord)
    ensures HistoryOf(prefix, key, flows + [f])
         == HistoryOf(prefix, key, flows) + if Counts(prefix, key, f) then [SampleOf(f)] else []
  {
    assert (flows + [f])[..|flows|] == flows;
  }

  /** Members of one list that are not in the other, tagged with a direction. */
  method Except(these: seq<nat>, those: seq<nat>, direction: Direction) returns (r: seq<(nat, Direction)>)
    requires NoRepeats(these)
    ensures forall i, d :: (i, d) in r <==> d == direction && i in these && i !in those
    ensures forall i, j :: 0 <= i < j < |r| ==> r[i].0 != r[j].0
  {
    r := [];
    for n := 0 to |these|
      invariant forall i, d :: (i, d) in r <==> d == direction && i in these[..n] && i !in those
      invariant forall i, j :: 0 <= i < j < |r| ==> r[i].0 != r[j].0
    {
      assert these[..n + 1] == these[..n] + [these[n]];
      if these[n] !in those {
        forall i | 0 <= i < |r| ensures r[i].0 != these[n] {
          assert (r[i].0, r[i].1) in r;
        }
        r := r + [(these[n], direction)];
      }
    }
    assert these[..|these|] == these;
  }
}
