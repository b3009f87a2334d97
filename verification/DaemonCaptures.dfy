/** The captures over runs of the daemon: what each deque holds, what was handed out, and that
    no captured flow is handed out twice. */
module DaemonCaptures {
  import opened Network
  import opened Flows
  import opened FlowSums
  import opened Config
  import opened Captures
  import opened Processor
  import opened TickDrains
  import opened Episodes
  import opened AlertManagers
  import opened DaemonRuns

  /** The flows that a rule captures, with their directions, in the order they were seen. */
  function ArrivalsOf(prefix: IpNet, keys: set<BufferKey>, seen: seq<FlowRecord>): seq<CapturedFlow> {
    if seen == [] then [] else
      var n := |seen| - 1;
      var d := DirectionOf(prefix, seen[n]);
      ArrivalsOf(prefix, keys, seen[..n])
      + if d.Some? && HasDirection(keys, d.value) then [CapturedFlow(seen[n], d.value)] else []
  }

  /** The arrivals are the flows that cross the edge of the prefix in a direction for which the
      rule has a buffer. */
  lemma {:induction false} ArrivesIff(prefix: IpNet, keys: set<BufferKey>, seen: seq<FlowRecord>, e: CapturedFlow)
    ensures e in ArrivalsOf(prefix, keys, seen) <==>
      && e.flow in seen
      && (exists key :: key in keys && key.direction == e.direction)
      && (e.direction == Inbound ==> Contains(prefix, e.flow.dstIp) && !Contains(prefix, e.flow.srcIp))
      && (e.direction == Outbound ==> Contains(prefix, e.flow.srcIp) && !Contains(prefix, e.flow.dstIp))
  {
    if seen != [] {
      var n := |seen| - 1;
      ArrivesIff(prefix, keys, seen[..n], e);
      assert seen == seen[..n] + [seen[n]];
    }
  }

  /** What the deque holds and has handed out is sound: bounded, in order, each arrival handed
      out at most once and none both held and handed out, and the last arrivals still there
      unless handed out. */
  ghost predicate HoldsSafely(q: Deque, size: nat) {
    q.tracked.Holds(q.entries) && Safe(q.tracked, size)
  }

  /** Moreover the deque's past is the rule's arrivals among the flows seen. */
  ghost predicate DequeIsSound(rule: RuleState, size: nat, seen: seq<FlowRecord>) {
    && HoldsSafely(rule.deque, size)
    && rule.deque.tracked.arrivals == ArrivalsOf(rule.config.prefix, rule.config.thresholds.Keys, seen)
  }

  ghost predicate DequesAreSound(rules: seq<RuleState>, size: nat, seen: seq<FlowRecord>) {
    forall i :: 0 <= i < |rules| ==> DequeIsSound(rules[i], size, seen)
  }

  lemma FlowKeepsDeque(rule: RuleState, size: nat, seen: seq<FlowRecord>, f: FlowRecord)
    requires DequeIsSound(rule, size, seen)
    ensures DequeIsSound(RuleAfterFlow(rule, size, f), size, seen + [f])
  {
    assert (seen + [f])[..|seen|] == seen;
    var d := DirectionOf(rule.config.prefix, f);
    if d.Some? {
      var e := CapturedFlow(f, d.value);
      ArriveHolds(rule.deque.tracked, rule.deque.entries, size, e);
      ArriveIsSafe(rule.deque.tracked, size, e);
    }
  }

  lemma DrainKeepsDeque(q: Deque, size: nat, d: Direction, drained: bool)
    requires HoldsSafely(q, size)
    ensures HoldsSafely(DrainIf(q, d, drained), size)
    ensures DrainIf(q, d, drained).tracked.arrivals == q.tracked.arrivals
  {
    DrainHoldsAll(q.tracked, q.entries, d);
    DrainIsSafe(q.tracked, size, d);
  }

  lemma DrainsKeepDeque(rule: RuleState, size: nat, seen: seq<FlowRecord>, drained: set<DrainKey>)
    requires DequeIsSound(rule, size, seen)
    ensures DequeIsSound(RuleAfterDrains(rule, drained), size, seen)
  {
    var prefix := rule.config.prefix;
    var rest := DrainIf(rule.deque, Inbound, (prefix, Inbound) in drained);
    DrainKeepsDeque(rule.deque, size, Inbound, (prefix, Inbound) in drained);
    DrainKeepsDeque(rest, size, Outbound, (prefix, Outbound) in drained);
  }

  lemma NewDequesAreSound(config: Config)
    ensures DequesAreSound(NewRules(config), config.captureBufferSize, [])
  {
  }

  /** Over every run of the daemon all deques are sound: each captured flow is handed out by at
      most one drain, and one of a rule's last arrivals is missing only if it was handed out. */
  lemma {:induction false} DequesStaySound(windowSecs: nat, steps: seq<DaemonStep>)
    ensures var w := After(windowSecs, steps); DequesAreSound(w.rules, w.captureSize, w.seen)
  {
    if steps != [] {
      var n := |steps| - 1;
      var w := After(windowSecs, steps[..n]);
      DequesStaySound(windowSecs, steps[..n]);
      match steps[n]
      case FlowStep(f) =>
        forall i | 0 <= i < |w.rules|
          ensures DequeIsSound(RulesAfterFlow(w.rules, w.captureSize, f)[i], w.captureSize, w.seen + [f])
        {
          FlowKeepsDeque(w.rules[i], w.captureSize, w.seen, f);
        }
      case TickStep(_, input) =>
        var drained := DrainedBy(w.alerts, input);
        forall i | 0 <= i < |w.rules|
          ensures DequeIsSound(RulesAfterDrains(w.rules, drained)[i], w.captureSize, w.seen)
        {
          DrainsKeepDeque(w.rules[i], w.captureSize, w.seen, drained);
        }
      case ProcessorStep(config) => NewDequesAreSound(config);
      case _ =>
    }
  }

  lemma {:induction false} ArrivalsAreSeen(prefix: IpNet, keys: set<BufferKey>, seen: seq<FlowRecord>)
    ensures forall e :: e in ArrivalsOf(prefix, keys, seen) ==>
      e.flow in seen && DirectionOf(prefix, e.flow) == Some(e.direction)
  {
    if seen != [] {
      var n := |seen| - 1;
      ArrivalsAreSeen(prefix, keys, seen[..n]);
      assert seen == seen[..n] + [seen[n]];
    }
  }

  /** What a deque holds was seen since the last reload of the processor, and crosses the edge
      of the rule's prefix in its direction. */
  lemma CapturesAreSeenFlows(windowSecs: nat, steps: seq<DaemonStep>, i: nat, e: CapturedFlow)
    requires i < |After(windowSecs, steps).rules| && e in After(windowSecs, steps).rules[i].deque.entries
    ensures e.flow in After(windowSecs, steps).seen
    ensures DirectionOf(After(windowSecs, steps).rules[i].config.prefix, e.flow) == Some(e.direction)
  {
    var w := After(windowSecs, steps);
    var rule := w.rules[i];
    DequesStaySound(windowSecs, steps);
    ArrivalsAreSeen(rule.config.prefix, rule.config.thresholds.Keys, w.seen);
    HeldIsArrival(rule.deque, e);
  }

  lemma HeldIsArrival(q: Deque, e: CapturedFlow)
    requires q.tracked.Holds(q.entries) && e in q.entries
    ensures e in q.tracked.arrivals
  {
    var k :| 0 <= k < |q.entries| && q.entries[k] == e;
    assert q.tracked.arrivals[q.tracked.live[k]] == e;
  }

  /** After a tick nothing is left of the prefixes and directions that fired or sent an update,
      and every other direction of every rule is untouched. */
  lemma TickEmptiesExactlyTheDrained(w: World, now: nat, input: TickInput, i: nat, d: Direction)
    requires i < |w.rules|
    ensures var prefix := w.rules[i].config.prefix;
      OfDirection(AfterStep(w, TickStep(now, input)).rules[i].deque.entries, d) ==
        if (prefix, d) in DrainedBy(w.alerts, input) then [] else OfDirection(w.rules[i].deque.entries, d)
  {
    DirectionsAfterDrains(w.rules[i].deque, w.rules[i].config.prefix, DrainedBy(w.alerts, input), d);
  }

  /** What a tick hands out of a rule's drained direction: those arrivals, in order, none of
      which was handed out before and all of which count as handed out afterwards. */
  lemma HandedOutOnce(windowSecs: nat, steps: seq<DaemonStep>, now: nat, input: TickInput, i: nat, d: Direction)
    requires i < |After(windowSecs, steps).rules|
    requires (After(windowSecs, steps).rules[i].config.prefix, d) in DrainedBy(After(windowSecs, steps).alerts, input)
    ensures var w := After(windowSecs, steps);
      var t, after := w.rules[i].deque.tracked, AfterStep(w, TickStep(now, input)).rules[i].deque.tracked;
      var numbers, entries := Numbers(t.arrivals, t.live, d), OfDirection(w.rules[i].deque.entries, d);
      && |numbers| == |entries| && Ascending(numbers)
      && (forall j :: 0 <= j < |numbers| ==> numbers[j] < |t.arrivals| && entries[j] == t.arrivals[numbers[j]])
      && (forall k :: k in numbers ==> k !in t.delivered && k in after.delivered)
  {
    var w := After(windowSecs, steps);
    var q, prefix, drained := w.rules[i].deque, w.rules[i].config.prefix, DrainedBy(w.alerts, input);
    DequesStaySound(windowSecs, steps);
    assert DequeIsSound(w.rules[i], w.captureSize, w.seen);
    DrainHolds(q.tracked, q.entries, d);
    NumbersFacts(q.tracked.arrivals, q.tracked.live, d);
    NumbersAscend(q.tracked.arrivals, q.tracked.live, d);
    DrainedAreDelivered(q, prefix, drained, d);
  }

  lemma DrainedAreDelivered(q: Deque, prefix: IpNet, drained: set<DrainKey>, d: Direction)
    requires (prefix, d) in drained
    ensures forall k :: k in Numbers(q.tracked.arrivals, q.tracked.live, d) ==>
      k in AfterDrains(q, prefix, drained).tracked.delivered
  {
    var inbound, outbound := (prefix, Inbound) in drained, (prefix, Outbound) in drained;
    var rest := DrainIf(q, Inbound, inbound);
    if d == Inbound {
      DrainDelivers(q, Inbound);
      DrainOnlyAdds(rest, Outbound, outbound);
    } else {
      OutboundStillHeld(q, inbound);
      DrainDelivers(rest, Outbound);
    }
  }

  lemma DrainDelivers(q: Deque, d: Direction)
    ensures forall k :: k in Numbers(q.tracked.arrivals, q.tracked.live, d) ==>
      k in DequeDrained(q, d).tracked.delivered
  {
  }

  lemma OutboundStillHeld(q: Deque, inbound: bool)
    ensures var t, rest := q.tracked, DrainIf(q, Inbound, inbound).tracked;
      rest.arrivals == t.arrivals
      && Numbers(rest.arrivals, rest.live, Outbound) == Numbers(t.arrivals, t.live, Outbound)
  {
    NumbersTwice(q.tracked.arrivals, q.tracked.live, Outbound, Outbound);
  }

  lemma DrainOnlyAdds(q: Deque, d: Direction, drained: bool)
    ensures forall k :: k in q.tracked.delivered ==> k in DrainIf(q, d, drained).tracked.delivered
  {
  }
}
