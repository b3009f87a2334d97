/** The daemon's steps put together: a flow, a tick under the lock, and the two reloads. What
    a tick decides is traced back to the flows themselves. */
module Pipeline {
  import opened Network
  import opened Flows
  import opened Config
  import opened FlowSums
  import opened Captures
  import opened Processor
  import opened Mitigation
  import opened RuleMeaning
  import opened Coverage
  import opened Alert
  import opened Episodes
  import opened AlertManagers
  import opened DaemonRuns
  import opened DaemonCaptures

  // ---------------------------------------------------------------- rates

  /** What `compute_all_rates` promises about its snapshots. */
  ghost predicate SnapshotsOf(processor: FlowProcessor, snapshots: seq<RateSnapshot>, now: nat)
    reads processor
  {
    && (forall s :: s in snapshots ==>
          processor.Measures(s.prefix, s.key) && s.rates == processor.RatesAt(s.prefix, s.key, now))
    && (forall prefix, key :: processor.Measures(prefix, key) ==>
          RateSnapshot(prefix, key, processor.RatesAt(prefix, key, now)) in snapshots)
  }

  lemma AlertRateIsRing(processor: FlowProcessor, snapshots: seq<RateSnapshot>, key: AlertKey, now: nat)
    requires SnapshotsOf(processor, snapshots, now)
    ensures RateFor(snapshots, key) ==
      if processor.Measures(key.prefix, key.buffer)
      then MetricOf(processor.RatesAt(key.prefix, key.buffer, now), key.metric) else 0.0
  {
    var rates := processor.RatesAt(key.prefix, key.buffer, now);
    RateForAgrees(snapshots, key, rates);
    if processor.Measures(key.prefix, key.buffer) {
      assert IsFor(RateSnapshot(key.prefix, key.buffer, rates), key);
    }
  }

  /** End to end: the rate an alert is evaluated with is the direct rate over the flows since
      the last reload, or 0 if nothing is measured for its key. */
  lemma AlertRateIsDirect(processor: FlowProcessor, snapshots: seq<RateSnapshot>, key: AlertKey, now: nat)
    requires SnapshotsOf(processor, snapshots, now)
    requires processor.windowSecs > 0 && now + 1 >= processor.windowSecs
    requires Timely(processor.seen, processor.windowSecs, now)
    ensures RateFor(snapshots, key) ==
      if processor.Measures(key.prefix, key.buffer)
      then DirectRate(key, processor.seen, processor.windowSecs, now) else 0.0
  {
    AlertRateIsRing(processor, snapshots, key, now);
    RingEqualsDirectSum(key.prefix, key.buffer, processor.seen, processor.windowSecs, now);
  }

  // ---------------------------------------------------------------- captures

  /** Each entry of a deque was classified with its own direction. */
  ghost predicate DirectionsMatch(start: TickStart) {
    && |start.prefixes| == |start.deques|
    && forall i, e :: 0 <= i < |start.deques| && e in start.deques[i].entries ==>
         DirectionOf(start.prefixes[i], e.flow) == Some(e.direction)
  }

  lemma {:induction false} DeliveredFlowsCross(prefixes: seq<IpNet>, deques: seq<Deque>, prefix: IpNet, d: Direction)
    requires DirectionsMatch(TickStart(prefixes, deques))
    ensures forall f :: f in Delivered(prefixes, deques, prefix, d) ==> DirectionOf(prefix, f) == Some(d)
  {
    if deques != [] {
      var n := |deques| - 1;
      DeliveredFlowsCross(prefixes[..n], deques[..n], prefix, d);
      OfDirectionIsSubset(deques[n].entries, d);
      forall f | f in FlowsOf(OfDirection(deques[n].entries, d)) && prefixes[n] == prefix
        ensures DirectionOf(prefix, f) == Some(d)
      {
        var i :| 0 <= i < |OfDirection(deques[n].entries, d)| && OfDirection(deques[n].entries, d)[i].flow == f;
        assert OfDirection(deques[n].entries, d)[i] in deques[n].entries;
      }
    }
  }

  lemma CapturesCross(processor: FlowProcessor)
    requires processor.Valid()
    ensures DirectionsMatch(TickStart(processor.Prefixes(), processor.CapturedAll()))
  {
    forall i, e | 0 <= i < |processor.rules| && e in processor.CapturedAll()[i].entries
      ensures DirectionOf(processor.Prefixes()[i], e.flow) == Some(e.direction)
    {
      assert processor.rules[i].CapturesValid();
    }
  }

  lemma {:induction false} DeliveredWereCaptured(prefixes: seq<IpNet>, deques: seq<Deque>, prefix: IpNet, d: Direction)
    requires |prefixes| == |deques|
    ensures forall f :: f in Delivered(prefixes, deques, prefix, d) ==>
      exists i, e :: 0 <= i < |deques| && prefixes[i] == prefix && e in deques[i].entries && e.flow == f
  {
    if deques != [] {
      var n := |deques| - 1;
      DeliveredWereCaptured(prefixes[..n], deques[..n], prefix, d);
      forall f | f in Delivered(prefixes, deques, prefix, d)
        ensures exists i, e :: 0 <= i < |deques| && prefixes[i] == prefix && e in deques[i].entries && e.flow == f
      {
        if f in Delivered(prefixes[..n], deques[..n], prefix, d) {
          var i, e :| 0 <= i < n && prefixes[..n][i] == prefix && e in deques[..n][i].entries && e.flow == f;
          assert prefixes[i] == prefix && e in deques[i].entries;
        } else {
          OfDirectionIsSubset(deques[n].entries, d);
          var k :| 0 <= k < |OfDirection(deques[n].entries, d)| && OfDirection(deques[n].entries, d)[k].flow == f;
          assert OfDirection(deques[n].entries, d)[k] in deques[n].entries;
        }
      }
    }
  }

  /** What a payload analyses was seen since the processor's last reload. */
  lemma AnalysedFlowsWereSeen(firstWindow: nat, steps: seq<DaemonStep>, start: TickStart, key: AlertKey)
    requires StartMirrors(start, After(firstWindow, steps).rules)
    ensures forall f :: f in CapturesFor(start, key) ==> f in After(firstWindow, steps).seen
  {
    forall i, e | 0 <= i < |start.deques| && e in start.deques[i].entries
      ensures e.flow in After(firstWindow, steps).seen
    {
      CapturesAreSeenFlows(firstWindow, steps, i, e);
    }
    DeliveredWereCaptured(start.prefixes, start.deques, key.prefix, key.buffer.direction);
  }

  // ---------------------------------------------------------------- what payloads carry

  lemma FireMeansOverTrigger(a: AlertView, rate: real, now: nat, freshId: nat)
    requires NoticeOf(a, rate, now, freshId).Some? && NoticeOf(a, rate, now, freshId).value.action == Fire
    ensures rate >= a.th.trigger
  {
  }

  /** The Fire payload of a category alert carries a rule exactly when a flow of its category
      was captured for its prefix and direction at the start of the tick. */
  lemma FirePayloadHasRulesIff(p: AlertPayload, a: AlertView, i: nat, input: TickInput, start: TickStart)
    requires |start.prefixes| == |start.deques| && Reports(p, a, i, input, start)
    requires p.notice.action == Fire && a.key.buffer.protocol != Any
    ensures p.rules != [] <==>
      exists f :: f in CapturesFor(start, a.key) && InCategory(f, a.key.buffer.protocol)
  {
    var q := RequestOf(a, input.rates(a.key), CapturesFor(start, a.key));
    FireMeansOverTrigger(a, input.rates(a.key), input.now, input.ids(i));
    ReportAnalyses(p, a, i, input, start);
    CategoryAlertGetsRuleIff(q, p.rules);
  }

  lemma OnlyAnyForcesNothing(category: Category)
    ensures HasForced(category) <==> category != Any
  {
  }

  /** A payload other than a Resolve's carries an analysis of the alert's captures. */
  lemma ReportAnalyses(p: AlertPayload, a: AlertView, i: nat, input: TickInput, start: TickStart)
    requires |start.prefixes| == |start.deques| && Reports(p, a, i, input, start) && p.notice.action != Resolve
    ensures Analyzed(RequestOf(a, input.rates(a.key), CapturesFor(start, a.key)), p.rules)
  {
  }

  /** An Update sent while the rate is below a positive trigger carries rules only if flows of
      the alert's category were captured that carry no bytes at all. */
  lemma UpdateBelowTriggerIff(p: AlertPayload, a: AlertView, i: nat, input: TickInput, start: TickStart)
    requires |start.prefixes| == |start.deques| && Reports(p, a, i, input, start) && p.notice.action == Update
    requires 0.0 < a.th.trigger && input.rates(a.key) < a.th.trigger
    ensures var captured := Where(CapturesFor(start, a.key), OfCategory(a.key.buffer.protocol));
      p.rules != [] <==> captured != [] && Bytes(captured) == 0 && a.key.buffer.protocol != Any
  {
    var q := RequestOf(a, input.rates(a.key), CapturesFor(start, a.key));
    ReportAnalyses(p, a, i, input, start);
    RulesBelowThresholdIff(q, p.rules);
    OnlyAnyForcesNothing(q.category);
  }

  lemma EntryIsHandedOut(entries: seq<CapturedFlow>, e: CapturedFlow)
    requires e in entries
    ensures e.flow in FlowsOf(OfDirection(entries, e.direction))
  {
    var kept := OfDirection(entries, e.direction);
    OfDirectionIsSubset(entries, e.direction);
    var k :| 0 <= k < |kept| && kept[k] == e;
    assert FlowsOf(kept)[k] == e.flow;
  }

  lemma {:induction false} CapturedIsDelivered(
    prefixes: seq<IpNet>, deques: seq<Deque>, j: nat, e: CapturedFlow)
    requires |prefixes| == |deques| && j < |deques| && e in deques[j].entries
    ensures e.flow in Delivered(prefixes, deques, prefixes[j], e.direction)
  {
    var n := |deques| - 1;
    if j < n {
      CapturedIsDelivered(prefixes[..n], deques[..n], j, e);
    } else {
      EntryIsHandedOut(deques[n].entries, e);
    }
  }

  /** A held arrival of a category alert's prefix, direction and category is a flow that the
      alert analyses. */
  lemma RecentArrivalIsCaptured(
    firstWindow: nat, steps: seq<DaemonStep>, start: TickStart, key: AlertKey, j: nat, n: nat)
    requires StartMirrors(start, After(firstWindow, steps).rules) && j < |start.deques|
    requires start.prefixes[j] == key.prefix
    requires var w, t := After(firstWindow, steps), start.deques[j].tracked;
      && |t.arrivals| - w.captureSize <= n < |t.arrivals| && n !in t.delivered
      && t.arrivals[n].direction == key.buffer.direction
    ensures start.deques[j].tracked.arrivals[n].flow in CapturesFor(start, key)
  {
    var w := After(firstWindow, steps);
    var q := start.deques[j];
    DequesStaySound(firstWindow, steps);
    assert DequeIsSound(w.rules[j], w.captureSize, w.seen);
    assert n in q.tracked.live;
    var i :| 0 <= i < |q.tracked.live| && q.tracked.live[i] == n;
    assert q.entries[i] == q.tracked.arrivals[n];
    CapturedIsDelivered(start.prefixes, start.deques, j, q.entries[i]);
  }

  /** Over every run: a Fire payload of a category alert carries a rule if one of the last
      `captureSize` arrivals of a rule with the alert's prefix is of its direction and category
      and was not handed out before. */
  lemma RecentArrivalGetsRule(
    firstWindow: nat, steps: seq<DaemonStep>, p: AlertPayload, a: AlertView, i: nat, input: TickInput,
    start: TickStart, j: nat, n: nat)
    requires StartMirrors(start, After(firstWindow, steps).rules) && j < |start.deques|
    requires Reports(p, a, i, input, start) && p.notice.action == Fire && a.key.buffer.protocol != Any
    requires start.prefixes[j] == a.key.prefix
    requires var w, t := After(firstWindow, steps), start.deques[j].tracked;
      && |t.arrivals| - w.captureSize <= n < |t.arrivals| && n !in t.delivered
      && t.arrivals[n].direction == a.key.buffer.direction
      && InCategory(t.arrivals[n].flow, a.key.buffer.protocol)
    ensures p.rules != []
  {
    RecentArrivalIsCaptured(firstWindow, steps, start, a.key, j, n);
    FirePayloadHasRulesIff(p, a, i, input, start);
  }

  /** No rule of an outbound alert matches any of the flows it was derived from. */
  lemma OutboundPayloadMatchesNothing(
    p: AlertPayload, a: AlertView, i: nat, input: TickInput, start: TickStart, rule: MitigationRule, f: FlowRecord)
    requires DirectionsMatch(start) && Reports(p, a, i, input, start)
    requires a.key.buffer.direction == Outbound && rule in p.rules
    requires f in CapturesFor(start, a.key) && InCategory(f, a.key.buffer.protocol)
    ensures !RuleMatches(rule, f)
  {
    var q := RequestOf(a, input.rates(a.key), CapturesFor(start, a.key));
    DeliveredFlowsCross(start.prefixes, start.deques, a.key.prefix, Outbound);
    var rounds: seq<Round> :| IsAnalysis(q, rounds, p.rules);
    var j :| 0 <= j < |p.rules| && p.rules[j] == rule;
    OutboundRulesMatchNothingCaptured(q, rounds, j, f);
  }

  // ---------------------------------------------------------------- the daemon

  /** The processor's rules and deques are those of the world. */
  ghost predicate RulesMirror(processor: FlowProcessor, rules: seq<RuleState>, size: nat)
    requires processor.Owned()
    reads processor, processor.Repr
  {
    && |processor.rules| == |rules|
    && forall i :: 0 <= i < |rules| ==> RuleMirrors(processor.rules[i], rules[i], size)
  }

  ghost predicate RuleMirrors(rule: ProcessedRule, state: RuleState, size: nat)
    reads rule
  {
    && rule.prefix == state.config.prefix
    && rule.buffers.Keys == state.config.thresholds.Keys
    && rule.captureBufferSize == size
    && rule.Captured() == state.deque
  }

  /** The captures at the start of a tick are those of the world. */
  ghost predicate StartMirrors(start: TickStart, rules: seq<RuleState>) {
    && |start.prefixes| == |start.deques| == |rules|
    && forall i :: 0 <= i < |rules| ==>
         start.prefixes[i] == rules[i].config.prefix && start.deques[i] == rules[i].deque
  }

  /** The daemon keeps its steps as a ghost list; its invariant says that this list is a run
      and that the concrete state is where that run leads. */
  class Daemon {
    const processor: FlowProcessor
    const manager: AlertManager
    const firstWindow: nat
    ghost var steps: seq<DaemonStep>

    ghost predicate Sound()
      reads processor, processor.Repr, manager, manager.alerts
    {
      processor.Valid() && manager.Valid() && manager.Apart(processor) && this !in processor.Repr
    }

    ghost predicate Mirrors(w: World)
      requires Sound()
      reads processor, processor.Repr, manager, manager.alerts
    {
      && processor.windowSecs == w.windowSecs && processor.seen == w.seen
      && RulesMirror(processor, w.rules, w.captureSize)
      && manager.Views() == w.alerts && manager.nextId == w.nextId
    }

    ghost function World(): World
      reads this
    {
      After(firstWindow, steps)
    }

    ghost predicate Valid()
      reads this, processor, processor.Repr, manager, manager.alerts
    {
      Sound() && IsRun(firstWindow, steps) && Mirrors(World())
    }

    constructor (windowSecs: nat)
      ensures Valid() && fresh(processor) && fresh(manager)
      ensures firstWindow == windowSecs && steps == []
    {
      processor := new FlowProcessor(windowSecs);
      manager := new AlertManager();
      firstWindow, steps := windowSecs, [];
    }

    /** One more step of the run, taken by the concrete state already. */
    ghost method Log(step: DaemonStep)
      requires Sound() && IsRun(firstWindow, steps)
      requires Possible(World(), step) && Mirrors(AfterStep(World(), step))
      modifies this`steps
      ensures Valid() && steps == old(steps) + [step]
    {
      ghost var longer := steps + [step];
      RunGoesOn(firstWindow, steps, step);
      assert Mirrors(After(firstWindow, longer));
      steps := longer;
      assert Sound() && Mirrors(After(firstWindow, longer));
    }

    method HandleFlow(flow: FlowRecord)
      requires Valid() && World().windowSecs > 0
      modifies this`steps, processor`seen, processor.Repr
      ensures Valid() && steps == old(steps) + [FlowStep(flow)]
    {
      TakeFlow(flow, World());
      Log(FlowStep(flow));
    }

    method TakeFlow(flow: FlowRecord, ghost w: World)
      requires Sound() && Mirrors(w) && w.windowSecs > 0
      modifies processor`seen, processor.Repr
      ensures Sound() && Mirrors(AfterStep(w, FlowStep(flow)))
    {
      processor.ProcessFlow(flow);
    }

    /** One tick: rates of second `now`, then every alert at instant `clock`, as one step. The
        payloads report the notices and analyse the captures of the tick's start. */
    method Tick(now: nat, clock: nat)
      returns (payloads: seq<AlertPayload>, ghost input: TickInput, ghost start: TickStart)
      requires Valid()
      modifies this`steps, manager`nextId, manager.alerts, processor.Repr
      ensures Valid() && steps == old(steps) + [TickStep(now, input)] && input.now == clock
      ensures StartMirrors(start, old(World()).rules) && DirectionsMatch(start)
      ensures NoticesOf(payloads) == TickNotices(old(World()).alerts, input)
      ensures AllReported(payloads, old(World()).alerts, input, start)
    {
      payloads, input, start := RunTick(now, clock, World());
      Log(TickStep(now, input));
    }

    method RunTick(now: nat, clock: nat, ghost w: World)
      returns (payloads: seq<AlertPayload>, ghost input: TickInput, ghost start: TickStart)
      requires Sound() && Mirrors(w)
      modifies manager`nextId, manager.alerts, processor.Repr
      ensures Sound() && Mirrors(AfterStep(w, TickStep(now, input)))
      ensures Possible(w, TickStep(now, input)) && input.now == clock
      ensures StartMirrors(start, w.rules) && DirectionsMatch(start)
      ensures NoticesOf(payloads) == TickNotices(w.alerts, input)
      ensures AllReported(payloads, w.alerts, input, start)
    {
      var snapshots;
      snapshots, input, start := Measure(now, clock, w);
      payloads := EvaluateAlerts(snapshots, clock, now, input, start, w);
    }

    /** The rates of a tick, and what the alerts will see. */
    method Measure(now: nat, clock: nat, ghost w: World)
      returns (snapshots: seq<RateSnapshot>, ghost input: TickInput, ghost start: TickStart)
      requires Sound() && Mirrors(w)
      ensures input == InputOf(snapshots, manager.nextId, clock) && Possible(w, TickStep(now, input))
      ensures start.prefixes == processor.Prefixes() && start.deques == processor.CapturedAll()
      ensures StartMirrors(start, w.rules) && DirectionsMatch(start)
      ensures Sound() && Mirrors(w)
    {
      CapturesCross(processor);
      start := TickStart(processor.Prefixes(), processor.CapturedAll());
      snapshots := processor.ComputeAllRates(now);
      input := InputOf(snapshots, manager.nextId, clock);
      forall key ensures input.rates(key) == w.RingRate(key, now) {
        RateMirrors(w, snapshots, key, now);
      }
    }

    lemma RateMirrors(w: World, snapshots: seq<RateSnapshot>, key: AlertKey, now: nat)
      requires Sound() && Mirrors(w) && SnapshotsOf(processor, snapshots, now)
      ensures RateFor(snapshots, key) == w.RingRate(key, now)
    {
      AlertRateIsRing(processor, snapshots, key, now);
      if processor.Measures(key.prefix, key.buffer) {
        var i: nat :| i < |processor.rules|
          && processor.rules[i].prefix == key.prefix && key.buffer in processor.rules[i].buffers;
        assert RuleMirrors(processor.rules[i], w.rules[i], w.captureSize);
      }
      if w.Measures(key) {
        var i: nat :| i < |w.rules|
          && w.rules[i].config.prefix == key.prefix && key.buffer in w.rules[i].config.thresholds;
        assert RuleMirrors(processor.rules[i], w.rules[i], w.captureSize);
      }
    }

    method EvaluateAlerts(
      snapshots: seq<RateSnapshot>, clock: nat, ghost now: nat, ghost input: TickInput, ghost start: TickStart,
      ghost w: World)
      returns (payloads: seq<AlertPayload>)
      requires Sound() && Mirrors(w) && input == InputOf(snapshots, manager.nextId, clock)
      requires start.prefixes == processor.Prefixes() && start.deques == processor.CapturedAll()
      requires StartMirrors(start, w.rules)
      modifies manager`nextId, manager.alerts, processor.Repr
      ensures Sound() && Mirrors(AfterStep(w, TickStep(now, input)))
      ensures NoticesOf(payloads) == TickNotices(w.alerts, input)
      ensures AllReported(payloads, w.alerts, input, start)
    {
      ghost var drained;
      payloads, drained := manager.Evaluate(snapshots, processor, clock, start);
    }

    /** The first of the two reloads of a new configuration. A rejected one leaves the processor
        as it is, and the source then skips the second reload. */
    method ReloadProcessor(config: Config) returns (ok: bool)
      requires Valid()
      modifies this`steps, processor
      ensures Valid() && steps == old(steps) + [ProcessorStep(config)]
      ensures ok <==> Accepted(config)
    {
      ok := Replace(config, World());
      Log(ProcessorStep(config));
    }

    method Replace(config: Config, ghost w: World) returns (ok: bool)
      requires Sound() && Mirrors(w)
      modifies processor
      ensures Sound() && Mirrors(AfterStep(w, ProcessorStep(config)))
      ensures ok <==> Accepted(config)
    {
      ok := processor.ReloadConfig(config);
    }

    /** The second reload, which the source takes after an accepted first one. */
    method ReloadAlerts(config: Config) returns (ghost origins: seq<Origin>, ghost built: seq<AlertView>)
      requires Valid()
      modifies this`steps, manager`alerts
      ensures Valid() && steps == old(steps) + [AlertsStep(built)]
      ensures BuiltAll(config, origins, built)
    {
      ghost var w := World();
      origins, built := manager.ReloadConfig(config);
      Log(AlertsStep(built));
    }
  }
}
