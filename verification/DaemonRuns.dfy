/** Runs of the daemon as values: flows, ticks and the two reloads in any order. What the alerts
    decide in the ticks is traced back over the whole run to the flows. */
module DaemonRuns {
  import opened Network
  import opened Flows
  import opened Config
  import opened RingBuffers
  import opened FlowSums
  import opened Processor
  import opened TickDrains
  import opened Alert
  import opened Episodes
  import opened AlertManagers

  /** A configured rule and its deque with the deque's past. */
  datatype RuleState = RuleState(config: RuleConfig, deque: Deque)

  /** What the daemon knows between two steps; `seen` are the flows since the last reload of
      the processor. */
  datatype World = World(
    windowSecs: nat, captureSize: nat, rules: seq<RuleState>, seen: seq<FlowRecord>, alerts: seq<AlertView>,
    nextId: nat)
  {
    ghost predicate Measures(key: AlertKey) {
      exists i: nat :: i < |rules| && rules[i].config.prefix == key.prefix && key.buffer in rules[i].config.thresholds
    }

    /** The rate of a key as the ring buffers report it. */
    ghost function RingRate(key: AlertKey, now: nat): real {
      if Measures(key) then MetricOf(QueryRates(HistoryOf(key.prefix, key.buffer, seen), windowSecs, now), key.metric)
      else 0.0
    }

    ghost predicate PastStartUp(now: nat) {
      windowSecs > 0 && now + 1 >= windowSecs
    }

    /** Past start-up, and no flow came a whole window late. */
    ghost predicate Settled(now: nat) {
      PastStartUp(now) && Timely(seen, windowSecs, now)
    }

    /** The rate of a key straight from the flows of the last window. */
    ghost function FlowRate(key: AlertKey, now: nat): real {
      if Measures(key) then DirectRate(key, seen, windowSecs, now) else 0.0
    }
  }

  /** The rate of a key, straight from the flows of the last `w` seconds. */
  function DirectRate(key: AlertKey, flows: seq<FlowRecord>, w: nat, now: nat): real {
    MetricOf(RatesOf(DirectSum(key.prefix, key.buffer, flows, now - w + 1, now + 1), w), key.metric)
  }

  lemma RingRateIsFlowRate(world: World, key: AlertKey, now: nat)
    requires world.Settled(now)
    ensures world.RingRate(key, now) == world.FlowRate(key, now)
  {
    RingEqualsDirectSum(key.prefix, key.buffer, world.seen, world.windowSecs, now);
  }

  /** The rate of a key in the flows, metric by metric and with the arithmetic written out. */
  lemma FlowRateMeasuresFlows(world: World, key: AlertKey, now: nat)
    requires world.windowSecs > 0 && world.Measures(key)
    ensures RateMeasures(
      world.FlowRate(key, now), key.metric, key.prefix, key.buffer, world.seen, world.windowSecs, now)
  {
    DirectRatesMeasureFlows(key.prefix, key.buffer, world.seen, world.windowSecs, now);
  }

  lemma RatesAreMonotone(a: Totals, b: Totals, w: nat, metric: MetricType)
    requires a.AtMost(b)
    ensures MetricOf(RatesOf(a, w), metric) <= MetricOf(RatesOf(b, w), metric)
  {
    if w > 0 {
      DividedIsMonotone((a.bytes * 8) as real, (b.bytes * 8) as real, w as real);
      DividedIsMonotone(a.packets as real, b.packets as real, w as real);
      DividedIsMonotone(a.flows as real, b.flows as real, w as real);
    }
  }

  lemma DividedIsMonotone(x: real, y: real, d: real)
    requires x <= y && d > 0.0
    ensures x / d <= y / d
  {
  }

  /** Past start-up the rings never report more than the flows of the last window carry, in
      whatever order they came. */
  lemma RingRateIsAtMostFlowRate(world: World, key: AlertKey, now: nat)
    requires world.PastStartUp(now)
    ensures world.RingRate(key, now) <= world.FlowRate(key, now)
  {
    var w, h := world.windowSecs, HistoryOf(key.prefix, key.buffer, world.seen);
    var direct := DirectSum(key.prefix, key.buffer, world.seen, now - w + 1, now + 1);
    RingIsAtMostDirectSum(key.prefix, key.buffer, world.seen, w, now);
    RatesAreMonotone(RingTotal(h, w, now, w), direct, w, key.metric);
  }

  // ---------------------------------------------------------------- steps

  datatype DaemonStep =
    | FlowStep(flow: FlowRecord)
    | TickStep(now: nat, input: TickInput)
    | ProcessorStep(config: Config)
    | AlertsStep(built: seq<AlertView>)

  function RuleAfterFlow(rule: RuleState, size: nat, f: FlowRecord): RuleState {
    rule.(deque := DequeAfter(rule.config.prefix, rule.config.thresholds.Keys, size, rule.deque, f))
  }

  function RuleAfterDrains(rule: RuleState, drained: set<DrainKey>): RuleState {
    rule.(deque := AfterDrains(rule.deque, rule.config.prefix, drained))
  }

  function RulesAfterFlow(rules: seq<RuleState>, size: nat, f: FlowRecord): (after: seq<RuleState>)
    ensures |after| == |rules|
    ensures forall i :: 0 <= i < |rules| ==> after[i] == RuleAfterFlow(rules[i], size, f)
  {
    seq(|rules|, i requires 0 <= i < |rules| => RuleAfterFlow(rules[i], size, f))
  }

  function RulesAfterDrains(rules: seq<RuleState>, drained: set<DrainKey>): (after: seq<RuleState>)
    ensures |after| == |rules|
    ensures forall i :: 0 <= i < |rules| ==> after[i] == RuleAfterDrains(rules[i], drained)
  {
    seq(|rules|, i requires 0 <= i < |rules| => RuleAfterDrains(rules[i], drained))
  }

  function NewRules(config: Config): (rules: seq<RuleState>)
    ensures |rules| == |config.rules|
    ensures forall i :: 0 <= i < |rules| ==> rules[i] == RuleState(config.rules[i], NewDeque())
  {
    seq(|config.rules|, i requires 0 <= i < |config.rules| => RuleState(config.rules[i], NewDeque()))
  }

  ghost predicate Accepted(config: Config) {
    forall i :: 0 <= i < |config.rules| ==> Aligned(config.rules[i].prefix)
  }

  /** One step of the daemon. A configuration with a rejected prefix leaves the processor alone. */
  ghost function AfterStep(w: World, step: DaemonStep): World {
    match step
    case FlowStep(f) => w.(seen := w.seen + [f], rules := RulesAfterFlow(w.rules, w.captureSize, f))
    case TickStep(_, input) =>
      w.(alerts := TickViews(w.alerts, input), rules := RulesAfterDrains(w.rules, DrainedBy(w.alerts, input)),
         nextId := w.nextId + |w.alerts|)
    case ProcessorStep(config) =>
      if Accepted(config) then
        World(if config.windowSecs > 0 then config.windowSecs else w.windowSecs,
              config.captureBufferSize, NewRules(config), [], w.alerts, w.nextId)
      else w
    case AlertsStep(built) => w.(alerts := ReloadViews(w.alerts, built))
  }

  function Start(windowSecs: nat): World {
    World(windowSecs, 0, [], [], [], 1)
  }

  ghost function After(windowSecs: nat, steps: seq<DaemonStep>): World {
    if steps == [] then Start(windowSecs) else
      var n := |steps| - 1;
      AfterStep(After(windowSecs, steps[..n]), steps[n])
  }

  /** A tick evaluates every key with its ring rate and has a number of its own for every alert;
      the alerts of a reload have no past. */
  ghost predicate Possible(w: World, step: DaemonStep) {
    match step
    case TickStep(now, input) =>
      && (forall key :: input.rates(key) == w.RingRate(key, now))
      && (forall i: nat :: input.ids(i) == w.nextId + i)
    case AlertsStep(built) => AllNew(built)
    case _ => true
  }

  /** What the daemon does is such a run. There are more of them than the code can take: it
      reloads the alerts only after the processor has accepted the same configuration. */
  ghost predicate IsRun(windowSecs: nat, steps: seq<DaemonStep>) {
    steps == [] ||
      var n := |steps| - 1;
      IsRun(windowSecs, steps[..n]) && Possible(After(windowSecs, steps[..n]), steps[n])
  }

  lemma RunPushes(windowSecs: nat, steps: seq<DaemonStep>, step: DaemonStep)
    ensures After(windowSecs, steps + [step]) == AfterStep(After(windowSecs, steps), step)
    ensures IsRun(windowSecs, steps + [step]) <==> IsRun(windowSecs, steps) && Possible(After(windowSecs, steps), step)
  {
    assert (steps + [step])[..|steps|] == steps;
  }

  lemma RunGoesOn(windowSecs: nat, steps: seq<DaemonStep>, step: DaemonStep)
    requires IsRun(windowSecs, steps) && Possible(After(windowSecs, steps), step)
    ensures IsRun(windowSecs, steps + [step])
    ensures After(windowSecs, steps + [step]) == AfterStep(After(windowSecs, steps), step)
  {
    RunPushes(windowSecs, steps, step);
  }

  // ---------------------------------------------------------------- episodes

  function ManagerSteps(steps: seq<DaemonStep>): seq<ManagerStep> {
    if steps == [] then [] else
      var n := |steps| - 1;
      match steps[n]
      case TickStep(_, input) => ManagerSteps(steps[..n]) + [Tick(input)]
      case AlertsStep(built) => ManagerSteps(steps[..n]) + [Reload(built)]
      case _ => ManagerSteps(steps[..n])
  }

  lemma TickPush(steps: seq<ManagerStep>, input: TickInput)
    ensures AlertsAfter(steps + [Tick(input)]) == TickViews(AlertsAfter(steps), input)
  {
    assert (steps + [Tick(input)])[..|steps|] == steps;
  }

  lemma ReloadPush(steps: seq<ManagerStep>, built: seq<AlertView>)
    ensures AlertsAfter(steps + [Reload(built)]) == ReloadViews(AlertsAfter(steps), built)
  {
    assert (steps + [Reload(built)])[..|steps|] == steps;
  }

  lemma {:induction false} AlertsFollowManager(windowSecs: nat, steps: seq<DaemonStep>)
    ensures After(windowSecs, steps).alerts == AlertsAfter(ManagerSteps(steps))
  {
    if steps != [] {
      var n := |steps| - 1;
      AlertsFollowManager(windowSecs, steps[..n]);
      match steps[n]
      case TickStep(_, input) => TickPush(ManagerSteps(steps[..n]), input);
      case AlertsStep(built) => ReloadPush(ManagerSteps(steps[..n]), built);
      case _ =>
    }
  }

  /** The alert configurations of a run have unique keys. */
  ghost predicate KeysStayUnique(steps: seq<DaemonStep>) {
    forall i :: 0 <= i < |steps| && steps[i].AlertsStep? ==> UniqueKeys(steps[i].built)
  }

  lemma {:induction false} ManagerReloads(windowSecs: nat, steps: seq<DaemonStep>)
    requires IsRun(windowSecs, steps) && KeysStayUnique(steps)
    ensures forall step :: step in ManagerSteps(steps) && step.Reload? ==> UniqueKeys(step.built) && AllNew(step.built)
  {
    if steps != [] {
      ManagerReloads(windowSecs, steps[..|steps| - 1]);
    }
  }

  /** Over every run of the daemon, however flows and processor reloads come between ticks and
      alert reloads, the notices of each configured key form episodes. */
  lemma DaemonKeepsEpisodes(windowSecs: nat, steps: seq<DaemonStep>)
    requires IsRun(windowSecs, steps) && KeysStayUnique(steps)
    ensures EpisodesHold(After(windowSecs, steps).alerts, LogsAfter(ManagerSteps(steps)))
  {
    AlertsFollowManager(windowSecs, steps);
    ManagerReloads(windowSecs, steps);
    EpisodesHoldOverRuns(ManagerSteps(steps));
  }

  // ---------------------------------------------------------------- what alerts are evaluated with

  /** A tick, with what the daemon knew when it began. */
  datatype Moment = Moment(world: World, now: nat, input: TickInput)

  ghost function Moments(windowSecs: nat, steps: seq<DaemonStep>): seq<Moment> {
    if steps == [] then [] else
      var n := |steps| - 1;
      match steps[n]
      case TickStep(now, input) =>
        Moments(windowSecs, steps[..n]) + [Moment(After(windowSecs, steps[..n]), now, input)]
      case _ => Moments(windowSecs, steps[..n])
  }

  /** The evaluation saw the ring rate of the moment, which is the direct rate of the flows
      once things have settled. */
  ghost predicate Saw(e: Evaluation, m: Moment, key: AlertKey) {
    && e.now == m.input.now
    && e.rate == m.world.RingRate(key, m.now)
    && (m.world.Settled(m.now) ==> e.rate == m.world.FlowRate(key, m.now))
  }

  /** The run of an alert is its evaluations in the last ticks, one after the other. */
  ghost predicate SawLast(run: seq<Evaluation>, moments: seq<Moment>, key: AlertKey) {
    && |run| <= |moments|
    && forall k :: 0 <= k < |run| ==> Saw(run[k], moments[|moments| - |run| + k], key)
  }

  lemma SawOneMore(run: seq<Evaluation>, moments: seq<Moment>, key: AlertKey, e: Evaluation, m: Moment)
    requires SawLast(run, moments, key) && Saw(e, m, key)
    ensures SawLast(run + [e], moments + [m], key)
  {
  }

  lemma TickIsSeen(a: AlertView, w: World, now: nat, input: TickInput, id: nat)
    requires Possible(w, TickStep(now, input))
    ensures Saw(Evaluation(input.rates(a.key), input.now, a.th), Moment(w, now, input), a.key)
  {
    if w.Settled(now) {
      RingRateIsFlowRate(w, a.key, now);
    }
  }

  /** Every alert of every run has been evaluated with exactly the rates of the last ticks, also
      across reloads of both kinds. */
  lemma {:induction false} AlertsSawTheFlows(windowSecs: nat, steps: seq<DaemonStep>)
    requires IsRun(windowSecs, steps)
    ensures forall a :: a in After(windowSecs, steps).alerts ==> SawLast(a.run, Moments(windowSecs, steps), a.key)
  {
    if steps != [] {
      var n := |steps| - 1;
      var w, moments := After(windowSecs, steps[..n]), Moments(windowSecs, steps[..n]);
      AlertsSawTheFlows(windowSecs, steps[..n]);
      match steps[n]
      case TickStep(now, input) =>
        forall i | 0 <= i < |w.alerts|
          ensures SawLast(TickViews(w.alerts, input)[i].run, Moments(windowSecs, steps), w.alerts[i].key)
        {
          var a := w.alerts[i];
          TickIsSeen(a, w, now, input, input.ids(i));
          SawOneMore(a.run, moments, a.key, Evaluation(input.rates(a.key), input.now, a.th), Moment(w, now, input));
        }
      case AlertsStep(built) =>
        forall j | 0 <= j < |built|
          ensures SawLast(ReloadViews(w.alerts, built)[j].run, moments, ReloadViews(w.alerts, built)[j].key)
        {
          LastWithFacts(w.alerts, built[j].key);
        }
      case _ =>
    }
  }

  /** States are those of the runs, also where keys are shared. */
  lemma {:induction false} StatesFollowRuns(windowSecs: nat, steps: seq<DaemonStep>)
    requires IsRun(windowSecs, steps)
    ensures forall a :: a in After(windowSecs, steps).alerts ==> a.state == StateAfter(a.run)
  {
    if steps != [] {
      var n := |steps| - 1;
      var w := After(windowSecs, steps[..n]);
      StatesFollowRuns(windowSecs, steps[..n]);
      match steps[n]
      case TickStep(now, input) =>
        forall i | 0 <= i < |w.alerts|
          ensures TickViews(w.alerts, input)[i].state == StateAfter(TickViews(w.alerts, input)[i].run)
        {
          var a := w.alerts[i];
          var e := Evaluation(input.rates(a.key), input.now, a.th);
          assert (a.run + [e])[..|a.run|] == a.run;
        }
      case AlertsStep(built) =>
        forall j | 0 <= j < |built|
          ensures ReloadViews(w.alerts, built)[j].state == StateAfter(ReloadViews(w.alerts, built)[j].run)
        {
          LastWithFacts(w.alerts, built[j].key);
        }
      case _ =>
    }
  }

  /** The moment of evaluation `k`: runs end at the last moment. */
  ghost function MomentOf(run: seq<Evaluation>, moments: seq<Moment>, k: nat): Moment
    requires k < |run| <= |moments|
  {
    moments[|moments| - |run| + k]
  }

  /** The rates that the rings reported in the ticks since evaluation `s` all satisfy `holds`. */
  ghost predicate RatesHold(
    run: seq<Evaluation>, s: nat, moments: seq<Moment>, key: AlertKey, holds: (real, Thresholds) -> bool)
    requires |run| <= |moments|
  {
    forall k {:trigger MomentOf(run, moments, k)} :: s <= k < |run| ==>
      var m := MomentOf(run, moments, k);
      holds(m.world.RingRate(key, m.now), run[k].th)
  }

  /** The rates of the flows themselves in those ticks all satisfy `holds`. */
  ghost predicate FlowsHold(
    run: seq<Evaluation>, s: nat, moments: seq<Moment>, key: AlertKey, holds: (real, Thresholds) -> bool)
    requires |run| <= |moments|
  {
    forall k {:trigger MomentOf(run, moments, k)} :: s <= k < |run| ==>
      var m := MomentOf(run, moments, k);
      holds(m.world.FlowRate(key, m.now), run[k].th)
  }

  /** All ticks of the run came past start-up. */
  ghost predicate AllPastStartUp(run: seq<Evaluation>, moments: seq<Moment>)
    requires |run| <= |moments|
  {
    forall k {:trigger MomentOf(run, moments, k)} :: 0 <= k < |run| ==>
      var m := MomentOf(run, moments, k);
      m.world.PastStartUp(m.now)
  }

  /** In all ticks of the run, moreover, no flow had come a whole window late. */
  ghost predicate AllSettled(run: seq<Evaluation>, moments: seq<Moment>)
    requires |run| <= |moments|
  {
    forall k {:trigger MomentOf(run, moments, k)} :: 0 <= k < |run| ==>
      var m := MomentOf(run, moments, k);
      m.world.Settled(m.now)
  }

  function Over(): (real, Thresholds) -> bool {
    (rate: real, th: Thresholds) => rate >= th.trigger
  }

  function Under(): (real, Thresholds) -> bool {
    (rate: real, th: Thresholds) => rate < th.recover
  }

  /** Alert `i` sends this action in a tick. */
  predicate Sends(a: AlertView, input: TickInput, i: nat, action: AlertAction) {
    var notice := NoticeOf(a, input.rates(a.key), input.now, input.ids(i));
    notice.Some? && notice.value.action == action
  }

  /** Alert `i` after one more tick, and the ticks up to that one. */
  ghost function AlertThen(windowSecs: nat, steps: seq<DaemonStep>, now: nat, input: TickInput, i: nat): AlertView
    requires i < |After(windowSecs, steps).alerts|
  {
    TickViews(After(windowSecs, steps).alerts, input)[i]
  }

  ghost function MomentsThen(windowSecs: nat, steps: seq<DaemonStep>, now: nat, input: TickInput): seq<Moment> {
    Moments(windowSecs, steps + [TickStep(now, input)])
  }

  lemma AlertThenFacts(windowSecs: nat, steps: seq<DaemonStep>, now: nat, input: TickInput, i: nat)
    requires IsRun(windowSecs, steps + [TickStep(now, input)]) && i < |After(windowSecs, steps).alerts|
    ensures var a, after := After(windowSecs, steps).alerts[i], AlertThen(windowSecs, steps, now, input, i);
      && after == Evaluated(a, input.rates(a.key), input.now, input.ids(i))
      && SawLast(after.run, MomentsThen(windowSecs, steps, now, input), after.key)
      && forall action :: Sends(a, input, i, action) <==> ActionAt(after.run, |after.run| - 1) == Some(action)
  {
    var a, after := After(windowSecs, steps).alerts[i], AlertThen(windowSecs, steps, now, input, i);
    assert after.run[..|a.run|] == a.run;
    RunPushes(windowSecs, steps, TickStep(now, input));
    StatesFollowRuns(windowSecs, steps);
    AlertsSawTheFlows(windowSecs, steps + [TickStep(now, input)]);
    assert AlertThen(windowSecs, steps, now, input, i) in After(windowSecs, steps + [TickStep(now, input)]).alerts;
  }

  lemma RatesAreEvaluated(
    run: seq<Evaluation>, s: nat, moments: seq<Moment>, key: AlertKey, holds: (real, Thresholds) -> bool)
    requires SawLast(run, moments, key)
    ensures RatesHold(run, s, moments, key, holds) <==> forall k :: s <= k < |run| ==> holds(run[k].rate, run[k].th)
  {
    forall k | s <= k < |run| ensures Saw(run[k], MomentOf(run, moments, k), key) {
    }
  }

  lemma SettledRatesAreFlows(
    run: seq<Evaluation>, s: nat, moments: seq<Moment>, key: AlertKey, holds: (real, Thresholds) -> bool)
    requires |run| <= |moments| && AllSettled(run, moments)
    ensures RatesHold(run, s, moments, key, holds) <==> FlowsHold(run, s, moments, key, holds)
  {
    forall k {:trigger MomentOf(run, moments, k)} | s <= k < |run|
      ensures var m := MomentOf(run, moments, k); m.world.RingRate(key, m.now) == m.world.FlowRate(key, m.now)
    {
      var m := MomentOf(run, moments, k);
      RingRateIsFlowRate(m.world, key, m.now);
    }
  }

  /** In every tick since evaluation `s`, which found the alert in Normal, the rings reported the
      trigger rate; the trigger time has now passed for the first time. */
  ghost predicate RatesStayedOver(a: AlertView, s: nat, moments: seq<Moment>)
    requires 0 < |a.run| <= |moments|
  {
    var n := |a.run| - 1;
    && s < n && StateAfter(a.run[..s]) == Normal
    && RatesHold(a.run, s, moments, a.key, Over())
    && NotYetTriggered(a.run, s, n)
    && (a.th.triggerFor == 0 || a.run[n].now >= a.run[s].now + a.th.triggerFor)
  }

  /** In every tick since evaluation `s`, which found the alert in Firing, the rings reported less
      than the recover threshold; the recover time has now passed for the first time. */
  ghost predicate RatesStayedUnder(a: AlertView, s: nat, moments: seq<Moment>)
    requires 0 < |a.run| <= |moments|
  {
    var n := |a.run| - 1;
    && s < n && StateAfter(a.run[..s]).Firing?
    && RatesHold(a.run, s, moments, a.key, Under())
    && NotYetRecovered(a.run, s, n)
    && (a.th.recoverFor == 0 || a.run[n].now >= a.run[s].now + a.th.recoverFor)
  }

  /** An alert fires in a tick if and only if in every tick of an unbroken stretch the rings
      reported its trigger rate, and the stretch now lasts the trigger time. */
  lemma FireIffRatesStayedOver(windowSecs: nat, steps: seq<DaemonStep>, now: nat, input: TickInput, i: nat)
    requires IsRun(windowSecs, steps + [TickStep(now, input)]) && i < |After(windowSecs, steps).alerts|
    ensures var after := AlertThen(windowSecs, steps, now, input, i);
      var moments := MomentsThen(windowSecs, steps, now, input);
      && 0 < |after.run| <= |moments|
      && (Sends(After(windowSecs, steps).alerts[i], input, i, Fire) <==>
            exists s: nat :: RatesStayedOver(after, s, moments))
  {
    var after, moments := AlertThen(windowSecs, steps, now, input, i), MomentsThen(windowSecs, steps, now, input);
    var n := |after.run| - 1;
    AlertThenFacts(windowSecs, steps, now, input, i);
    FireIff(after.run, n);
    if Sends(After(windowSecs, steps).alerts[i], input, i, Fire) {
      var s: nat :| PendingSince(after.run, s, n)
        && (after.th.triggerFor == 0 || input.now >= after.run[s].now + after.th.triggerFor);
      RatesAreEvaluated(after.run, s, moments, after.key, Over());
      assert RatesStayedOver(after, s, moments);
    }
    if s: nat :| RatesStayedOver(after, s, moments) {
      RatesAreEvaluated(after.run, s, moments, after.key, Over());
      assert PendingSince(after.run, s, n);
    }
  }

  /** The same for Resolve, with the recover threshold and time. */
  lemma ResolveIffRatesStayedUnder(windowSecs: nat, steps: seq<DaemonStep>, now: nat, input: TickInput, i: nat)
    requires IsRun(windowSecs, steps + [TickStep(now, input)]) && i < |After(windowSecs, steps).alerts|
    ensures var after := AlertThen(windowSecs, steps, now, input, i);
      var moments := MomentsThen(windowSecs, steps, now, input);
      && 0 < |after.run| <= |moments|
      && (Sends(After(windowSecs, steps).alerts[i], input, i, Resolve) <==>
            exists s: nat :: RatesStayedUnder(after, s, moments))
  {
    var after, moments := AlertThen(windowSecs, steps, now, input, i), MomentsThen(windowSecs, steps, now, input);
    var n := |after.run| - 1;
    AlertThenFacts(windowSecs, steps, now, input, i);
    ResolveIff(after.run, n);
    if Sends(After(windowSecs, steps).alerts[i], input, i, Resolve) {
      var s: nat :| RecoveringSince(after.run, s, n)
        && (after.th.recoverFor == 0 || input.now >= after.run[s].now + after.th.recoverFor);
      RatesAreEvaluated(after.run, s, moments, after.key, Under());
      assert RatesStayedUnder(after, s, moments);
    }
    if s: nat :| RatesStayedUnder(after, s, moments) {
      RatesAreEvaluated(after.run, s, moments, after.key, Under());
      assert RecoveringSince(after.run, s, n);
    }
  }

  /** The same stretch, read off the flows: in each of its ticks the flows of the last window
      carried the trigger rate. */
  ghost predicate FlowsStayedOver(a: AlertView, s: nat, moments: seq<Moment>)
    requires 0 < |a.run| <= |moments|
  {
    var n := |a.run| - 1;
    && s < n && StateAfter(a.run[..s]) == Normal
    && FlowsHold(a.run, s, moments, a.key, Over())
    && NotYetTriggered(a.run, s, n)
    && (a.th.triggerFor == 0 || a.run[n].now >= a.run[s].now + a.th.triggerFor)
  }

  /** In each tick of the stretch the flows of the last window stayed under the recover threshold. */
  ghost predicate FlowsStayedUnder(a: AlertView, s: nat, moments: seq<Moment>)
    requires 0 < |a.run| <= |moments|
  {
    var n := |a.run| - 1;
    && s < n && StateAfter(a.run[..s]).Firing?
    && FlowsHold(a.run, s, moments, a.key, Under())
    && NotYetRecovered(a.run, s, n)
    && (a.th.recoverFor == 0 || a.run[n].now >= a.run[s].now + a.th.recoverFor)
  }

  /** End to end: if all ticks of the alert's run were settled, it fires if and only if in every
      tick of an unbroken stretch the flows carried its trigger rate, and the stretch now lasts
      the trigger time. */
  lemma FireIffFlowsStayedOver(windowSecs: nat, steps: seq<DaemonStep>, now: nat, input: TickInput, i: nat)
    requires IsRun(windowSecs, steps + [TickStep(now, input)]) && i < |After(windowSecs, steps).alerts|
    ensures var after := AlertThen(windowSecs, steps, now, input, i);
      var moments := MomentsThen(windowSecs, steps, now, input);
      && 0 < |after.run| <= |moments|
      && (AllSettled(after.run, moments) ==>
            (Sends(After(windowSecs, steps).alerts[i], input, i, Fire) <==>
               exists s: nat :: FlowsStayedOver(after, s, moments)))
  {
    var after, moments := AlertThen(windowSecs, steps, now, input, i), MomentsThen(windowSecs, steps, now, input);
    FireIffRatesStayedOver(windowSecs, steps, now, input, i);
    if AllSettled(after.run, moments) {
      forall s: nat ensures FlowsStayedOver(after, s, moments) <==> RatesStayedOver(after, s, moments) {
        SettledRatesAreFlows(after.run, s, moments, after.key, Over());
      }
    }
  }

  /** The same for Resolve: the flows stayed under the recover threshold for the recover time. */
  lemma ResolveIffFlowsStayedUnder(windowSecs: nat, steps: seq<DaemonStep>, now: nat, input: TickInput, i: nat)
    requires IsRun(windowSecs, steps + [TickStep(now, input)]) && i < |After(windowSecs, steps).alerts|
    ensures var after := AlertThen(windowSecs, steps, now, input, i);
      var moments := MomentsThen(windowSecs, steps, now, input);
      && 0 < |after.run| <= |moments|
      && (AllSettled(after.run, moments) ==>
            (Sends(After(windowSecs, steps).alerts[i], input, i, Resolve) <==>
               exists s: nat :: FlowsStayedUnder(after, s, moments)))
  {
    var after, moments := AlertThen(windowSecs, steps, now, input, i), MomentsThen(windowSecs, steps, now, input);
    ResolveIffRatesStayedUnder(windowSecs, steps, now, input, i);
    if AllSettled(after.run, moments) {
      forall s: nat ensures FlowsStayedUnder(after, s, moments) <==> RatesStayedUnder(after, s, moments) {
        SettledRatesAreFlows(after.run, s, moments, after.key, Under());
      }
    }
  }

  /** No false alarm: past start-up, and however late flows came, an alert fires only if in every
      tick of the stretch the flows of the last window really carried the trigger rate. */
  lemma FireMeansFlowsStayedOver(windowSecs: nat, steps: seq<DaemonStep>, now: nat, input: TickInput, i: nat)
    requires IsRun(windowSecs, steps + [TickStep(now, input)]) && i < |After(windowSecs, steps).alerts|
    requires Sends(After(windowSecs, steps).alerts[i], input, i, Fire)
    ensures var after := AlertThen(windowSecs, steps, now, input, i);
      var moments := MomentsThen(windowSecs, steps, now, input);
      && 0 < |after.run| <= |moments|
      && (AllPastStartUp(after.run, moments) ==> exists s: nat :: FlowsStayedOver(after, s, moments))
  {
    var after, moments := AlertThen(windowSecs, steps, now, input, i), MomentsThen(windowSecs, steps, now, input);
    FireIffRatesStayedOver(windowSecs, steps, now, input, i);
    var s: nat :| RatesStayedOver(after, s, moments);
    if AllPastStartUp(after.run, moments) {
      RatesOverMeanFlowsOver(after.run, s, moments, after.key);
      assert FlowsStayedOver(after, s, moments);
    }
  }

  lemma RatesOverMeanFlowsOver(run: seq<Evaluation>, s: nat, moments: seq<Moment>, key: AlertKey)
    requires |run| <= |moments| && AllPastStartUp(run, moments) && RatesHold(run, s, moments, key, Over())
    ensures FlowsHold(run, s, moments, key, Over())
  {
    forall k {:trigger MomentOf(run, moments, k)} | s <= k < |run|
      ensures var m := MomentOf(run, moments, k); m.world.FlowRate(key, m.now) >= run[k].th.trigger
    {
      var m := MomentOf(run, moments, k);
      RingRateIsAtMostFlowRate(m.world, key, m.now);
    }
  }
}
