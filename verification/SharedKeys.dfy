/** Alerts that share a key, over runs of the daemon: real flows drive all of them over their
    triggers at once, so that a configuration keeps the episodes in all of its runs if and only
    if no two of its rules share a metric. */
module SharedKeys {
  import opened Network
  import opened Flows
  import opened FlowSums
  import opened RingBuffers
  import opened Config
  import opened Alert
  import opened Episodes
  import opened AlertManagers
  import opened DaemonRuns

  // ---------------------------------------------------------------- a flood for one key

  /** A protocol, port and flags of the category. */
  function ProtocolFor(c: Category): u8 {
    if c == Udp then 17 else if c == Icmp then 1 else if c == Gre then 47 else if c == Esp then 50 else 6
  }

  function PortFor(c: Category): u16 {
    if c == Dns then 53 else if c == Https then 443 else 0
  }

  function FlagsFor(c: Category): bv8 {
    if c == TcpSyn then 0x02 else 0
  }

  /** An address outside every prefix of the other family. */
  function Elsewhere(family: Family): IpAddr {
    Address(if family == V4 then V6 else V4, 0)
  }

  /** One byte in one packet, at second `t`, that counts for the key. */
  function FloodFlow(key: AlertKey, t: nat): FlowRecord {
    var inside, outside := key.prefix.addr, Elsewhere(key.prefix.addr.family);
    var c := key.buffer.protocol;
    FlowRecord(
      if key.buffer.direction == Inbound then outside else inside,
      if key.buffer.direction == Inbound then inside else outside,
      0, PortFor(c), ProtocolFor(c), FlagsFor(c), 1, 1, t, 1)
  }

  lemma FloodCounts(key: AlertKey, t: nat)
    ensures Counts(key.prefix, key.buffer, FloodFlow(key, t))
  {
  }

  function Repeat(f: FlowRecord, n: nat): (flows: seq<FlowRecord>)
    ensures |flows| == n && forall i :: 0 <= i < n ==> flows[i] == f
  {
    if n == 0 then [] else Repeat(f, n - 1) + [f]
  }

  lemma {:induction false} FloodTraffic(before: seq<FlowRecord>, f: FlowRecord, n: nat, p: FlowPred)
    requires p(f) && f.SampledBytes() >= 1 && f.SampledPackets() >= 1
    ensures Totals(n, n, n).AtMost(Traffic(before + Repeat(f, n), p))
  {
    if n > 0 {
      var shorter := before + Repeat(f, n - 1);
      FloodTraffic(before, f, n - 1, p);
      assert before + Repeat(f, n) == shorter + [f];
      assert (shorter + [f])[..|shorter|] == shorter;
    }
  }

  /** `n` units in a window make a rate of at least `rate`. */
  predicate Suffices(n: nat, rate: real, w: nat) {
    n as real >= rate * w as real
  }

  /** Enough flows in the second of a query push every metric of the key to any rate. */
  lemma FloodRate(before: seq<FlowRecord>, key: AlertKey, w: nat, now: nat, n: nat, rate: real)
    requires w > 0 && Suffices(n, rate, w)
    ensures DirectRate(key, before + Repeat(FloodFlow(key, now), n), w, now) >= rate
  {
    var flows := before + Repeat(FloodFlow(key, now), n);
    var counted := CountedBetween(key.prefix, key.buffer, now - w + 1, now + 1);
    FloodCounts(key, now);
    FloodTraffic(before, FloodFlow(key, now), n, counted);
    RatesAreMonotone(Totals(n, n, n), Traffic(flows, counted), w, key.metric);
    FloodMetric(n, w, key.metric, rate);
  }

  lemma FloodMetric(n: nat, w: nat, metric: MetricType, rate: real)
    requires w > 0 && Suffices(n, rate, w)
    ensures MetricOf(RatesOf(Totals(n, n, n), w), metric) >= rate
  {
    DividedIsMonotone(rate * w as real, n as real, w as real);
    DividedIsMonotone(n as real, (n * 8) as real, w as real);
    assert (rate * w as real) / w as real == rate;
  }

  // ---------------------------------------------------------------- a run of the daemon

  function FloodSteps(f: FlowRecord, n: nat): (steps: seq<DaemonStep>)
    ensures |steps| == n && forall i :: 0 <= i < n ==> steps[i] == FlowStep(f)
  {
    if n == 0 then [] else FloodSteps(f, n - 1) + [FlowStep(f)]
  }

  /** Flows change neither the window nor what is measured. */
  ghost predicate SameSetup(a: World, b: World) {
    a.windowSecs == b.windowSecs && forall key :: a.Measures(key) <==> b.Measures(key)
  }

  lemma SameConfigsSameSetup(a: World, b: World)
    requires a.windowSecs == b.windowSecs && |a.rules| == |b.rules|
    requires forall i :: 0 <= i < |a.rules| ==> a.rules[i].config == b.rules[i].config
    ensures SameSetup(a, b)
  {
    forall key ensures a.Measures(key) <==> b.Measures(key) {
      MeasuresToo(a, b, key);
      MeasuresToo(b, a, key);
    }
  }

  lemma MeasuresToo(a: World, b: World, key: AlertKey)
    requires |a.rules| == |b.rules|
    requires forall i :: 0 <= i < |a.rules| ==> a.rules[i].config == b.rules[i].config
    ensures a.Measures(key) ==> b.Measures(key)
  {
    if a.Measures(key) {
      var i: nat :| i < |a.rules|
        && a.rules[i].config.prefix == key.prefix && key.buffer in a.rules[i].config.thresholds;
      assert b.rules[i].config == a.rules[i].config;
    }
  }

  lemma FlowKeepsSetup(w: World, f: FlowRecord)
    ensures SameSetup(w, AfterStep(w, FlowStep(f)))
  {
    SameConfigsSameSetup(w, AfterStep(w, FlowStep(f)));
  }

  lemma TickKeepsSetup(w: World, now: nat, input: TickInput)
    ensures SameSetup(w, AfterStep(w, TickStep(now, input)))
  {
    SameConfigsSameSetup(w, AfterStep(w, TickStep(now, input)));
  }

  /** `all` goes on from `steps` with `n` times the flow. */
  ghost predicate Flooded(windowSecs: nat, steps: seq<DaemonStep>, all: seq<DaemonStep>, f: FlowRecord, n: nat) {
    && IsRun(windowSecs, all) && ManagerSteps(all) == ManagerSteps(steps)
    && After(windowSecs, all).seen == After(windowSecs, steps).seen + Repeat(f, n)
    && SameSetup(After(windowSecs, steps), After(windowSecs, all))
  }

  lemma FloodedPush(windowSecs: nat, steps: seq<DaemonStep>, all: seq<DaemonStep>, f: FlowRecord, n: nat)
    requires Flooded(windowSecs, steps, all, f, n)
    ensures Flooded(windowSecs, steps, all + [FlowStep(f)], f, n + 1)
  {
    RunPushes(windowSecs, all, FlowStep(f));
    FlowKeepsSetup(After(windowSecs, all), f);
    assert (all + [FlowStep(f)])[..|all|] == all;
    assert After(windowSecs, steps).seen + Repeat(f, n) + [f] == After(windowSecs, steps).seen + Repeat(f, n + 1);
  }

  lemma {:induction false} FloodRun(windowSecs: nat, steps: seq<DaemonStep>, f: FlowRecord, n: nat)
    requires IsRun(windowSecs, steps)
    ensures Flooded(windowSecs, steps, steps + FloodSteps(f, n), f, n)
  {
    if n == 0 {
      assert steps + FloodSteps(f, 0) == steps;
      assert After(windowSecs, steps).seen + Repeat(f, 0) == After(windowSecs, steps).seen;
    } else {
      FloodRun(windowSecs, steps, f, n - 1);
      FloodedPush(windowSecs, steps, steps + FloodSteps(f, n - 1), f, n - 1);
      assert steps + FloodSteps(f, n) == steps + FloodSteps(f, n - 1) + [FlowStep(f)];
    }
  }

  /** What a tick at second `now` and instant `clock` evaluates the keys with. */
  ghost function InputAt(w: World, now: nat, clock: nat): TickInput {
    TickInput((key: AlertKey) => w.RingRate(key, now), (i: nat) => w.nextId + i, clock)
  }

  lemma TickRun(windowSecs: nat, steps: seq<DaemonStep>, now: nat, clock: nat)
    requires IsRun(windowSecs, steps)
    ensures var input := InputAt(After(windowSecs, steps), now, clock);
      var all := steps + [TickStep(now, input)];
      && IsRun(windowSecs, all) && ManagerSteps(all) == ManagerSteps(steps) + [Tick(input)]
      && After(windowSecs, all).seen == After(windowSecs, steps).seen
      && SameSetup(After(windowSecs, steps), After(windowSecs, all))
  {
    var w := After(windowSecs, steps);
    var step := TickStep(now, InputAt(w, now, clock));
    RunPushes(windowSecs, steps, step);
    assert (steps + [step])[..|steps|] == steps;
    TickKeepsSetup(w, now, InputAt(w, now, clock));
  }

  /** A run after which the key is measured over a window of `w` and these flows were seen. */
  ghost predicate Ready(windowSecs: nat, steps: seq<DaemonStep>, w: nat, key: AlertKey, seen: seq<FlowRecord>) {
    && IsRun(windowSecs, steps)
    && var world := After(windowSecs, steps);
       world.windowSecs == w && world.Measures(key) && world.seen == seen
  }

  function WindowOf(windowSecs: nat, config: Config): nat {
    if config.windowSecs > 0 then config.windowSecs else windowSecs
  }

  lemma ConfiguredIsMeasured(w: World, config: Config, origins: seq<Origin>, built: seq<AlertView>, i: nat)
    requires BuiltAll(config, origins, built) && i < |built| && w.rules == NewRules(config)
    ensures w.Measures(built[i].key)
  {
    KeyOfOrigin(config, origins, built, i);
    var o := origins[i];
    assert w.rules[o.rule].config == config.rules[o.rule];
  }

  lemma ManagerStepsPush(steps: seq<DaemonStep>, config: Config, built: seq<AlertView>)
    ensures ManagerSteps(steps + [ProcessorStep(config)]) == ManagerSteps(steps)
    ensures ManagerSteps(steps + [AlertsStep(built)]) == ManagerSteps(steps) + [Reload(built)]
  {
    assert (steps + [ProcessorStep(config)])[..|steps|] == steps;
    assert (steps + [AlertsStep(built)])[..|steps|] == steps;
  }

  /** The two reloads of an accepted configuration, from the start. */
  lemma ReloadReady(windowSecs: nat, config: Config, origins: seq<Origin>, built: seq<AlertView>, i: nat)
    returns (steps: seq<DaemonStep>)
    requires BuiltAll(config, origins, built) && AllNew(built) && Accepted(config) && i < |built|
    ensures Ready(windowSecs, steps, WindowOf(windowSecs, config), built[i].key, [])
    ensures ManagerSteps(steps) == [Reload(built)] && StepsOf(steps, config, built)
  {
    var none: seq<DaemonStep> := [];
    var one := none + [ProcessorStep(config)];
    RunPushes(windowSecs, none, ProcessorStep(config));
    RunPushes(windowSecs, one, AlertsStep(built));
    ManagerStepsPush(none, config, built);
    ManagerStepsPush(one, config, built);
    steps := one + [AlertsStep(built)];
    ConfiguredIsMeasured(After(windowSecs, steps), config, origins, built, i);
  }

  lemma FloodReady(
    windowSecs: nat, steps: seq<DaemonStep>, w: nat, key: AlertKey, seen: seq<FlowRecord>, f: FlowRecord, n: nat)
    requires Ready(windowSecs, steps, w, key, seen)
    ensures Ready(windowSecs, steps + FloodSteps(f, n), w, key, seen + Repeat(f, n))
    ensures ManagerSteps(steps + FloodSteps(f, n)) == ManagerSteps(steps)
  {
    FloodRun(windowSecs, steps, f, n);
  }

  lemma TickReady(
    windowSecs: nat, steps: seq<DaemonStep>, w: nat, key: AlertKey, seen: seq<FlowRecord>, now: nat, clock: nat)
    requires Ready(windowSecs, steps, w, key, seen)
    ensures var input := InputAt(After(windowSecs, steps), now, clock);
      var all := steps + [TickStep(now, input)];
      Ready(windowSecs, all, w, key, seen) && ManagerSteps(all) == ManagerSteps(steps) + [Tick(input)]
  {
    TickRun(windowSecs, steps, now, clock);
  }

  lemma ReadyRate(
    windowSecs: nat, steps: seq<DaemonStep>, w: nat, key: AlertKey, before: seq<FlowRecord>, now: nat,
    n: nat, rate: real)
    requires Ready(windowSecs, steps, w, key, before + Repeat(FloodFlow(key, now), n))
    requires Timely(before + Repeat(FloodFlow(key, now), n), w, now)
    requires 0 < w <= now + 1 && Suffices(n, rate, w)
    ensures After(windowSecs, steps).RingRate(key, now) >= rate
  {
    RingRateIsFlowRate(After(windowSecs, steps), key, now);
    FloodRate(before, key, w, now, n, rate);
  }

  /** Flows that come in order of time are timely. */
  lemma FloodIsTimely(f: FlowRecord, n: nat, w: nat)
    requires w > 0
    ensures Timely([] + Repeat(f, n), w, f.timeReceived)
  {
    assert [] + Repeat(f, n) == Repeat(f, n);
  }

  lemma FloodsAreTimely(f: FlowRecord, g: FlowRecord, n: nat, m: nat, w: nat)
    requires w > 0 && f.timeReceived <= g.timeReceived
    ensures Timely([] + Repeat(f, n) + Repeat(g, m), w, g.timeReceived)
  {
    var flows := [] + Repeat(f, n) + Repeat(g, m);
    forall i | 0 <= i < |flows| ensures flows[i] == if i < n then f else g {
      if i < n {
        assert flows[i] == Repeat(f, n)[i];
      } else {
        assert flows[i] == Repeat(g, m)[i - n];
      }
    }
  }

  /** As many flows as a rate over a window needs. */
  function Enough(rate: real, w: nat): (n: nat)
    ensures Suffices(n, rate, w)
  {
    if rate * w as real <= 0.0 then 0 else (rate * w as real).Floor + 1
  }

  /** The steps come from one configuration. */
  ghost predicate StepsOf(steps: seq<DaemonStep>, config: Config, built: seq<AlertView>) {
    forall step :: step in steps ==>
      (step.ProcessorStep? ==> step.config == config) && (step.AlertsStep? ==> step.built == built)
  }

  lemma StepsOfPush(steps: seq<DaemonStep>, more: seq<DaemonStep>, config: Config, built: seq<AlertView>)
    requires StepsOf(steps, config, built)
    requires forall step :: step in more ==> step.FlowStep? || step.TickStep?
    ensures StepsOf(steps + more, config, built)
  {
  }

  /** A flood at second `now` and a tick right after it, at instant `clock`. */
  lemma FloodAndTick(
    windowSecs: nat, steps: seq<DaemonStep>, w: nat, key: AlertKey, before: seq<FlowRecord>, now: nat, clock: nat,
    n: nat, rate: real, config: Config, built: seq<AlertView>) returns (all: seq<DaemonStep>, input: TickInput)
    requires Ready(windowSecs, steps, w, key, before) && StepsOf(steps, config, built)
    requires Timely(before + Repeat(FloodFlow(key, now), n), w, now)
    requires 0 < w <= now + 1 && Suffices(n, rate, w)
    ensures Ready(windowSecs, all, w, key, before + Repeat(FloodFlow(key, now), n))
    ensures ManagerSteps(all) == ManagerSteps(steps) + [Tick(input)]
    ensures input.now == clock && input.rates(key) >= rate
    ensures StepsOf(all, config, built)
  {
    var f := FloodFlow(key, now);
    var flooded := steps + FloodSteps(f, n);
    FloodReady(windowSecs, steps, w, key, before, f, n);
    ReadyRate(windowSecs, flooded, w, key, before, now, n, rate);
    input := InputAt(After(windowSecs, flooded), now, clock);
    TickReady(windowSecs, flooded, w, key, before + Repeat(f, n), now, clock);
    all := flooded + [TickStep(now, input)];
    StepsOfPush(steps, FloodSteps(f, n), config, built);
    StepsOfPush(flooded, [TickStep(now, input)], config, built);
  }

  lemma FloodedTwice(
    windowSecs: nat, config: Config, origins: seq<Origin>, built: seq<AlertView>, i: nat, rate: real, later: nat)
    returns (steps: seq<DaemonStep>, first: TickInput, second: TickInput)
    requires BuiltAll(config, origins, built) && AllNew(built) && Accepted(config) && i < |built|
    requires WindowOf(windowSecs, config) > 0
    ensures IsRun(windowSecs, steps) && StepsOf(steps, config, built)
    ensures ManagerSteps(steps) == [Reload(built)] + [Tick(first)] + [Tick(second)]
    ensures first.now == 0 && second.now == later
    ensures first.rates(built[i].key) >= rate && second.rates(built[i].key) >= rate
  {
    var w, key := WindowOf(windowSecs, config), built[i].key;
    var n := Enough(rate, w);
    var flows := [] + Repeat(FloodFlow(key, w), n);
    FloodIsTimely(FloodFlow(key, w), n, w);
    FloodsAreTimely(FloodFlow(key, w), FloodFlow(key, w + later), n, n, w);
    var reloads := ReloadReady(windowSecs, config, origins, built, i);
    var one;
    one, first := FloodAndTick(windowSecs, reloads, w, key, [], w, 0, n, rate, config, built);
    steps, second := FloodAndTick(windowSecs, one, w, key, flows, w + later, later, n, rate, config, built);
  }

  /** If two alerts of an accepted configuration share a key, a run of the daemon with real flows
      breaks the order of that key's notices. */
  lemma SharedKeysBreakSomeRun(windowSecs: nat, config: Config, origins: seq<Origin>, built: seq<AlertView>)
    returns (steps: seq<DaemonStep>, key: AlertKey)
    requires BuiltAll(config, origins, built) && Accepted(config) && WindowOf(windowSecs, config) > 0
    requires !UniqueKeys(built)
    ensures IsRun(windowSecs, steps) && StepsOf(steps, config, built)
    ensures key in LogsAfter(ManagerSteps(steps)) && Scan(LogsAfter(ManagerSteps(steps))[key]) == Broken
    ensures !InEpisodes(LogsAfter(ManagerSteps(steps)))
  {
    var i, j :| 0 <= i < j < |built| && built[i].key == built[j].key;
    key := built[i].key;
    BuiltAreNew(config, origins, built);
    var first, second;
    steps, first, second :=
      FloodedTwice(windowSecs, config, origins, built, i, HighestTrigger(built), LongestTrigger(built));
    assert SoonDue(built, first, second, key);
    BreaksIfDue(built, steps, first, second, i, j);
  }

  lemma BreaksIfDue(
    built: seq<AlertView>, steps: seq<DaemonStep>, first: TickInput, second: TickInput, i: nat, j: nat)
    requires ManagerSteps(steps) == [Reload(built)] + [Tick(first)] + [Tick(second)]
    requires AllNew(built) && i < j < |built| && built[i].key == built[j].key
    requires SoonDue(built, first, second, built[i].key)
    ensures var logs := LogsAfter(ManagerSteps(steps));
      built[i].key in logs && Scan(logs[built[i].key]) == Broken && !InEpisodes(logs)
  {
    TwoTicksBreak(built, [Reload(built)] + [Tick(first)], first, second, i, j);
  }

  ghost predicate AlwaysKeepsEpisodes(windowSecs: nat, config: Config, built: seq<AlertView>) {
    forall steps {:trigger StepsOf(steps, config, built)} ::
      IsRun(windowSecs, steps) && StepsOf(steps, config, built) ==> InEpisodes(LogsAfter(ManagerSteps(steps)))
  }

  lemma UniqueKeysAlwaysKeep(windowSecs: nat, config: Config, built: seq<AlertView>, steps: seq<DaemonStep>)
    requires UniqueKeys(built) && IsRun(windowSecs, steps) && StepsOf(steps, config, built)
    ensures InEpisodes(LogsAfter(ManagerSteps(steps)))
  {
    forall i | 0 <= i < |steps| && steps[i].AlertsStep? ensures UniqueKeys(steps[i].built) {
      assert steps[i] in steps;
    }
    DaemonKeepsEpisodes(windowSecs, steps);
    HoldingIsUnbroken(After(windowSecs, steps).alerts, LogsAfter(ManagerSteps(steps)));
  }

  /** Every run of the daemon with an accepted configuration, over all flows, ticks and reloads
      of it, keeps the episodes if and only if no two of its rules with one prefix share a
      metric. */
  lemma DaemonKeepsEpisodesIff(windowSecs: nat, config: Config, origins: seq<Origin>, built: seq<AlertView>)
    requires BuiltAll(config, origins, built) && Accepted(config) && WindowOf(windowSecs, config) > 0
    ensures AlwaysKeepsEpisodes(windowSecs, config, built) <==> NoSharedMetric(config)
  {
    KeysAreUniqueIff(config, origins, built);
    if UniqueKeys(built) {
      forall steps {:trigger StepsOf(steps, config, built)} | IsRun(windowSecs, steps) && StepsOf(steps, config, built)
        ensures InEpisodes(LogsAfter(ManagerSteps(steps)))
      {
        UniqueKeysAlwaysKeep(windowSecs, config, built, steps);
      }
    } else {
      var steps, key := SharedKeysBreakSomeRun(windowSecs, config, origins, built);
      assert StepsOf(steps, config, built);
    }
  }
}
