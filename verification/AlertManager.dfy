/** The alert manager: one tick over all alerts with the memoised drain, and the reload that
    carries alert state over. */
module AlertManagers {
  import opened Network
  import opened Flows
  import opened Config
  import opened RingBuffers
  import opened Processor
  import opened TickDrains
  import opened Mitigation
  import opened Alert
  import opened Episodes

  // ---------------------------------------------------------------- find_rate

  function MetricOf(rates: Rates, metric: MetricType): real {
    match metric
    case Bps => rates.bps
    case Pps => rates.pps
    case Fps => rates.fps
  }

  predicate IsFor(s: RateSnapshot, key: AlertKey) {
    s.prefix == key.prefix && s.key == key.buffer
  }

  /** The rate in the first matching snapshot, or 0. */
  function RateFor(snapshots: seq<RateSnapshot>, key: AlertKey): real {
    if snapshots == [] then 0.0
    else if IsFor(snapshots[0], key) then MetricOf(snapshots[0].rates, key.metric)
    else RateFor(snapshots[1..], key)
  }

  /** The first snapshot of the prefix and buffer. */
  predicate FirstAnswer(snapshots: seq<RateSnapshot>, prefix: IpNet, buffer: BufferKey, i: nat)
    requires i < |snapshots|
  {
    && snapshots[i].prefix == prefix && snapshots[i].key == buffer
    && forall j :: 0 <= j < i ==> snapshots[j].prefix != prefix || snapshots[j].key != buffer
  }

  method FindRate(snapshots: seq<RateSnapshot>, key: AlertKey) returns (rate: real)
    ensures rate == RateFor(snapshots, key)
    ensures (forall s :: s in snapshots ==> s.prefix != key.prefix || s.key != key.buffer) ==> rate == 0.0
    ensures forall i :: 0 <= i < |snapshots| && FirstAnswer(snapshots, key.prefix, key.buffer, i) ==>
      && (key.metric == Bps ==> rate == snapshots[i].rates.bps)
      && (key.metric == Pps ==> rate == snapshots[i].rates.pps)
      && (key.metric == Fps ==> rate == snapshots[i].rates.fps)
  {
    for i := 0 to |snapshots|
      invariant RateFor(snapshots, key) == RateFor(snapshots[i..], key)
      invariant forall j :: 0 <= j < i ==> !IsFor(snapshots[j], key)
    {
      if IsFor(snapshots[i], key) {
        return MetricOf(snapshots[i].rates, key.metric);
      }
    }
    return 0.0;
  }

  /** Which matching snapshot comes first does not matter when they agree. */
  lemma {:induction false} RateForAgrees(snapshots: seq<RateSnapshot>, key: AlertKey, rates: Rates)
    requires forall s :: s in snapshots && IsFor(s, key) ==> s.rates == rates
    ensures RateFor(snapshots, key) ==
      if exists s :: s in snapshots && IsFor(s, key) then MetricOf(rates, key.metric) else 0.0
  {
    if snapshots != [] {
      RateForAgrees(snapshots[1..], key, rates);
      assert snapshots == [snapshots[0]] + snapshots[1..];
    }
  }

  // ---------------------------------------------------------------- payloads

  datatype AlertPayload = AlertPayload(notice: Notice, value: real, threshold: real, rules: seq<MitigationRule>)

  /** What the alerts of one tick see. Ids come from a counter, one per alert. */
  function InputOf(snapshots: seq<RateSnapshot>, firstId: nat, now: nat): TickInput {
    TickInput((key: AlertKey) => RateFor(snapshots, key), (i: nat) => firstId + i, now)
  }

  /** The captures at the start of a tick. */
  datatype TickStart = TickStart(prefixes: seq<IpNet>, deques: seq<Deque>)

  function RequestOf(a: AlertView, rate: real, flows: seq<FlowRecord>): Request {
    Request(flows, a.key.prefix, a.key.buffer.direction, a.key.buffer.protocol, rate, a.th.trigger)
  }

  function CapturesFor(start: TickStart, key: AlertKey): seq<FlowRecord>
    requires |start.prefixes| == |start.deques|
  {
    Delivered(start.prefixes, start.deques, key.prefix, key.buffer.direction)
  }

  /** The payload of alert `i`: it reports the alert's notice, and on Fire and Update its rules
      analyse exactly what the tick's start held for the alert's prefix and direction. */
  ghost predicate Reports(p: AlertPayload, a: AlertView, i: nat, input: TickInput, start: TickStart)
    requires |start.prefixes| == |start.deques|
  {
    var rate := input.rates(a.key);
    && NoticeOf(a, rate, input.now, input.ids(i)) == Some(p.notice)
    && p.value == rate
    && if p.notice.action == Resolve then p.threshold == a.th.recover && p.rules == []
       else p.threshold == a.th.trigger && Analyzed(RequestOf(a, rate, CapturesFor(start, a.key)), p.rules)
  }

  ghost predicate Reported(p: AlertPayload, alerts: seq<AlertView>, input: TickInput, start: TickStart)
    requires |start.prefixes| == |start.deques|
  {
    exists i: nat :: i < |alerts| && Reports(p, alerts[i], i, input, start)
  }

  /** Every payload of the tick is some alert's. */
  ghost predicate AllReported(payloads: seq<AlertPayload>, alerts: seq<AlertView>, input: TickInput, start: TickStart)
    requires |start.prefixes| == |start.deques|
  {
    forall p {:trigger Reported(p, alerts, input, start)} :: p in payloads ==> Reported(p, alerts, input, start)
  }

  lemma ReportedPush(
    payloads: seq<AlertPayload>, p: AlertPayload, alerts: seq<AlertView>, i: nat, input: TickInput, start: TickStart)
    requires |start.prefixes| == |start.deques| && AllReported(payloads, alerts, input, start)
    requires i < |alerts| && Reports(p, alerts[i], i, input, start)
    ensures AllReported(payloads + [p], alerts, input, start)
  {
    forall r | r in payloads + [p] ensures Reported(r, alerts, input, start) {
      if r in payloads {
        assert Reported(r, alerts, input, start);
      }
    }
  }

  function NoticesOf(payloads: seq<AlertPayload>): (notices: seq<Notice>)
    ensures |notices| == |payloads|
  {
    seq(|payloads|, i requires 0 <= i < |payloads| => payloads[i].notice)
  }

  /** The payload, if any, of alert `i`. */
  ghost predicate PayloadOf(p: Option<AlertPayload>, a: AlertView, i: nat, input: TickInput, start: TickStart)
    requires |start.prefixes| == |start.deques|
  {
    && (p.Some? <==> NoticeOf(a, input.rates(a.key), input.now, input.ids(i)).Some?)
    && (p.Some? ==> Reports(p.value, a, i, input, start))
  }

  /** What one alert drains: its key on Fire and Update. */
  function KeysDrainedBy(a: AlertView, input: TickInput): set<DrainKey> {
    var action := Step(a.state, a.th, input.rates(a.key), input.now).1;
    if action == Some(Fire) || action == Some(Update) then {(a.key.prefix, a.key.buffer.direction)} else {}
  }

  function DrainedBy(alerts: seq<AlertView>, input: TickInput): set<DrainKey> {
    if alerts == [] then {} else
      DrainedBy(alerts[..|alerts| - 1], input) + KeysDrainedBy(alerts[|alerts| - 1], input)
  }

  /** A tick drains the prefixes and directions of the alerts that fire or send an update in it,
      and no others; in particular a Resolve drains nothing. */
  lemma {:induction false} DrainedIff(alerts: seq<AlertView>, input: TickInput, k: DrainKey)
    ensures k in DrainedBy(alerts, input) <==>
      exists i: nat :: i < |alerts| && SendsAbout(alerts[i], i, input, k)
  {
    if alerts != [] {
      var n := |alerts| - 1;
      DrainedIff(alerts[..n], input, k);
      if i: nat :| i < n && SendsAbout(alerts[i], i, input, k) {
        assert alerts[..n][i] == alerts[i];
      }
      assert SendsAbout(alerts[n], n, input, k) <==> k in KeysDrainedBy(alerts[n], input);
    }
  }

  /** Alert `i` sends a Fire or an Update about this prefix and direction. */
  predicate SendsAbout(a: AlertView, i: nat, input: TickInput, k: DrainKey) {
    var notice := NoticeOf(a, input.rates(a.key), input.now, input.ids(i));
    notice.Some? && (notice.value.action == Fire || notice.value.action == Update)
    && a.key.prefix == k.0 && a.key.buffer.direction == k.1
  }

  /** What the first `i` alerts of a tick have sent and drained. */
  ghost predicate Logged(
    i: nat, alerts: seq<AlertView>, input: TickInput, start: TickStart, payloads: seq<AlertPayload>,
    drained: set<DrainKey>)
  {
    && i <= |alerts| && |start.prefixes| == |start.deques|
    && AllReported(payloads, alerts, input, start)
    && NoticesOf(payloads) == TickNotices(alerts[..i], input)
    && drained == DrainedBy(alerts[..i], input)
  }

  lemma LoggedAll(
    alerts: seq<AlertView>, input: TickInput, start: TickStart, payloads: seq<AlertPayload>, drained: set<DrainKey>)
    requires Logged(|alerts|, alerts, input, start, payloads, drained)
    ensures |start.prefixes| == |start.deques| && AllReported(payloads, alerts, input, start)
    ensures NoticesOf(payloads) == TickNotices(alerts, input)
    ensures drained == DrainedBy(alerts, input)
  {
    assert alerts[..|alerts|] == alerts;
  }

  lemma LoggedPush(
    i: nat, alerts: seq<AlertView>, input: TickInput, start: TickStart, payloads: seq<AlertPayload>,
    drained: set<DrainKey>, p: Option<AlertPayload>)
    requires Logged(i, alerts, input, start, payloads, drained) && i < |alerts|
    requires PayloadOf(p, alerts[i], i, input, start)
    ensures Logged(i + 1, alerts, input, start, payloads + (if p.Some? then [p.value] else []),
      drained + KeysDrainedBy(alerts[i], input))
  {
    assert alerts[..i + 1][..i] == alerts[..i];
    if p.Some? {
      ReportedPush(payloads, p.value, alerts, i, input, start);
    } else {
      assert payloads + [] == payloads;
    }
  }

  lemma NoCapturesNoRules(q: Request)
    requires q.flows == []
    ensures Analyzed(q, [])
  {
    assert Remaining(q, []) == [];
    assert IsAnalysis(q, [], []);
  }

  // ---------------------------------------------------------------- the class

  ghost predicate DrainState(processor: FlowProcessor, start: TickStart, drained: map<DrainKey, seq<FlowRecord>>)
    reads processor, processor.Repr
  {
    && processor.Valid()
    && processor.Prefixes() == start.prefixes
    && StartLess(start.prefixes, start.deques, processor.CapturedAll(), drained.Keys)
    && forall k :: k in drained ==> drained[k] == Delivered(start.prefixes, start.deques, k.0, k.1)
  }

  /** The captures of a key: drained now, or remembered from earlier in the tick. */
  method DrainOnce(
    k: DrainKey, processor: FlowProcessor, drained: map<DrainKey, seq<FlowRecord>>, ghost start: TickStart)
    returns (drained': map<DrainKey, seq<FlowRecord>>)
    requires DrainState(processor, start, drained)
    modifies processor.Repr
    ensures DrainState(processor, start, drained') && drained'.Keys == drained.Keys + {k}
  {
    drained' := drained;
    if k !in drained {
      ghost var current := processor.CapturedAll();
      FreshDrainDelivers(start.prefixes, start.deques, current, drained.Keys, k);
      var captured := processor.DrainCapturedFlows(k.0, k.1);
      DrainExtends(start.prefixes, start.deques, current, processor.CapturedAll(), drained.Keys, k);
      drained' := drained[k := captured];
      assert drained'.Keys == drained.Keys + {k};
    }
  }

  /** The memoised drain of one alert and its analysis. */
  method AnalyzeCaptured(
    key: AlertKey, rate: real, trigger: real, processor: FlowProcessor, drained: map<DrainKey, seq<FlowRecord>>,
    ghost start: TickStart)
    returns (rules: seq<MitigationRule>, drained': map<DrainKey, seq<FlowRecord>>)
    requires DrainState(processor, start, drained)
    modifies processor.Repr
    ensures DrainState(processor, start, drained')
    ensures drained'.Keys == drained.Keys + {(key.prefix, key.buffer.direction)}
    ensures Analyzed(
      Request(CapturesFor(start, key), key.prefix, key.buffer.direction, key.buffer.protocol, rate, trigger), rules)
  {
    var k := (key.prefix, key.buffer.direction);
    drained' := DrainOnce(k, processor, drained, start);
    var flows := drained'[k];
    var q := Request(flows, key.prefix, key.buffer.direction, key.buffer.protocol, rate, trigger);
    if flows == [] {
      NoCapturesNoRules(q);
      rules := [];
    } else {
      ghost var rounds;
      rules, rounds := AnalyzeFlows(q);
    }
  }

  ghost function ViewOf(a: AlertInstance): AlertView
    reads a
  {
    AlertView(a.key, a.thresholds, a.state, a.alertId, a.run)
  }

  /** Advance the alert's state; firing takes an id. */
  method EvaluateState(alert: AlertInstance, id: nat, rate: real, now: nat) returns (action: Option<AlertAction>)
    requires alert.Valid()
    modifies alert
    ensures alert.Valid() && ViewOf(alert) == Evaluated(old(ViewOf(alert)), rate, now, id)
    ensures NoticeOf(old(ViewOf(alert)), rate, now, id) ==
      if action.Some? then Some(Notice(alert.key, action.value, alert.alertId)) else None
  {
    action := alert.Evaluate(rate, now);
    if action == Some(Fire) {
      alert.alertId := id;
    }
  }

  /** One alert of a tick: evaluate, take an id when firing, drain and analyse when firing or
      updating, and build the payload. */
  method EvaluateAlert(
    alert: AlertInstance, id: nat, rate: real, now: nat, processor: FlowProcessor,
    drained: map<DrainKey, seq<FlowRecord>>, ghost i: nat, ghost input: TickInput, ghost start: TickStart)
    returns (payload: Option<AlertPayload>, drained': map<DrainKey, seq<FlowRecord>>)
    requires alert.Valid() && DrainState(processor, start, drained) && alert !in processor.Repr
    requires rate == input.rates(alert.key) && now == input.now && id == input.ids(i)
    modifies alert, processor.Repr
    ensures alert.Valid() && DrainState(processor, start, drained')
    ensures ViewOf(alert) == Evaluated(old(ViewOf(alert)), rate, now, id)
    ensures PayloadOf(payload, old(ViewOf(alert)), i, input, start)
    ensures drained'.Keys == drained.Keys + KeysDrainedBy(old(ViewOf(alert)), input)
  {
    drained' := drained;
    var action := EvaluateState(alert, id, rate, now);
    if action == None {
      return None, drained;
    }
    var rules: seq<MitigationRule> := [];
    if action.value == Fire || action.value == Update {
      rules, drained' := AnalyzeCaptured(alert.key, rate, alert.thresholds.trigger, processor, drained, start);
    }
    var threshold := if action.value == Resolve then alert.thresholds.recover else alert.thresholds.trigger;
    payload := Some(AlertPayload(Notice(alert.key, action.value, alert.alertId), rate, threshold, rules));
  }

  // ---------------------------------------------------------------- building alerts from a configuration

  const DEFAULT_TRIGGER_FOR: nat := 10_000_000_000
  const DEFAULT_RECOVER_FOR: nat := 20_000_000_000

  /** 10 s and 20 s, in nanoseconds, unless the rule names a policy that exists. */
  function PolicyOf(config: Config, rule: RuleConfig): AlertPolicy {
    if rule.alertPolicy.Some? && rule.alertPolicy.value in config.alertPolicies
    then config.alertPolicies[rule.alertPolicy.value]
    else AlertPolicy(DEFAULT_TRIGGER_FOR, DEFAULT_RECOVER_FOR)
  }

  /** The place in the configuration that an alert comes from. */
  datatype Origin = Origin(rule: nat, buffer: BufferKey, metric: MetricType)

  predicate IsConfigured(config: Config, o: Origin) {
    && o.rule < |config.rules|
    && o.buffer in config.rules[o.rule].thresholds
    && config.rules[o.rule].thresholds[o.buffer].Get(o.metric).Some?
  }

  /** The alert that a place in the configuration asks for. */
  function BuiltFrom(config: Config, o: Origin): AlertView
    requires IsConfigured(config, o)
  {
    var rule := config.rules[o.rule];
    var pair := rule.thresholds[o.buffer].Get(o.metric).value;
    var policy := PolicyOf(config, rule);
    AlertView(
      AlertKey(rule.prefix, o.buffer, o.metric),
      Thresholds(
        pair.trigger, pair.RecoverValue(), policy.triggerFor, policy.recoverFor, config.mitigationUpdateInterval),
      Normal, 0, [])
  }

  /** Every configured metric of every rule, exactly once. */
  ghost predicate EachConfiguredOnce(config: Config, origins: seq<Origin>) {
    && (forall o :: o in origins <==> IsConfigured(config, o))
    && (forall i, j :: 0 <= i < j < |origins| ==> origins[i] != origins[j])
  }

  /** One new alert for every configured place, in some order. */
  ghost predicate BuiltAll(config: Config, origins: seq<Origin>, built: seq<AlertView>) {
    && |origins| == |built|
    && EachConfiguredOnce(config, origins)
    && (forall i :: 0 <= i < |built| ==> IsConfigured(config, origins[i]) && built[i] == BuiltFrom(config, origins[i]))
  }

  /** The durations of a rule: those of the policy it names, if there is one of that name, and
      10 s and 20 s otherwise. */
  ghost predicate DurationsConfigured(config: Config, rule: RuleConfig, th: Thresholds) {
    if rule.alertPolicy.Some? && rule.alertPolicy.value in config.alertPolicies then
      var policy := config.alertPolicies[rule.alertPolicy.value];
      th.triggerFor == policy.triggerFor && th.recoverFor == policy.recoverFor
    else
      th.triggerFor == 10_000_000_000 && th.recoverFor == 20_000_000_000
  }

  /** The two thresholds of a configured pair: without a recover threshold the trigger is used. */
  ghost predicate PairConfigured(pair: Option<ThresholdPair>, th: Thresholds) {
    pair.Some? && th.trigger == pair.value.trigger
    && match pair.value.recover { case Some(recover) => th.recover == recover case None => th.recover == th.trigger }
  }

  /** What the configuration says about an alert, field by field. */
  ghost predicate AsConfigured(config: Config, o: Origin, a: AlertView) {
    && o.rule < |config.rules| && o.buffer in config.rules[o.rule].thresholds
    && var rule := config.rules[o.rule];
       var metrics := rule.thresholds[o.buffer];
       && a.key == AlertKey(rule.prefix, o.buffer, o.metric)
       && (o.metric == Bps ==> PairConfigured(metrics.bps, a.th))
       && (o.metric == Pps ==> PairConfigured(metrics.pps, a.th))
       && (o.metric == Fps ==> PairConfigured(metrics.fps, a.th))
       && DurationsConfigured(config, rule, a.th)
       && a.th.updateInterval == config.mitigationUpdateInterval
  }

  /** After a reload every alert has the thresholds, durations and interval of its place in the
      new configuration, whether or not it took over a past; a key without a past starts in
      Normal with the nil id. */
  lemma ReloadedAsConfigured(
    config: Config, origins: seq<Origin>, built: seq<AlertView>, before: seq<AlertView>, i: nat)
    requires BuiltAll(config, origins, built) && i < |built|
    ensures AsConfigured(config, origins[i], ReloadViews(before, built)[i])
    ensures (forall a :: a in before ==> a.key != built[i].key) ==>
      ReloadViews(before, built)[i].state == Normal && ReloadViews(before, built)[i].id == 0
  {
    LastWithFacts(before, built[i].key);
  }

  /** No two rules with one prefix have a threshold for the same metric of the same buffer. */
  ghost predicate NoSharedMetric(config: Config) {
    forall o, p :: IsConfigured(config, o) && IsConfigured(config, p) && o.rule < p.rule
      && config.rules[o.rule].prefix == config.rules[p.rule].prefix
      ==> o.buffer != p.buffer || o.metric != p.metric
  }

  /** The key of an alert names the prefix of its rule, its buffer and its metric. */
  lemma KeyOfOrigin(config: Config, origins: seq<Origin>, built: seq<AlertView>, i: nat)
    requires BuiltAll(config, origins, built) && i < |built|
    ensures IsConfigured(config, origins[i])
    ensures built[i].key == AlertKey(config.rules[origins[i].rule].prefix, origins[i].buffer, origins[i].metric)
  {
  }

  lemma SharedMetricSharesKey(config: Config, origins: seq<Origin>, built: seq<AlertView>, o: Origin, p: Origin)
    requires BuiltAll(config, origins, built) && UniqueKeys(built)
    requires IsConfigured(config, o) && IsConfigured(config, p) && o.rule < p.rule
    requires config.rules[o.rule].prefix == config.rules[p.rule].prefix
    ensures o.buffer != p.buffer || o.metric != p.metric
  {
    assert o in origins && p in origins;
    var i :| 0 <= i < |origins| && origins[i] == o;
    var j :| 0 <= j < |origins| && origins[j] == p;
    KeyOfOrigin(config, origins, built, i);
    KeyOfOrigin(config, origins, built, j);
  }

  lemma SharedKeySharesMetric(config: Config, origins: seq<Origin>, built: seq<AlertView>, i: nat, j: nat)
    requires BuiltAll(config, origins, built) && i < j < |built| && built[i].key == built[j].key
    ensures !NoSharedMetric(config)
  {
    KeyOfOrigin(config, origins, built, i);
    KeyOfOrigin(config, origins, built, j);
    var o, p := origins[i], origins[j];
    assert o != p && o.rule != p.rule;
    if p.rule < o.rule {
      assert IsConfigured(config, p) && IsConfigured(config, o);
    }
  }

  lemma BuiltAreNew(config: Config, origins: seq<Origin>, built: seq<AlertView>)
    requires BuiltAll(config, origins, built)
    ensures AllNew(built)
  {
  }

  /** Keys are unique if and only if no two rules with one prefix share a metric. */
  lemma KeysAreUniqueIff(config: Config, origins: seq<Origin>, built: seq<AlertView>)
    requires BuiltAll(config, origins, built)
    ensures AllNew(built)
    ensures UniqueKeys(built) <==> NoSharedMetric(config)
  {
    BuiltAreNew(config, origins, built);
    if UniqueKeys(built) {
      forall o, p | IsConfigured(config, o) && IsConfigured(config, p) && o.rule < p.rule
        && config.rules[o.rule].prefix == config.rules[p.rule].prefix
        ensures o.buffer != p.buffer || o.metric != p.metric
      {
        SharedMetricSharesKey(config, origins, built, o, p);
      }
    } else {
      var i, j :| 0 <= i < j < |built| && built[i].key == built[j].key;
      SharedKeySharesMetric(config, origins, built, i, j);
    }
  }

  /** So whether the episodes of a configuration hold in every run can be read off its rules. */
  lemma ConfigurationKeepsEpisodesIff(config: Config, origins: seq<Origin>, built: seq<AlertView>)
    requires BuiltAll(config, origins, built)
    ensures AlwaysInEpisodes(built) <==> NoSharedMetric(config)
  {
    KeysAreUniqueIff(config, origins, built);
    EpisodesHoldIff(built);
  }

  /** Rules in order, the keys of each in any order, and the metrics Bps, Pps, Fps. */
  method CollectOrigins(config: Config) returns (origins: seq<Origin>)
    ensures EachConfiguredOnce(config, origins)
  {
    origins := [];
    for r := 0 to |config.rules|
      invariant forall o :: o in origins <==> IsConfigured(config, o) && o.rule < r
      invariant forall i, j :: 0 <= i < j < |origins| ==> origins[i] != origins[j]
    {
      var thresholds := config.rules[r].thresholds;
      var todo := thresholds.Keys;
      while todo != {}
        invariant todo <= thresholds.Keys
        invariant forall o :: o in origins <==>
          IsConfigured(config, o) && (o.rule < r || (o.rule == r && o.buffer !in todo))
        invariant forall i, j :: 0 <= i < j < |origins| ==> origins[i] != origins[j]
        decreases |todo|
      {
        var buffer :| buffer in todo;
        var more := AddMetricAlerts(config, r, buffer);
        origins := origins + more;
        todo := todo - {buffer};
      }
    }
  }

  /** One alert for each metric of a threshold that is set. */
  method AddMetricAlerts(config: Config, rule: nat, buffer: BufferKey) returns (origins: seq<Origin>)
    requires rule < |config.rules| && buffer in config.rules[rule].thresholds
    ensures forall o :: o in origins <==> IsConfigured(config, o) && o.rule == rule && o.buffer == buffer
    ensures forall i, j :: 0 <= i < j < |origins| ==> origins[i] != origins[j]
  {
    var thresholds := config.rules[rule].thresholds[buffer];
    origins := if thresholds.bps.Some? then [Origin(rule, buffer, Bps)] else [];
    origins := origins + if thresholds.pps.Some? then [Origin(rule, buffer, Pps)] else [];
    origins := origins + if thresholds.fps.Some? then [Origin(rule, buffer, Fps)] else [];
  }

  /** Allocate the alerts. */
  method BuildAlerts(config: Config) returns (alerts: seq<AlertInstance>, ghost origins: seq<Origin>)
    ensures fresh(alerts) && (forall i, j :: 0 <= i < j < |alerts| ==> alerts[i] != alerts[j])
    ensures |origins| == |alerts| && EachConfiguredOnce(config, origins)
    ensures forall i :: 0 <= i < |alerts| ==>
      alerts[i].Valid() && IsConfigured(config, origins[i]) && ViewOf(alerts[i]) == BuiltFrom(config, origins[i])
  {
    var places := CollectOrigins(config);
    origins := places;
    alerts := [];
    for i := 0 to |places|
      invariant |alerts| == i && fresh(alerts)
      invariant forall j, k :: 0 <= j < k < |alerts| ==> alerts[j] != alerts[k]
      invariant forall j :: 0 <= j < i ==>
        alerts[j].Valid() && IsConfigured(config, places[j]) && ViewOf(alerts[j]) == BuiltFrom(config, places[j])
    {
      assert places[i] in places;
      var alert := BuildAlert(config, places[i]);
      alerts := alerts + [alert];
    }
  }

  /** The alert of one place in the configuration. */
  method BuildAlert(config: Config, o: Origin) returns (alert: AlertInstance)
    requires IsConfigured(config, o)
    ensures fresh(alert) && alert.Valid() && ViewOf(alert) == BuiltFrom(config, o)
  {
    var rule := config.rules[o.rule];
    var pair := rule.thresholds[o.buffer].Get(o.metric).value;
    var policy := PolicyOf(config, rule);
    var th := Thresholds(
      pair.trigger, pair.RecoverValue(), policy.triggerFor, policy.recoverFor, config.mitigationUpdateInterval);
    alert := new AlertInstance(AlertKey(rule.prefix, o.buffer, o.metric), th);
  }

  /** Give a new alert the state and id that were remembered for its key. */
  method TakeOver(alert: AlertInstance, state: AlertState, id: nat, ghost past: AlertView)
    requires (state, id) == (past.state, past.id) && past.state == StateAfter(past.run)
    modifies alert
    ensures alert.Valid()
    ensures ViewOf(alert) == old(ViewOf(alert)).(state := past.state, id := past.id, run := past.run)
  {
    alert.state, alert.alertId := state, id;
    alert.run := past.run;
  }

  /** The first `i` alerts have been evaluated, the others have not. */
  ghost predicate EvaluatedUpTo(i: nat, before: seq<AlertView>, after: seq<AlertView>, input: TickInput) {
    && |after| == |before|
    && forall j :: 0 <= j < |before| ==>
         after[j] ==
           if j < i then Evaluated(before[j], input.rates(before[j].key), input.now, input.ids(j)) else before[j]
  }

  class AlertManager {
    var alerts: seq<AlertInstance>
    var nextId: nat

    ghost predicate Valid()
      reads this, alerts
    {
      && nextId >= 1
      && (forall i :: 0 <= i < |alerts| ==> alerts[i].Valid() && alerts[i].alertId < nextId)
      && (forall i, j :: 0 <= i < j < |alerts| ==> alerts[i] != alerts[j])
    }

    ghost function Views(): (views: seq<AlertView>)
      reads this, alerts
      ensures |views| == |alerts|
      ensures forall i :: 0 <= i < |alerts| ==> views[i] == ViewOf(alerts[i])
    {
      seq(|alerts|, i requires 0 <= i < |alerts| reads this, alerts => ViewOf(alerts[i]))
    }

    constructor ()
      ensures Valid() && alerts == [] && nextId == 1
    {
      alerts, nextId := [], 1;
    }

    /** Alerts and processor share no state. */
    ghost predicate Apart(processor: FlowProcessor)
      reads this, processor
    {
      this !in processor.Repr && forall a :: a in alerts ==> a !in processor.Repr
    }

    /** One tick over all alerts, against the captures as they stand at its start. */
    method Evaluate(snapshots: seq<RateSnapshot>, processor: FlowProcessor, now: nat, ghost start: TickStart)
      returns (payloads: seq<AlertPayload>, ghost drainedKeys: set<DrainKey>)
      requires Valid() && processor.Valid() && Apart(processor)
      requires start.prefixes == processor.Prefixes() && start.deques == processor.CapturedAll()
      modifies this`nextId, alerts, processor.Repr
      ensures Valid() && nextId == old(nextId) + |alerts|
      ensures Views() == TickViews(old(Views()), InputOf(snapshots, old(nextId), now))
      ensures NoticesOf(payloads) == TickNotices(old(Views()), InputOf(snapshots, old(nextId), now))
      ensures AllReported(payloads, old(Views()), InputOf(snapshots, old(nextId), now), start)
      ensures processor.Valid() && Apart(processor) && processor.Prefixes() == start.prefixes
      ensures drainedKeys == DrainedBy(old(Views()), InputOf(snapshots, old(nextId), now))
      ensures StartLess(start.prefixes, start.deques, processor.CapturedAll(), drainedKeys)
    {
      ghost var before := Views();
      var firstId := ReserveIds(processor);
      var drained;
      payloads, drained := EvaluateAll(firstId, snapshots, processor, now, before, start);
      drainedKeys := drained.Keys;
      LoggedAll(before, InputOf(snapshots, firstId, now), start, payloads, drainedKeys);
    }

    /** Every alert of the tick gets a number of its own. */
    method ReserveIds(ghost processor: FlowProcessor) returns (firstId: nat)
      requires Valid() && processor.Valid() && Apart(processor)
      modifies this`nextId
      ensures Valid() && processor.Valid() && Apart(processor)
      ensures firstId == old(nextId) && nextId == firstId + |alerts| && Views() == old(Views())
      ensures processor.Prefixes() == old(processor.Prefixes())
      ensures processor.CapturedAll() == old(processor.CapturedAll())
    {
      firstId := nextId;
      nextId := nextId + |alerts|;
    }

    /** A tick after `i` alerts: their states, and what they have sent and drained. */
    ghost predicate Running(
      i: nat, before: seq<AlertView>, input: TickInput, start: TickStart, payloads: seq<AlertPayload>,
      drained: map<DrainKey, seq<FlowRecord>>, processor: FlowProcessor)
      reads this, alerts, processor, processor.Repr
    {
      && Valid() && Apart(processor) && DrainState(processor, start, drained)
      && EvaluatedUpTo(i, before, Views(), input)
      && Logged(i, before, input, start, payloads, drained.Keys)
    }

    method EvaluateAll(
      firstId: nat, snapshots: seq<RateSnapshot>, processor: FlowProcessor, now: nat,
      ghost before: seq<AlertView>, ghost start: TickStart)
      returns (payloads: seq<AlertPayload>, drained: map<DrainKey, seq<FlowRecord>>)
      requires Valid() && processor.Valid()
      requires start.prefixes == processor.Prefixes() && start.deques == processor.CapturedAll()
      requires Apart(processor) && firstId + |alerts| <= nextId && before == Views()
      modifies alerts, processor.Repr
      ensures Running(|alerts|, before, InputOf(snapshots, firstId, now), start, payloads, drained, processor)
    {
      payloads, drained := [], map[];
      NothingDrainedYet(start.prefixes, start.deques);
      assert drained.Keys == {} && before[..0] == [];
      assert DrainState(processor, start, drained);
      for i := 0 to |alerts|
        invariant Running(i, before, InputOf(snapshots, firstId, now), start, payloads, drained, processor)
      {
        payloads, drained := EvaluateNext(i, firstId, snapshots, now, processor, payloads, drained, before, start);
      }
    }

    /** The alert at `i`: its rate, its evaluation and its payload. */
    method EvaluateNext(
      i: nat, firstId: nat, snapshots: seq<RateSnapshot>, now: nat, processor: FlowProcessor,
      payloads: seq<AlertPayload>, drained: map<DrainKey, seq<FlowRecord>>,
      ghost before: seq<AlertView>, ghost start: TickStart)
      returns (payloads': seq<AlertPayload>, drained': map<DrainKey, seq<FlowRecord>>)
      requires i < |alerts| && firstId + |alerts| <= nextId
      requires Running(i, before, InputOf(snapshots, firstId, now), start, payloads, drained, processor)
      modifies alerts[i], processor.Repr
      ensures Running(i + 1, before, InputOf(snapshots, firstId, now), start, payloads', drained', processor)
    {
      ghost var input := InputOf(snapshots, firstId, now);
      var rate := FindRate(snapshots, alerts[i].key);
      assert Views()[i] == before[i];
      var payload;
      payload, drained' := EvaluateOne(i, firstId + i, rate, now, processor, drained, input, start);
      LoggedPush(i, before, input, start, payloads, drained.Keys, payload);
      payloads' := payloads + if payload.Some? then [payload.value] else [];
    }

    /** One alert of the tick; the other alerts stay as they are. */
    method EvaluateOne(
      i: nat, id: nat, rate: real, now: nat, processor: FlowProcessor, drained: map<DrainKey, seq<FlowRecord>>,
      ghost input: TickInput, ghost start: TickStart)
      returns (payload: Option<AlertPayload>, drained': map<DrainKey, seq<FlowRecord>>)
      requires Valid() && DrainState(processor, start, drained) && Apart(processor) && i < |alerts| && id < nextId
      requires rate == input.rates(alerts[i].key) && now == input.now && id == input.ids(i)
      modifies alerts[i], processor.Repr
      ensures Valid() && Apart(processor) && DrainState(processor, start, drained')
      ensures Views() == old(Views())[i := Evaluated(old(Views())[i], rate, now, id)]
      ensures PayloadOf(payload, old(Views())[i], i, input, start)
      ensures drained'.Keys == drained.Keys + KeysDrainedBy(old(Views())[i], input)
    {
      payload, drained' := EvaluateAlert(alerts[i], id, rate, now, processor, drained, i, input, start);
    }

    /** The map from key to state and id; of several alerts with one key the last one stays. */
    method Remember() returns (previous: map<AlertKey, (AlertState, nat)>)
      requires Valid()
      ensures forall key :: key in previous <==> LastWith(Views(), key).Some?
      ensures forall key :: key in previous ==>
        previous[key] == (LastWith(Views(), key).value.state, LastWith(Views(), key).value.id)
    {
      previous := map[];
      ghost var views := Views();
      for i := 0 to |alerts|
        invariant forall key :: key in previous <==> LastWith(views[..i], key).Some?
        invariant forall key :: key in previous ==>
          previous[key] == (LastWith(views[..i], key).value.state, LastWith(views[..i], key).value.id)
      {
        assert views[..i + 1][..i] == views[..i];
        previous := previous[alerts[i].key := (alerts[i].state, alerts[i].alertId)];
      }
      assert views[..|alerts|] == views;
    }

    /** What is remembered of earlier alerts, for the keys not yet claimed. */
    ghost predicate Remembers(
      previous: map<AlertKey, (AlertState, nat)>, before: seq<AlertView>, built: seq<AlertView>, j: nat)
      requires j <= |built|
    {
      && (forall key :: key in previous <==>
            LastWith(before, key).Some? && forall i :: 0 <= i < j ==> built[i].key != key)
      && (forall key :: key in previous ==>
            previous[key] == (LastWith(before, key).value.state, LastWith(before, key).value.id))
    }

    /** What is left to remember once the alert at `j` has claimed its key. */
    lemma RemembersNext(
      previous: map<AlertKey, (AlertState, nat)>, rest: map<AlertKey, (AlertState, nat)>,
      before: seq<AlertView>, built: seq<AlertView>, j: nat)
      requires j < |built| && Remembers(previous, before, built, j)
      requires rest == map k | k in previous && k != built[j].key :: previous[k]
      ensures Remembers(rest, before, built, j + 1)
    {
    }

    /** A remembered key belongs to an old alert, and the new one is the first to claim it. */
    lemma ClaimIsCarryOver(
      previous: map<AlertKey, (AlertState, nat)>, before: seq<AlertView>, built: seq<AlertView>, j: nat)
      requires j < |built| && Remembers(previous, before, built, j)
      ensures built[j].key in previous <==> LastWith(before, built[j].key).Some? && FirstOfItsKey(built, j)
      ensures built[j].key in previous ==> LastWith(before, built[j].key).value in before
    {
      LastWithFacts(before, built[j].key);
    }

    /** The new alert at `j` claims what is remembered of its key. */
    method ClaimNext(
      j: nat, previous: map<AlertKey, (AlertState, nat)>, ghost before: seq<AlertView>, ghost built: seq<AlertView>)
      returns (rest: map<AlertKey, (AlertState, nat)>)
      requires Valid() && j < |alerts| == |built| && Remembers(previous, before, built, j)
      requires forall v :: v in before ==> v.state == StateAfter(v.run) && v.id < nextId
      requires Views()[j] == built[j]
      modifies alerts[j]
      ensures Valid() && Remembers(rest, before, built, j + 1)
      ensures Views() == old(Views())[j := CarriedOver(before, built, j)]
    {
      var key := alerts[j].key;
      rest := map k | k in previous && k != key :: previous[k];
      RemembersNext(previous, rest, before, built, j);
      ClaimIsCarryOver(previous, before, built, j);
      if key in previous {
        TakeOver(alerts[j], previous[key].0, previous[key].1, LastWith(before, key).value);
      }
    }

    method ClaimAll(
      remembered: map<AlertKey, (AlertState, nat)>, ghost before: seq<AlertView>, ghost built: seq<AlertView>)
      requires Valid() && Views() == built && Remembers(remembered, before, built, 0)
      requires forall v :: v in before ==> v.state == StateAfter(v.run) && v.id < nextId
      modifies alerts
      ensures Valid() && Views() == ReloadViews(before, built)
    {
      var previous := remembered;
      for j := 0 to |alerts|
        invariant Valid()
        invariant Remembers(previous, before, built, j)
        invariant forall i :: 0 <= i < j ==> Views()[i] == CarriedOver(before, built, i)
        invariant forall i :: j <= i < |alerts| ==> Views()[i] == built[i]
      {
        previous := ClaimNext(j, previous, before, built);
      }
    }

    /** Rebuild the alerts; state, id and run are carried over by key. */
    method ReloadConfig(config: Config) returns (ghost origins: seq<Origin>, ghost built: seq<AlertView>)
      requires Valid()
      modifies this`alerts
      ensures Valid() && fresh(alerts)
      ensures BuiltAll(config, origins, built)
      ensures Views() == ReloadViews(old(Views()), built)
    {
      ghost var before := Views();
      var previous := Remember();
      var newAlerts;
      newAlerts, origins := BuildAlerts(config);
      built := seq(|newAlerts|, i requires 0 <= i < |newAlerts| => BuiltFrom(config, origins[i]));
      alerts := newAlerts;
      ClaimAll(previous, before, built);
    }
  }
}
