/** The parts of the configuration that the processor and the alert manager read. */
module Config {
  import opened Network
  import opened Flows

  datatype BufferKey = BufferKey(protocol: Category, direction: Direction)

  datatype ThresholdPair = ThresholdPair(trigger: real, recover: Option<real>) {
    function RecoverValue(): real {
      if recover.Some? then recover.value else trigger
    }
  }

  datatype MetricType = Bps | Pps | Fps

  datatype MetricThresholds = MetricThresholds(
    bps: Option<ThresholdPair>, pps: Option<ThresholdPair>, fps: Option<ThresholdPair>)
  {
    function Get(metric: MetricType): Option<ThresholdPair> {
      match metric
      case Bps => bps
      case Pps => pps
      case Fps => fps
    }
  }

  /** Durations are whole numbers of the clock's smallest unit. */
  datatype AlertPolicy = AlertPolicy(triggerFor: nat, recoverFor: nat)

  /** The nested map protocol -> direction -> metrics, keyed by the pair. */
  datatype RuleConfig = RuleConfig(
    prefix: IpNet, alertPolicy: Option<string>, thresholds: map<BufferKey, MetricThresholds>)

  datatype Config = Config(
    windowSecs: nat, captureBufferSize: nat, mitigationUpdateInterval: nat,
    alertPolicies: map<string, AlertPolicy>, rules: seq<RuleConfig>)
}
