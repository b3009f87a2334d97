/** Runs of the alert manager as values: ticks and configuration reloads over a list of
    alerts, the notices each key sends, and the proof that they form episodes. */
module Episodes {
  import opened Network
  import opened Alert

  /** An alert as a value. */
  datatype AlertView = AlertView(key: AlertKey, th: Thresholds, state: AlertState, id: nat, run: seq<Evaluation>)

  /** A notice sent to the script. */
  datatype Notice = Notice(key: AlertKey, action: AlertAction, id: nat)

  /** One alert after an evaluation; firing takes the fresh id. */
  function Evaluated(a: AlertView, rate: real, now: nat, freshId: nat): AlertView {
    var (next, action) := Step(a.state, a.th, rate, now);
    AlertView(
      a.key, a.th, next, if action == Some(Fire) then freshId else a.id, a.run + [Evaluation(rate, now, a.th)])
  }

  function NoticeOf(a: AlertView, rate: real, now: nat, freshId: nat): Option<Notice> {
    var action := Step(a.state, a.th, rate, now).1;
    if action.Some? then Some(Notice(a.key, action.value, if action.value == Fire then freshId else a.id)) else None
  }

  /** What one tick sees and uses: the rate of each key, the clock, and an id for each alert
      in case it fires. */
  datatype TickInput = TickInput(rates: AlertKey -> real, ids: nat -> nat, now: nat)

  function TickViews(alerts: seq<AlertView>, input: TickInput): (after: seq<AlertView>)
    ensures |after| == |alerts|
    ensures forall i :: 0 <= i < |alerts| ==>
      after[i] == Evaluated(alerts[i], input.rates(alerts[i].key), input.now, input.ids(i))
  {
    seq(|alerts|, i requires 0 <= i < |alerts| =>
      Evaluated(alerts[i], input.rates(alerts[i].key), input.now, input.ids(i)))
  }

  /** The notices of one tick, in the order of the alerts. */
  function TickNotices(alerts: seq<AlertView>, input: TickInput): seq<Notice> {
    if alerts == [] then [] else
      var n := |alerts| - 1;
      var last := NoticeOf(alerts[n], input.rates(alerts[n].key), input.now, input.ids(n));
      TickNotices(alerts[..n], input) + if last.Some? then [last.value] else []
  }

  // ---------------------------------------------------------------- reloads

  function LastWith(alerts: seq<AlertView>, key: AlertKey): Option<AlertView> {
    if alerts == [] then None else
      var n := |alerts| - 1;
      if alerts[n].key == key then Some(alerts[n]) else LastWith(alerts[..n], key)
  }

  predicate FirstOfItsKey(alerts: seq<AlertView>, j: nat)
    requires j < |alerts|
  {
    forall i :: 0 <= i < j ==> alerts[i].key != alerts[j].key
  }

  /** A newly built alert takes over state, id and run of the last old alert with its key,
      unless an earlier new alert with that key already did. */
  function CarriedOver(before: seq<AlertView>, built: seq<AlertView>, j: nat): AlertView
    requires j < |built|
  {
    var previous := LastWith(before, built[j].key);
    if previous.Some? && FirstOfItsKey(built, j)
    then built[j].(state := previous.value.state, id := previous.value.id, run := previous.value.run)
    else built[j]
  }

  function ReloadViews(before: seq<AlertView>, built: seq<AlertView>): (after: seq<AlertView>)
    ensures |after| == |built|
    ensures forall j :: 0 <= j < |built| ==> after[j] == CarriedOver(before, built, j)
  {
    seq(|built|, j requires 0 <= j < |built| => CarriedOver(before, built, j))
  }

  ghost predicate UniqueKeys(alerts: seq<AlertView>) {
    forall i, j :: 0 <= i < j < |alerts| ==> alerts[i].key != alerts[j].key
  }

  /** Newly built alerts have no past. */
  ghost predicate AllNew(alerts: seq<AlertView>) {
    forall i :: 0 <= i < |alerts| ==> alerts[i].state == Normal && alerts[i].run == []
  }

  lemma {:induction false} LastWithFacts(alerts: seq<AlertView>, key: AlertKey)
    ensures LastWith(alerts, key).Some? ==>
      LastWith(alerts, key).value in alerts && LastWith(alerts, key).value.key == key
    ensures LastWith(alerts, key) == None <==> forall i :: 0 <= i < |alerts| ==> alerts[i].key != key
    ensures forall i :: 0 <= i < |alerts| && UniqueKeys(alerts) && alerts[i].key == key ==>
      LastWith(alerts, key) == Some(alerts[i])
  {
    if alerts != [] {
      var n := |alerts| - 1;
      LastWithFacts(alerts[..n], key);
      assert alerts == alerts[..n] + [alerts[n]];
      if UniqueKeys(alerts) {
        assert UniqueKeys(alerts[..n]);
        forall i | 0 <= i < |alerts| && alerts[i].key == key ensures LastWith(alerts, key) == Some(alerts[i]) {
          if i < n {
            assert alerts[..n][i] == alerts[i];
          }
        }
      }
    }
  }

  lemma {:induction false} LastWithIsLast(alerts: seq<AlertView>, key: AlertKey, i: nat)
    requires i < |alerts| && alerts[i].key == key && forall j :: i < j < |alerts| ==> alerts[j].key != key
    ensures LastWith(alerts, key) == Some(alerts[i])
  {
    var n := |alerts| - 1;
    if i < n {
      LastWithIsLast(alerts[..n], key, i);
    }
  }

  /** What a reload does, also with shared keys: the first new alert of a key takes over state, id
      and run of the last old one. */
  lemma FirstTakesOverLast(before: seq<AlertView>, built: seq<AlertView>, i: nat, j: nat)
    requires i < |before| && j < |built| && before[i].key == built[j].key
    requires forall k :: i < k < |before| ==> before[k].key != built[j].key
    requires forall k :: 0 <= k < j ==> built[k].key != built[j].key
    ensures ReloadViews(before, built)[j] ==
      built[j].(state := before[i].state, id := before[i].id, run := before[i].run)
  {
    LastWithIsLast(before, built[j].key, i);
  }

  /** All other new alerts stay as they were built. */
  lemma OthersStayNew(before: seq<AlertView>, built: seq<AlertView>, j: nat)
    requires j < |built|
    requires (forall i :: 0 <= i < |before| ==> before[i].key != built[j].key)
      || (exists k :: 0 <= k < j && built[k].key == built[j].key)
    ensures ReloadViews(before, built)[j] == built[j]
  {
    LastWithFacts(before, built[j].key);
  }

  predicate SamePast(a: AlertView, b: AlertView) {
    a.state == b.state && a.id == b.id && a.run == b.run
  }

  ghost predicate SameKeys(alerts: seq<AlertView>, built: seq<AlertView>) {
    |alerts| == |built| && forall i :: 0 <= i < |built| ==> alerts[i].key == built[i].key
  }

  /** The reload keeps every alert's state, id and run. */
  ghost predicate KeepsThePast(alerts: seq<AlertView>, built: seq<AlertView>)
    requires |alerts| == |built|
  {
    forall i :: 0 <= i < |alerts| ==> SamePast(ReloadViews(alerts, built)[i], alerts[i])
  }

  /** Reloads to the same keys in the same order keep the past of all alerts, whatever it is,
      if and only if no two alerts share a key. */
  lemma SameKeysReloadIsLosslessIff(built: seq<AlertView>)
    requires AllNew(built)
    ensures UniqueKeys(built) <==>
      forall alerts: seq<AlertView> :: SameKeys(alerts, built) ==> KeepsThePast(alerts, built)
  {
    if UniqueKeys(built) {
      forall alerts: seq<AlertView> | SameKeys(alerts, built) ensures KeepsThePast(alerts, built) {
        forall i | 0 <= i < |alerts| ensures SamePast(ReloadViews(alerts, built)[i], alerts[i]) {
          LastWithFacts(alerts, alerts[i].key);
        }
      }
    } else {
      var alerts := seq(|built|, i requires 0 <= i < |built| => built[i].(state := Firing(0)));
      assert SameKeys(alerts, built);
      var i, j :| 0 <= i < j < |built| && built[i].key == built[j].key;
      assert !FirstOfItsKey(built, j);
      assert !SamePast(ReloadViews(alerts, built)[j], alerts[j]);
    }
  }

  // ---------------------------------------------------------------- episodes

  datatype Episode = Broken | Closed | Open(id: nat)

  /** Fire opens an episode; Update and Resolve need an open one and carry its id. */
  function Advance(e: Episode, action: AlertAction, id: nat): Episode {
    match (e, action)
    case (Closed, Fire) => Open(id)
    case (Open(x), Update) => if x == id then e else Broken
    case (Open(x), Resolve) => if x == id then Closed else Broken
    case _ => Broken
  }

  /** Where a key's notices stand: not Broken means a prefix of (Fire Update* Resolve)*, with
      one id per episode. */
  function Scan(log: seq<Notice>): Episode {
    if log == [] then Closed else
      var n := |log| - 1;
      Advance(Scan(log[..n]), log[n].action, log[n].id)
  }

  function EpisodeOf(a: AlertView): Episode {
    if a.state.Firing? || a.state.Recovering? then Open(a.id) else Closed
  }

  function ForKey(notices: seq<Notice>, key: AlertKey): seq<Notice> {
    if notices == [] then [] else
      var n := |notices| - 1;
      ForKey(notices[..n], key) + if notices[n].key == key then [notices[n]] else []
  }

  /** The notices of every key since it was configured. */
  type Logs = map<AlertKey, seq<Notice>>

  function LogsAfterTick(logs: Logs, notices: seq<Notice>): Logs {
    map key | key in logs :: logs[key] + ForKey(notices, key)
  }

  function LogsAfterReload(logs: Logs, alerts: seq<AlertView>): Logs {
    map i | 0 <= i < |alerts| :: alerts[i].key := if alerts[i].key in logs then logs[alerts[i].key] else []
  }

  /** The alert's log is well-formed and its episode is open exactly in Firing and Recovering,
      under the alert's id; its state is what its run of evaluations leads to. */
  ghost predicate Fits(a: AlertView, logs: Logs) {
    && a.key in logs
    && Scan(logs[a.key]) == EpisodeOf(a)
    && a.state == StateAfter(a.run)
  }

  ghost predicate EpisodesHold(alerts: seq<AlertView>, logs: Logs) {
    && UniqueKeys(alerts)
    && (forall i :: 0 <= i < |alerts| ==> Fits(alerts[i], logs))
    && (forall key :: key in logs ==> exists i :: 0 <= i < |alerts| && alerts[i].key == key)
  }

  lemma OneStepAdvances(a: AlertView, rate: real, now: nat, freshId: nat)
    ensures var notice := NoticeOf(a, rate, now, freshId);
      EpisodeOf(Evaluated(a, rate, now, freshId)) ==
        if notice.Some? then Advance(EpisodeOf(a), notice.value.action, notice.value.id) else EpisodeOf(a)
  {
  }

  lemma ScanPush(log: seq<Notice>, more: seq<Notice>)
    requires |more| <= 1
    ensures Scan(log + more) == if more == [] then Scan(log) else Advance(Scan(log), more[0].action, more[0].id)
  {
    if more == [] {
      assert log + more == log;
    } else {
      assert (log + more)[..|log|] == log;
    }
  }

  lemma ForKeyPush(notices: seq<Notice>, more: seq<Notice>, key: AlertKey)
    requires |more| <= 1
    ensures ForKey(notices + more, key) == ForKey(notices, key) + if more != [] && more[0].key == key then more else []
  {
    if more == [] {
      assert notices + more == notices;
    } else {
      assert (notices + more)[..|notices|] == notices;
    }
  }

  /** What alert `i` sends in a tick, as a list. */
  function Sent(a: AlertView, i: nat, input: TickInput): seq<Notice> {
    var notice := NoticeOf(a, input.rates(a.key), input.now, input.ids(i));
    if notice.Some? then [notice.value] else []
  }

  lemma LastSent(alerts: seq<AlertView>, input: TickInput, key: AlertKey)
    requires alerts != []
    ensures var n := |alerts| - 1;
      ForKey(TickNotices(alerts, input), key) ==
        ForKey(TickNotices(alerts[..n], input), key) + if alerts[n].key == key then Sent(alerts[n], n, input) else []
  {
    var n := |alerts| - 1;
    ForKeyPush(TickNotices(alerts[..n], input), Sent(alerts[n], n, input), key);
  }

  lemma {:induction false} NoNoticesForKey(alerts: seq<AlertView>, input: TickInput, key: AlertKey)
    requires forall i :: 0 <= i < |alerts| ==> alerts[i].key != key
    ensures ForKey(TickNotices(alerts, input), key) == []
  {
    if alerts != [] {
      LastSent(alerts, input, key);
      NoNoticesForKey(alerts[..|alerts| - 1], input, key);
    }
  }

  /** With unique keys, the notices of a tick for one key are those of its one alert. */
  lemma {:induction false} NoticesForKey(alerts: seq<AlertView>, input: TickInput, i: nat)
    requires UniqueKeys(alerts) && i < |alerts|
    ensures ForKey(TickNotices(alerts, input), alerts[i].key) == Sent(alerts[i], i, input)
  {
    var n := |alerts| - 1;
    LastSent(alerts, input, alerts[i].key);
    if i < n {
      NoticesForKey(alerts[..n], input, i);
    } else {
      NoNoticesForKey(alerts[..n], input, alerts[n].key);
    }
  }

  lemma TickKeepsEpisodes(alerts: seq<AlertView>, logs: Logs, input: TickInput)
    requires EpisodesHold(alerts, logs)
    ensures EpisodesHold(TickViews(alerts, input), LogsAfterTick(logs, TickNotices(alerts, input)))
  {
    var after, logs' := TickViews(alerts, input), LogsAfterTick(logs, TickNotices(alerts, input));
    forall i | 0 <= i < |after| ensures Fits(after[i], logs') {
      var key := alerts[i].key;
      assert Fits(alerts[i], logs);
      NoticesForKey(alerts, input, i);
      OneStepAdvances(alerts[i], input.rates(key), input.now, input.ids(i));
      ScanPush(logs[key], ForKey(TickNotices(alerts, input), key));
      assert after[i].run[..|after[i].run| - 1] == alerts[i].run;
    }
    forall key | key in logs' ensures exists i :: 0 <= i < |after| && after[i].key == key {
      var i :| 0 <= i < |alerts| && alerts[i].key == key;
      assert after[i].key == key;
    }
  }

  /** A new alert takes over the past of its key, or starts with an empty log. */
  lemma CarriedOverFits(alerts: seq<AlertView>, logs: Logs, built: seq<AlertView>, j: nat)
    requires EpisodesHold(alerts, logs) && UniqueKeys(built) && AllNew(built) && j < |built|
    ensures Fits(CarriedOver(alerts, built, j), LogsAfterReload(logs, built))
  {
    var key, logs' := built[j].key, LogsAfterReload(logs, built);
    assert key in logs' && logs'[key] == if key in logs then logs[key] else [];
    LastWithFacts(alerts, key);
    assert FirstOfItsKey(built, j);
    var previous := LastWith(alerts, key);
    if previous.Some? {
      var i :| 0 <= i < |alerts| && alerts[i] == previous.value;
      assert Fits(alerts[i], logs);
    } else {
      assert key !in logs;
    }
  }

  lemma ReloadKeepsEpisodes(alerts: seq<AlertView>, logs: Logs, built: seq<AlertView>)
    requires EpisodesHold(alerts, logs) && UniqueKeys(built) && AllNew(built)
    ensures EpisodesHold(ReloadViews(alerts, built), LogsAfterReload(logs, built))
  {
    var after, logs' := ReloadViews(alerts, built), LogsAfterReload(logs, built);
    forall j | 0 <= j < |after| ensures Fits(after[j], logs') {
      CarriedOverFits(alerts, logs, built, j);
    }
    ReloadKeys(alerts, logs, built);
  }

  lemma ReloadKeys(alerts: seq<AlertView>, logs: Logs, built: seq<AlertView>)
    requires UniqueKeys(built)
    ensures UniqueKeys(ReloadViews(alerts, built))
    ensures forall key :: key in LogsAfterReload(logs, built) ==>
      exists i :: 0 <= i < |built| && ReloadViews(alerts, built)[i].key == key
  {
    var after := ReloadViews(alerts, built);
    forall j | 0 <= j < |built| ensures after[j].key == built[j].key {
    }
    forall key | key in LogsAfterReload(logs, built) ensures exists i :: 0 <= i < |built| && after[i].key == key {
      var i :| 0 <= i < |built| && built[i].key == key;
      assert after[i].key == key;
    }
  }

  /** A notice is justified by the alert's own run: a Fire ends an unbroken stretch over the
      trigger that spans the trigger time, a Resolve one under the recover threshold. */
  lemma NoticeIsJustified(a: AlertView, rate: real, now: nat, freshId: nat)
    requires a.state == StateAfter(a.run) && NoticeOf(a, rate, now, freshId).Some?
    ensures var run, n := Evaluated(a, rate, now, freshId).run, |a.run|;
      var action := NoticeOf(a, rate, now, freshId).value.action;
      && (action == Fire ==>
            exists s: nat :: PendingSince(run, s, n)
              && rate >= a.th.trigger && (a.th.triggerFor == 0 || now >= run[s].now + a.th.triggerFor))
      && (action == Resolve ==>
            exists s: nat :: RecoveringSince(run, s, n)
              && rate < a.th.recover && (a.th.recoverFor == 0 || now >= run[s].now + a.th.recoverFor))
  {
    var run, n := Evaluated(a, rate, now, freshId).run, |a.run|;
    assert run[..n] == a.run;
    FireIff(run, n);
    ResolveIff(run, n);
  }

  // ---------------------------------------------------------------- whole runs

  datatype ManagerStep = Tick(input: TickInput) | Reload(built: seq<AlertView>)

  function AlertsAfter(steps: seq<ManagerStep>): seq<AlertView> {
    if steps == [] then [] else
      var before := AlertsAfter(steps[..|steps| - 1]);
      match steps[|steps| - 1]
      case Tick(input) => TickViews(before, input)
      case Reload(built) => ReloadViews(before, built)
  }

  function LogsAfter(steps: seq<ManagerStep>): Logs {
    if steps == [] then map[] else
      var init := steps[..|steps| - 1];
      match steps[|steps| - 1]
      case Tick(input) => LogsAfterTick(LogsAfter(init), TickNotices(AlertsAfter(init), input))
      case Reload(built) => LogsAfterReload(LogsAfter(init), built)
  }

  /** Over every interleaving of ticks and reloads with unique keys, each configured key's
      notices form episodes with one id each, and its alert knows which one is open. */
  lemma {:induction false} EpisodesHoldOverRuns(steps: seq<ManagerStep>)
    requires forall i :: 0 <= i < |steps| && steps[i].Reload? ==> UniqueKeys(steps[i].built) && AllNew(steps[i].built)
    ensures EpisodesHold(AlertsAfter(steps), LogsAfter(steps))
  {
    if steps != [] {
      var n := |steps| - 1;
      EpisodesHoldOverRuns(steps[..n]);
      match steps[n]
      case Tick(input) =>
        TickKeepsEpisodes(AlertsAfter(steps[..n]), LogsAfter(steps[..n]), input);
      case Reload(built) =>
        ReloadKeepsEpisodes(AlertsAfter(steps[..n]), LogsAfter(steps[..n]), built);
    }
  }

  /** The time of the last tick. */
  function LastTick(steps: seq<ManagerStep>): nat {
    if steps == [] then 0 else
      match steps[|steps| - 1]
      case Tick(input) => input.now
      case Reload(_) => LastTick(steps[..|steps| - 1])
  }

  ghost predicate TicksAdvance(steps: seq<ManagerStep>) {
    steps == [] ||
      var n := |steps| - 1;
      TicksAdvance(steps[..n]) && LastTick(steps[..n]) <= LastTick(steps)
  }

  /** With a clock that does not go back, so do the runs of all alerts, across reloads: what is
      stated about single runs holds for every alert of the manager. */
  lemma {:induction false} RunsAdvance(steps: seq<ManagerStep>)
    requires TicksAdvance(steps)
    requires forall i :: 0 <= i < |steps| && steps[i].Reload? ==> AllNew(steps[i].built)
    ensures forall a :: a in AlertsAfter(steps) ==> ClockAdvances(a.run) && LastNow(a.run) <= LastTick(steps)
  {
    if steps != [] {
      var n := |steps| - 1;
      var before := AlertsAfter(steps[..n]);
      RunsAdvance(steps[..n]);
      forall a | a in AlertsAfter(steps) ensures ClockAdvances(a.run) && LastNow(a.run) <= LastTick(steps) {
        var i :| 0 <= i < |AlertsAfter(steps)| && AlertsAfter(steps)[i] == a;
        if steps[n].Reload? {
          LastWithFacts(before, steps[n].built[i].key);
        } else {
          assert before[i] in before;
          RunPush(before[i].run, Evaluation(steps[n].input.rates(before[i].key), steps[n].input.now, before[i].th));
        }
      }
    }
  }

  lemma RunPush(run: seq<Evaluation>, e: Evaluation)
    requires ClockAdvances(run) && LastNow(run) <= e.now
    ensures ClockAdvances(run + [e]) && LastNow(run + [e]) == e.now
  {
  }

  // ---------------------------------------------------------------- shared keys

  ghost predicate InEpisodes(logs: Logs) {
    forall key :: key in logs ==> Scan(logs[key]) != Broken
  }

  ghost predicate OnlyReloads(steps: seq<ManagerStep>, built: seq<AlertView>) {
    forall i :: 0 <= i < |steps| && steps[i].Reload? ==> steps[i].built == built
  }

  function HighestTrigger(alerts: seq<AlertView>): (t: real)
    ensures forall i :: 0 <= i < |alerts| ==> alerts[i].th.trigger <= t
  {
    if alerts == [] then 0.0 else
      var n := |alerts| - 1;
      var t := HighestTrigger(alerts[..n]);
      assert forall i :: 0 <= i < n ==> alerts[..n][i] == alerts[i];
      if alerts[n].th.trigger > t then alerts[n].th.trigger else t
  }

  function LongestTrigger(alerts: seq<AlertView>): (t: nat)
    ensures forall i :: 0 <= i < |alerts| ==> alerts[i].th.triggerFor <= t
  {
    if alerts == [] then 0 else
      var n := |alerts| - 1;
      var t := LongestTrigger(alerts[..n]);
      assert forall i :: 0 <= i < n ==> alerts[..n][i] == alerts[i];
      if alerts[n].th.triggerFor > t then alerts[n].th.triggerFor else t
  }

  /** Every alert with this key is Pending since 0 and fires at this tick. */
  ghost predicate DueFor(alerts: seq<AlertView>, input: TickInput, key: AlertKey) {
    forall i :: 0 <= i < |alerts| && alerts[i].key == key ==>
      && alerts[i].state == Pending(0) && alerts[i].th.trigger <= input.rates(key)
      && alerts[i].th.triggerFor <= input.now
  }

  function KeyCount(alerts: seq<AlertView>, key: AlertKey): nat {
    if alerts == [] then 0 else
      var n := |alerts| - 1;
      KeyCount(alerts[..n], key) + if alerts[n].key == key then 1 else 0
  }

  lemma {:induction false} KeyCountOfTwo(alerts: seq<AlertView>, i: nat, j: nat)
    requires i < j < |alerts| && alerts[i].key == alerts[j].key
    ensures KeyCount(alerts, alerts[i].key) >= 2
  {
    var n, key := |alerts| - 1, alerts[i].key;
    if j < n {
      KeyCountOfTwo(alerts[..n], i, j);
    } else {
      KeyCountOfOne(alerts[..n], i);
    }
  }

  lemma {:induction false} KeyCountOfOne(alerts: seq<AlertView>, i: nat)
    requires i < |alerts|
    ensures KeyCount(alerts, alerts[i].key) >= 1
  {
    var n := |alerts| - 1;
    if i < n {
      KeyCountOfOne(alerts[..n], i);
    }
  }

  /** All alerts with the key fire, each with a notice of its own. */
  lemma {:induction false} KeyFires(alerts: seq<AlertView>, input: TickInput, key: AlertKey)
    requires DueFor(alerts, input, key)
    ensures var fires := ForKey(TickNotices(alerts, input), key);
      |fires| == KeyCount(alerts, key) && forall k :: 0 <= k < |fires| ==> fires[k].action == Fire
  {
    if alerts != [] {
      var n := |alerts| - 1;
      forall i | 0 <= i < n ensures alerts[..n][i] == alerts[i] {
      }
      KeyFires(alerts[..n], input, key);
      LastSent(alerts, input, key);
    }
  }

  /** Two Fires in a row break the order, whatever came before. */
  lemma {:induction false} FiresBreak(log: seq<Notice>, fires: seq<Notice>)
    requires |fires| >= 2 && forall k :: 0 <= k < |fires| ==> fires[k].action == Fire
    ensures Scan(log + fires) == Broken
  {
    var n := |fires| - 1;
    assert log + fires == (log + fires[..n]) + [fires[n]];
    ScanPush(log + fires[..n], [fires[n]]);
    if n >= 2 {
      FiresBreak(log, fires[..n]);
    } else {
      assert log + fires[..1] == log + [fires[0]];
      ScanPush(log, [fires[0]]);
    }
  }

  ghost predicate ReloadAndTwoTicks(steps: seq<ManagerStep>, built: seq<AlertView>) {
    |steps| == 3 && steps[0] == Reload(built) && steps[1].Tick? && steps[2].Tick?
  }

  /** If two alerts share a key, some run of one reload and two ticks breaks the order of that
      key's notices: all its alerts become Pending in the first tick and fire in the second. */
  lemma DuplicatesBreakSomeRun(built: seq<AlertView>) returns (steps: seq<ManagerStep>, key: AlertKey)
    requires AllNew(built) && !UniqueKeys(built)
    ensures ReloadAndTwoTicks(steps, built)
    ensures key in LogsAfter(steps) && Scan(LogsAfter(steps)[key]) == Broken
    ensures OnlyReloads(steps, built) && !InEpisodes(LogsAfter(steps))
  {
    var i, j :| 0 <= i < j < |built| && built[i].key == built[j].key;
    key := built[i].key;
    var rate := HighestTrigger(built);
    var first := TickInput(k => rate, (n: nat) => n, 0);
    var second := TickInput(k => rate, (n: nat) => n, LongestTrigger(built));
    assert SoonDue(built, first, second, key);
    var two := [Reload(built), Tick(first)];
    steps := two + [Tick(second)];
    OneReload(built, two, first, second);
    TwoTicksBreak(built, two, first, second, i, j);
  }

  /** The key's rate is over all its alerts' triggers in two ticks, the second after all their
      trigger times. */
  ghost predicate SoonDue(built: seq<AlertView>, first: TickInput, second: TickInput, key: AlertKey) {
    && first.now == 0
    && forall i :: 0 <= i < |built| && built[i].key == key ==>
         && built[i].th.trigger <= first.rates(key)
         && built[i].th.trigger <= second.rates(key)
         && built[i].th.triggerFor <= second.now
  }

  lemma TwoTicksBreak(
    built: seq<AlertView>, two: seq<ManagerStep>, first: TickInput, second: TickInput, i: nat, j: nat)
    requires AllNew(built) && i < j < |built| && built[i].key == built[j].key
    requires SoonDue(built, first, second, built[i].key) && two == [Reload(built), Tick(first)]
    ensures var logs := LogsAfter(two + [Tick(second)]);
      && built[i].key in logs && Scan(logs[built[i].key]) == Broken && !InEpisodes(logs)
  {
    FirstTickMakesPending(built, first, second, two, built[i].key);
    FiringBreaks(AlertsAfter(two), LogsAfter(two), second, i, j, built[i].key);
    LogsPush(two, second);
    BrokenKey(LogsAfter(two + [Tick(second)]), built[i].key);
  }

  lemma LogsPush(steps: seq<ManagerStep>, input: TickInput)
    ensures LogsAfter(steps + [Tick(input)]) == LogsAfterTick(LogsAfter(steps), TickNotices(AlertsAfter(steps), input))
  {
    assert (steps + [Tick(input)])[..|steps|] == steps;
  }

  /** A tick in which two alerts with one key fire. */
  lemma FiringBreaks(pending: seq<AlertView>, logs: Logs, input: TickInput, i: nat, j: nat, key: AlertKey)
    requires i < j < |pending| && pending[i].key == pending[j].key == key && key in logs
    requires DueFor(pending, input, key)
    ensures key in LogsAfterTick(logs, TickNotices(pending, input))
    ensures Scan(LogsAfterTick(logs, TickNotices(pending, input))[key]) == Broken
  {
    KeyFires(pending, input, key);
    KeyCountOfTwo(pending, i, j);
    FiresBreak(logs[key], ForKey(TickNotices(pending, input), key));
  }

  lemma OneReload(built: seq<AlertView>, two: seq<ManagerStep>, first: TickInput, second: TickInput)
    requires two == [Reload(built), Tick(first)]
    ensures ReloadAndTwoTicks(two + [Tick(second)], built) && OnlyReloads(two + [Tick(second)], built)
  {
  }

  lemma BrokenKey(logs: Logs, key: AlertKey)
    requires key in logs && Scan(logs[key]) == Broken
    ensures !InEpisodes(logs)
  {
  }

  lemma FirstTickMakesPending(
    built: seq<AlertView>, input: TickInput, next: TickInput, steps: seq<ManagerStep>, key: AlertKey)
    requires AllNew(built) && SoonDue(built, input, next, key) && steps == [Reload(built), Tick(input)]
    ensures |AlertsAfter(steps)| == |built| && DueFor(AlertsAfter(steps), next, key)
    ensures forall i :: 0 <= i < |built| ==>
      built[i].key in LogsAfter(steps) && AlertsAfter(steps)[i].key == built[i].key
  {
    assert steps[..1] == [Reload(built)] && steps[..1][..0] == [];
    assert AlertsAfter([]) == [] && AlertsAfter(steps[..1]) == ReloadViews([], built);
    forall i | 0 <= i < |built| ensures ReloadViews([], built)[i] == built[i] {
      assert LastWith([], built[i].key) == None;
    }
    assert LogsAfter(steps[..1]) == LogsAfterReload(LogsAfter([]), built);
  }

  /** In every run of one configuration, with any ticks and any number of reloads of it, the
      notices of every key form episodes. */
  ghost predicate AlwaysInEpisodes(built: seq<AlertView>) {
    forall steps: seq<ManagerStep> {:trigger OnlyReloads(steps, built)} ::
      OnlyReloads(steps, built) ==> InEpisodes(LogsAfter(steps))
  }

  lemma UniqueKeysKeepEpisodes(built: seq<AlertView>, steps: seq<ManagerStep>)
    requires AllNew(built) && UniqueKeys(built) && OnlyReloads(steps, built)
    ensures InEpisodes(LogsAfter(steps))
  {
    EpisodesHoldOverRuns(steps);
    HoldingIsUnbroken(AlertsAfter(steps), LogsAfter(steps));
  }

  lemma SharedKeysBreakEpisodes(built: seq<AlertView>)
    requires AllNew(built) && !UniqueKeys(built)
    ensures !AlwaysInEpisodes(built)
  {
    var steps, key := DuplicatesBreakSomeRun(built);
  }

  /** Every run of a configuration keeps the episodes if and only if its keys are unique. */
  lemma EpisodesHoldIff(built: seq<AlertView>)
    requires AllNew(built)
    ensures UniqueKeys(built) <==> AlwaysInEpisodes(built)
  {
    if UniqueKeys(built) {
      forall steps: seq<ManagerStep> {:trigger OnlyReloads(steps, built)} | OnlyReloads(steps, built)
        ensures InEpisodes(LogsAfter(steps))
      {
        UniqueKeysKeepEpisodes(built, steps);
      }
    } else {
      SharedKeysBreakEpisodes(built);
    }
  }

  lemma HoldingIsUnbroken(alerts: seq<AlertView>, logs: Logs)
    requires EpisodesHold(alerts, logs)
    ensures InEpisodes(logs)
  {
    forall key | key in logs ensures Scan(logs[key]) != Broken {
      var i :| 0 <= i < |alerts| && alerts[i].key == key;
      assert Fits(alerts[i], logs);
    }
  }
}
