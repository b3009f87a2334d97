/** One alert: a four-state timed machine with hysteresis, and what every run of it keeps.
    A run is a list of evaluations, each with the thresholds that were configured at the time,
    so that a run may cross configuration reloads. */
module Alert {
  import opened Network
  import opened Config

  /** Instants are readings of a clock. */
  datatype AlertState = Normal | Pending(since: nat) | Firing(lastUpdate: nat) | Recovering(since: nat)

  datatype AlertAction = Fire | Update | Resolve

  datatype Thresholds = Thresholds(
    trigger: real, recover: real, triggerFor: nat, recoverFor: nat, updateInterval: nat)

  /** `Instant::duration_since` saturates at zero. */
  function Elapsed(now: nat, since: nat): nat {
    if now >= since then now - since else 0
  }

  /** One evaluation of the machine: the next state and the action, if any. */
  function Step(s: AlertState, th: Thresholds, rate: real, now: nat): (AlertState, Option<AlertAction>) {
    match s
    case Normal => (if rate >= th.trigger then Pending(now) else Normal, None)
    case Pending(since) =>
      if rate < th.trigger then (Normal, None)
      else if Elapsed(now, since) >= th.triggerFor then (Firing(now), Some(Fire))
      else (s, None)
    case Firing(lastUpdate) =>
      if rate < th.recover then (Recovering(now), None)
      else if Elapsed(now, lastUpdate) >= th.updateInterval then (Firing(now), Some(Update))
      else (s, None)
    case Recovering(since) =>
      if rate >= th.recover then (Firing(now), None)
      else if Elapsed(now, since) >= th.recoverFor then (Normal, Some(Resolve))
      else (s, None)
  }

  // ---------------------------------------------------------------- runs

  datatype Evaluation = Evaluation(rate: real, now: nat, th: Thresholds)

  /** The state after a run that starts from Normal. */
  function StateAfter(run: seq<Evaluation>): AlertState {
    if run == [] then Normal else
      var e := run[|run| - 1];
      Step(StateAfter(run[..|run| - 1]), e.th, e.rate, e.now).0
  }

  /** The action of evaluation `i`. */
  function ActionAt(run: seq<Evaluation>, i: nat): Option<AlertAction>
    requires i < |run|
  {
    Step(StateAfter(run[..i]), run[i].th, run[i].rate, run[i].now).1
  }

  ghost predicate ClockAdvances(run: seq<Evaluation>) {
    forall i, j :: 0 <= i <= j < |run| ==> run[i].now <= run[j].now
  }

  lemma StateStep(run: seq<Evaluation>, i: nat)
    requires i < |run|
    ensures StateAfter(run[..i + 1]) == Step(StateAfter(run[..i]), run[i].th, run[i].rate, run[i].now).0
  {
    assert run[..i + 1][..i] == run[..i];
  }

  // ---------------------------------------------------------------- hysteresis

  /** Every evaluation from `s` to `i` is at or above its trigger threshold. */
  ghost predicate OverTrigger(run: seq<Evaluation>, s: nat, i: nat)
    requires i <= |run|
  {
    forall k :: s <= k < i ==> run[k].rate >= run[k].th.trigger
  }

  ghost predicate UnderRecover(run: seq<Evaluation>, s: nat, i: nat)
    requires i <= |run|
  {
    forall k :: s <= k < i ==> run[k].rate < run[k].th.recover
  }

  /** Since `s` the pending time has not been served at any evaluation before `i`. */
  ghost predicate NotYetTriggered(run: seq<Evaluation>, s: nat, i: nat)
    requires s < i <= |run|
  {
    forall k :: s < k < i ==> run[k].th.triggerFor > 0 && run[k].now < run[s].now + run[k].th.triggerFor
  }

  ghost predicate NotYetRecovered(run: seq<Evaluation>, s: nat, i: nat)
    requires s < i <= |run|
  {
    forall k :: s < k < i ==> run[k].th.recoverFor > 0 && run[k].now < run[s].now + run[k].th.recoverFor
  }

  /** What being Pending before evaluation `i` means: a stretch over the trigger that began
      at `s` from Normal and is still too short. */
  ghost predicate PendingSince(run: seq<Evaluation>, s: nat, i: nat)
    requires i <= |run|
  {
    s < i && StateAfter(run[..s]) == Normal && OverTrigger(run, s, i) && NotYetTriggered(run, s, i)
  }

  ghost predicate RecoveringSince(run: seq<Evaluation>, s: nat, i: nat)
    requires i <= |run|
  {
    s < i && StateAfter(run[..s]).Firing? && UnderRecover(run, s, i) && NotYetRecovered(run, s, i)
  }

  lemma PendingStep(run: seq<Evaluation>, s: nat, n: nat)
    requires s < n < |run|
    ensures PendingSince(run, s, n + 1) <==>
      && PendingSince(run, s, n) && run[n].rate >= run[n].th.trigger
      && run[n].th.triggerFor > 0 && run[n].now < run[s].now + run[n].th.triggerFor
  {
  }

  lemma {:induction false} PendingIff(run: seq<Evaluation>, i: nat)
    requires i <= |run|
    ensures StateAfter(run[..i]).Pending? ==>
      exists s: nat :: PendingSince(run, s, i) && StateAfter(run[..i]).since == run[s].now
    ensures forall s: nat :: PendingSince(run, s, i) ==> StateAfter(run[..i]) == Pending(run[s].now)
  {
    if i > 0 {
      var n := i - 1;
      PendingIff(run, n);
      StateStep(run, n);
      if StateAfter(run[..i]).Pending? {
        if StateAfter(run[..n]) == Normal {
          assert PendingSince(run, n, i);
        } else {
          var s: nat :| PendingSince(run, s, n) && StateAfter(run[..n]).since == run[s].now;
          PendingStep(run, s, n);
        }
      }
      forall s: nat | PendingSince(run, s, i) ensures StateAfter(run[..i]) == Pending(run[s].now) {
        if s < n {
          PendingStep(run, s, n);
        }
      }
    }
  }

  lemma RecoveringStep(run: seq<Evaluation>, s: nat, n: nat)
    requires s < n < |run|
    ensures RecoveringSince(run, s, n + 1) <==>
      && RecoveringSince(run, s, n) && run[n].rate < run[n].th.recover
      && run[n].th.recoverFor > 0 && run[n].now < run[s].now + run[n].th.recoverFor
  {
  }

  lemma {:induction false} RecoveringIff(run: seq<Evaluation>, i: nat)
    requires i <= |run|
    ensures StateAfter(run[..i]).Recovering? ==>
      exists s: nat :: RecoveringSince(run, s, i) && StateAfter(run[..i]).since == run[s].now
    ensures forall s: nat :: RecoveringSince(run, s, i) ==> StateAfter(run[..i]) == Recovering(run[s].now)
  {
    if i > 0 {
      var n := i - 1;
      RecoveringIff(run, n);
      StateStep(run, n);
      if StateAfter(run[..i]).Recovering? {
        if StateAfter(run[..n]).Firing? {
          assert RecoveringSince(run, n, i);
        } else {
          var s: nat :| RecoveringSince(run, s, n) && StateAfter(run[..n]).since == run[s].now;
          RecoveringStep(run, s, n);
        }
      }
      forall s: nat | RecoveringSince(run, s, i) ensures StateAfter(run[..i]) == Recovering(run[s].now) {
        if s < n {
          RecoveringStep(run, s, n);
        }
      }
    }
  }

  /** An alert fires at evaluation `i` if and only if an unbroken stretch over the trigger
      began at an earlier evaluation in Normal, spans the trigger time at `i`, and did not
      span it at any evaluation in between. */
  lemma FireIff(run: seq<Evaluation>, i: nat)
    requires i < |run|
    ensures ActionAt(run, i) == Some(Fire) <==>
      exists s: nat :: PendingSince(run, s, i)
        && run[i].rate >= run[i].th.trigger
        && (run[i].th.triggerFor == 0 || run[i].now >= run[s].now + run[i].th.triggerFor)
  {
    PendingIff(run, i);
  }

  /** The same for Resolve, with the recover threshold and time. */
  lemma ResolveIff(run: seq<Evaluation>, i: nat)
    requires i < |run|
    ensures ActionAt(run, i) == Some(Resolve) <==>
      exists s: nat :: RecoveringSince(run, s, i)
        && run[i].rate < run[i].th.recover
        && (run[i].th.recoverFor == 0 || run[i].now >= run[s].now + run[i].th.recoverFor)
  {
    RecoveringIff(run, i);
  }

  /** What Firing before evaluation `i` means: at `s` the alert fired, updated or came back,
      and since then it stayed at or above the recover threshold without an update being due. */
  ghost predicate FiringSince(run: seq<Evaluation>, s: nat, i: nat)
    requires i <= |run|
  {
    && s < i && StateAfter(run[..s + 1]) == Firing(run[s].now)
    && forall k :: s < k < i ==>
         && run[k].rate >= run[k].th.recover
         && run[k].th.updateInterval > 0 && run[k].now < run[s].now + run[k].th.updateInterval
  }

  lemma FiringStep(run: seq<Evaluation>, s: nat, n: nat)
    requires s < n < |run|
    ensures FiringSince(run, s, n + 1) <==>
      && FiringSince(run, s, n) && run[n].rate >= run[n].th.recover
      && run[n].th.updateInterval > 0 && run[n].now < run[s].now + run[n].th.updateInterval
  {
  }

  lemma {:induction false} FiringIff(run: seq<Evaluation>, i: nat)
    requires i <= |run|
    ensures StateAfter(run[..i]).Firing? ==>
      exists s: nat :: FiringSince(run, s, i) && StateAfter(run[..i]).lastUpdate == run[s].now
    ensures forall s: nat :: FiringSince(run, s, i) ==> StateAfter(run[..i]) == Firing(run[s].now)
  {
    if i > 0 {
      var n := i - 1;
      FiringIff(run, n);
      StateStep(run, n);
      if StateAfter(run[..i]).Firing? {
        if StateAfter(run[..i]) == Firing(run[n].now) {
          assert FiringSince(run, n, i);
        } else {
          var s: nat :| FiringSince(run, s, n) && StateAfter(run[..n]).lastUpdate == run[s].now;
          FiringStep(run, s, n);
        }
      }
      forall s: nat | FiringSince(run, s, i) ensures StateAfter(run[..i]) == Firing(run[s].now) {
        if s < n {
          FiringStep(run, s, n);
        }
      }
    }
  }

  /** An Update is sent at evaluation `i` if and only if the alert has been Firing since some
      `s`, is still at or above the recover threshold, and the interval has passed for the
      first time. */
  lemma UpdateIff(run: seq<Evaluation>, i: nat)
    requires i < |run|
    ensures ActionAt(run, i) == Some(Update) <==>
      exists s: nat :: FiringSince(run, s, i)
        && run[i].rate >= run[i].th.recover
        && (run[i].th.updateInterval == 0 || run[i].now >= run[s].now + run[i].th.updateInterval)
  {
    FiringIff(run, i);
  }

  // ---------------------------------------------------------------- anti-flapping

  /** Times of the Fire actions of a run, in order. */
  function FireTimes(run: seq<Evaluation>): seq<nat> {
    if run == [] then [] else
      var n := |run| - 1;
      FireTimes(run[..n]) + if ActionAt(run, n) == Some(Fire) then [run[n].now] else []
  }

  ghost predicate DurationsAtLeast(run: seq<Evaluation>, triggerFor: nat, recoverFor: nat) {
    forall i :: 0 <= i < |run| ==> run[i].th.triggerFor >= triggerFor && run[i].th.recoverFor >= recoverFor
  }

  ghost predicate Spaced(times: seq<nat>, gap: nat) {
    forall i, j :: 0 <= i < j < |times| ==> times[j] >= times[i] + gap
  }

  /** Where the machine can be at time `now` after its last Fire at time `last`. */
  ghost predicate AfterFire(s: AlertState, last: nat, now: nat, recoverFor: nat) {
    match s
    case Normal => now >= last + recoverFor
    case Pending(since) => now >= since >= last + recoverFor
    case Firing(_) => now >= last
    case Recovering(since) => now >= since >= last
  }

  lemma StepAfterFire(s: AlertState, last: nat, before: nat, e: Evaluation, triggerFor: nat, recoverFor: nat)
    requires AfterFire(s, last, before, recoverFor) && e.now >= before
    requires e.th.triggerFor >= triggerFor && e.th.recoverFor >= recoverFor
    ensures var (s', action) := Step(s, e.th, e.rate, e.now);
      if action == Some(Fire) then e.now >= last + triggerFor + recoverFor && s' == Firing(e.now)
      else AfterFire(s', last, e.now, recoverFor)
  {
  }

  lemma SpacedPush(times: seq<nat>, t: nat, gap: nat)
    requires Spaced(times, gap) && (times != [] ==> t >= times[|times| - 1] + gap)
    ensures Spaced(times + [t], gap)
  {
  }

  /** The machine is where it can be at time `now` after the Fires at `times`, which are spaced. */
  ghost predicate FiredAt(s: AlertState, times: seq<nat>, now: nat, triggerFor: nat, recoverFor: nat) {
    && Spaced(times, triggerFor + recoverFor)
    && if times == [] then s.Normal? || s.Pending? else AfterFire(s, times[|times| - 1], now, recoverFor)
  }

  lemma StepFiredAt(s: AlertState, times: seq<nat>, before: nat, e: Evaluation, triggerFor: nat, recoverFor: nat)
    requires FiredAt(s, times, before, triggerFor, recoverFor) && e.now >= before
    requires e.th.triggerFor >= triggerFor && e.th.recoverFor >= recoverFor
    ensures var (s', action) := Step(s, e.th, e.rate, e.now);
      FiredAt(s', times + if action == Some(Fire) then [e.now] else [], e.now, triggerFor, recoverFor)
  {
    var (s', action) := Step(s, e.th, e.rate, e.now);
    if times != [] {
      StepAfterFire(s, times[|times| - 1], before, e, triggerFor, recoverFor);
    }
    if action == Some(Fire) {
      SpacedPush(times, e.now, triggerFor + recoverFor);
      assert (times + [e.now])[|times + [e.now]| - 1] == e.now;
    } else {
      assert times + [] == times;
    }
  }

  function LastNow(run: seq<Evaluation>): nat {
    if run == [] then 0 else run[|run| - 1].now
  }

  /** Two Fires of one alert are at least triggerFor + recoverFor apart. */
  lemma {:induction false} FiresAreSpaced(run: seq<Evaluation>, triggerFor: nat, recoverFor: nat)
    requires ClockAdvances(run) && DurationsAtLeast(run, triggerFor, recoverFor)
    ensures Spaced(FireTimes(run), triggerFor + recoverFor)
    ensures FiredAt(StateAfter(run), FireTimes(run), LastNow(run), triggerFor, recoverFor)
  {
    if run != [] {
      var n := |run| - 1;
      FiresAreSpaced(run[..n], triggerFor, recoverFor);
      assert LastNow(run[..n]) <= run[n].now by {
        if n > 0 {
          assert run[..n][n - 1] == run[n - 1] && run[n - 1].now <= run[n].now;
        }
      }
      StepFiredAt(StateAfter(run[..n]), FireTimes(run[..n]), LastNow(run[..n]), run[n], triggerFor, recoverFor);
    }
  }

  lemma {:induction false} SpacedAddsUp(times: seq<nat>, gap: nat)
    requires Spaced(times, gap) && times != []
    ensures times[|times| - 1] >= times[0] + (|times| - 1) * gap
  {
    var n := |times| - 1;
    if n > 0 {
      SpacedAddsUp(times[..n], gap);
      assert times[n] >= times[n - 1] + gap;
      assert n * gap == (n - 1) * gap + gap;
    }
  }

  /** Anti-flapping: n Fires take at least (n - 1) * (triggerFor + recoverFor) of time. */
  lemma FiresTakeTime(run: seq<Evaluation>, triggerFor: nat, recoverFor: nat)
    requires ClockAdvances(run) && DurationsAtLeast(run, triggerFor, recoverFor) && FireTimes(run) != []
    ensures var times := FireTimes(run);
      times[|times| - 1] - times[0] >= (|times| - 1) * (triggerFor + recoverFor)
  {
    FiresAreSpaced(run, triggerFor, recoverFor);
    SpacedAddsUp(FireTimes(run), triggerFor + recoverFor);
  }

  // ---------------------------------------------------------------- notices of one episode

  /** The time of the last Fire or Update of the open episode, if there is one. */
  function LastNotice(run: seq<Evaluation>): Option<nat> {
    if run == [] then None else
      var n := |run| - 1;
      match ActionAt(run, n)
      case Some(Fire) => Some(run[n].now)
      case Some(Update) => Some(run[n].now)
      case Some(Resolve) => None
      case None => LastNotice(run[..n])
  }

  /** An episode is open exactly in Firing and Recovering, and the machine never holds an
      older instant than its last notice. */
  lemma {:induction false} NoticeIsRemembered(run: seq<Evaluation>)
    requires ClockAdvances(run)
    ensures LastNotice(run).Some? <==> StateAfter(run).Firing? || StateAfter(run).Recovering?
    ensures StateAfter(run).Firing? ==> LastNotice(run).value <= StateAfter(run).lastUpdate <= run[|run| - 1].now
    ensures StateAfter(run).Recovering? ==> LastNotice(run).value <= StateAfter(run).since <= run[|run| - 1].now
  {
    if run != [] {
      var n := |run| - 1;
      NoticeIsRemembered(run[..n]);
      assert run[..n + 1] == run;
      StateStep(run, n);
      if n > 0 {
        assert run[..n][n - 1] == run[n - 1] && run[n - 1].now <= run[n].now;
      }
    }
  }

  /** Updates come only inside an episode, at least the update interval after the Fire or
      Update before them, also through Recovering and back. */
  lemma UpdatesAreSpaced(run: seq<Evaluation>, i: nat)
    requires ClockAdvances(run) && i < |run| && ActionAt(run, i) == Some(Update)
    ensures LastNotice(run[..i]).Some?
    ensures run[i].now >= LastNotice(run[..i]).value + run[i].th.updateInterval
  {
    NoticeIsRemembered(run[..i]);
    if i > 0 {
      assert run[..i][i - 1] == run[i - 1] && run[i - 1].now <= run[i].now;
    }
  }

  // ---------------------------------------------------------------- the class

  datatype AlertKey = AlertKey(prefix: IpNet, buffer: BufferKey, metric: MetricType)

  class AlertInstance {
    const key: AlertKey
    const thresholds: Thresholds
    var state: AlertState
    var alertId: nat
    /** All evaluations since the key was configured. */
    ghost var run: seq<Evaluation>

    ghost predicate Valid()
      reads this
    {
      state == StateAfter(run)
    }

    constructor (key: AlertKey, thresholds: Thresholds)
      ensures Valid() && this.key == key && this.thresholds == thresholds
      ensures state == Normal && alertId == 0 && run == []
    {
      this.key, this.thresholds, state, alertId, run := key, thresholds, Normal, 0, [];
    }

    method Evaluate(rate: real, now: nat) returns (action: Option<AlertAction>)
      requires Valid()
      modifies this`state, this`run
      ensures Valid() && run == old(run) + [Evaluation(rate, now, thresholds)]
      ensures (state, action) == Step(old(state), thresholds, rate, now)
    {
      action := None;
      match state {
        case Normal =>
          if rate >= thresholds.trigger {
            state := Pending(now);
          }
        case Pending(since) =>
          if rate < thresholds.trigger {
            state := Normal;
          } else if Elapsed(now, since) >= thresholds.triggerFor {
            state := Firing(now);
            action := Some(Fire);
          }
        case Firing(lastUpdate) =>
          if rate < thresholds.recover {
            state := Recovering(now);
          } else if Elapsed(now, lastUpdate) >= thresholds.updateInterval {
            state := Firing(now);
            action := Some(Update);
          }
        case Recovering(since) =>
          if rate >= thresholds.recover {
            state := Firing(now);
          } else if Elapsed(now, since) >= thresholds.recoverFor {
            state := Normal;
            action := Some(Resolve);
          }
      }
      run := run + [Evaluation(rate, now, thresholds)];
      assert run[..|run| - 1] == old(run);
    }
  }
}
