/** The ids of alerts over runs of the daemon: every Fire has an id of its own, so that an id names
    one episode of one alert for good. */
module AlertIds {
  import opened Alert
  import opened Episodes
  import opened DaemonRuns

  /** All notices of a run, in order. */
  ghost function NoticesAfter(windowSecs: nat, steps: seq<DaemonStep>): seq<Notice> {
    if steps == [] then [] else
      var n := |steps| - 1;
      match steps[n]
      case TickStep(_, input) =>
        NoticesAfter(windowSecs, steps[..n]) + TickNotices(After(windowSecs, steps[..n]).alerts, input)
      case _ => NoticesAfter(windowSecs, steps[..n])
  }

  /** The Fires carry ids from `lo` up to, but not including, `hi`, in ascending order. */
  ghost predicate FiresAscend(notices: seq<Notice>, lo: nat, hi: nat) {
    && (forall i :: 0 <= i < |notices| && notices[i].action == Fire ==> lo <= notices[i].id < hi)
    && (forall i, j :: 0 <= i < j < |notices| && notices[i].action == Fire && notices[j].action == Fire ==>
          notices[i].id < notices[j].id)
  }

  lemma FiresAscendConcat(a: seq<Notice>, b: seq<Notice>, lo: nat, mid: nat, hi: nat)
    requires FiresAscend(a, lo, mid) && FiresAscend(b, mid, hi) && lo <= mid <= hi
    ensures FiresAscend(a + b, lo, hi)
  {
  }

  lemma {:induction false} TickFiresAscend(alerts: seq<AlertView>, input: TickInput, first: nat)
    requires forall i: nat :: input.ids(i) == first + i
    ensures FiresAscend(TickNotices(alerts, input), first, first + |alerts|)
  {
    if alerts != [] {
      var n := |alerts| - 1;
      TickFiresAscend(alerts[..n], input, first);
      FiresAscendConcat(
        TickNotices(alerts[..n], input), Sent(alerts[n], n, input), first, first + n, first + n + 1);
    }
  }

  /** Over every run of the daemon no two Fires have the same id, of whatever alerts. */
  lemma {:induction false} FireIdsAreFresh(windowSecs: nat, steps: seq<DaemonStep>)
    requires IsRun(windowSecs, steps)
    ensures After(windowSecs, steps).nextId >= 1
    ensures FiresAscend(NoticesAfter(windowSecs, steps), 1, After(windowSecs, steps).nextId)
  {
    if steps != [] {
      var n := |steps| - 1;
      var w := After(windowSecs, steps[..n]);
      FireIdsAreFresh(windowSecs, steps[..n]);
      match steps[n]
      case TickStep(_, input) =>
        TickFiresAscend(w.alerts, input, w.nextId);
        FiresAscendConcat(
          NoticesAfter(windowSecs, steps[..n]), TickNotices(w.alerts, input), 1, w.nextId, w.nextId + |w.alerts|);
      case _ =>
    }
  }
}
