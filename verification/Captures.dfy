/** The bounded capture deque of a rule, drained per direction. The deque is followed by the
    arrival numbers of its entries, so that statements over whole runs can name each entry. */
module Captures {
  import opened Flows

  datatype CapturedFlow = CapturedFlow(flow: FlowRecord, direction: Direction)

  /** Entries of one direction, or of the other one, in order. */
  function OfDirection(entries: seq<CapturedFlow>, direction: Direction): seq<CapturedFlow> {
    if entries == [] then [] else
      var n := |entries| - 1;
      OfDirection(entries[..n], direction) + if entries[n].direction == direction then [entries[n]] else []
  }

  function Opposite(direction: Direction): Direction {
    if direction == Inbound then Outbound else Inbound
  }

  function FlowsOf(entries: seq<CapturedFlow>): (flows: seq<FlowRecord>)
    ensures |flows| == |entries|
    ensures forall i :: 0 <= i < |entries| ==> flows[i] == entries[i].flow
  {
    seq(|entries|, i requires 0 <= i < |entries| => entries[i].flow)
  }

  /** What `process_flow` does to the deque: drop the oldest entry when full, then append. */
  function Push(entries: seq<CapturedFlow>, size: nat, e: CapturedFlow): seq<CapturedFlow> {
    (if |entries| >= size && entries != [] then entries[1..] else entries) + [e]
  }

  // ---------------------------------------------------------------- the deque with its past

  /** All arrivals, the numbers of those still held, and of those delivered by drains. */
  datatype Tracked = Tracked(arrivals: seq<CapturedFlow>, live: seq<nat>, delivered: multiset<nat>) {

    predicate Wf() {
      && (forall i :: 0 <= i < |live| ==> live[i] < |arrivals|)
      && (forall k :: k in delivered ==> k < |arrivals|)
    }

    /** `entries` are the held arrivals. */
    ghost predicate Holds(entries: seq<CapturedFlow>) {
      && Wf()
      && |entries| == |live|
      && forall i :: 0 <= i < |live| ==> entries[i] == arrivals[live[i]]
    }

    function Arrive(size: nat, e: CapturedFlow): Tracked {
      this.(arrivals := arrivals + [e],
            live := (if |live| >= size && live != [] then live[1..] else live) + [|arrivals|])
    }

    function Drain(direction: Direction): Tracked {
      this.(live := Numbers(arrivals, live, Opposite(direction)),
            delivered := delivered + multiset(Numbers(arrivals, live, direction)))
    }
  }

  /** The numbers whose arrival has the direction. */
  function Numbers(arrivals: seq<CapturedFlow>, live: seq<nat>, direction: Direction): seq<nat> {
    if live == [] then [] else
      var n := |live| - 1;
      Numbers(arrivals, live[..n], direction)
      + if live[n] < |arrivals| && arrivals[live[n]].direction == direction then [live[n]] else []
  }

  lemma {:induction false} NumbersFacts(arrivals: seq<CapturedFlow>, live: seq<nat>, direction: Direction)
    requires forall i :: 0 <= i < |live| ==> live[i] < |arrivals|
    ensures forall k :: k in Numbers(arrivals, live, direction) <==> k in live && arrivals[k].direction == direction
    ensures |Numbers(arrivals, live, direction)| <= |live|
  {
    if live != [] {
      var n := |live| - 1;
      NumbersFacts(arrivals, live[..n], direction);
      assert live == live[..n] + [live[n]];
    }
  }

  lemma {:induction false} NumbersAscend(arrivals: seq<CapturedFlow>, live: seq<nat>, direction: Direction)
    requires (forall i :: 0 <= i < |live| ==> live[i] < |arrivals|) && Ascending(live)
    ensures Ascending(Numbers(arrivals, live, direction))
  {
    if live != [] {
      var n := |live| - 1;
      NumbersAscend(arrivals, live[..n], direction);
      NumbersFacts(arrivals, live[..n], direction);
      var rest := Numbers(arrivals, live[..n], direction);
      forall i | 0 <= i < |rest| ensures rest[i] < live[n] {
        assert rest[i] in live[..n];
      }
    }
  }

  lemma {:induction false} DrainHolds(t: Tracked, entries: seq<CapturedFlow>, direction: Direction)
    requires t.Holds(entries)
    ensures var numbers := Numbers(t.arrivals, t.live, direction);
      && |numbers| == |OfDirection(entries, direction)|
      && (forall i :: 0 <= i < |numbers| ==>
            numbers[i] < |t.arrivals| && OfDirection(entries, direction)[i] == t.arrivals[numbers[i]])
    decreases |entries|
  {
    if entries != [] {
      var n := |entries| - 1;
      DrainHolds(t.(live := t.live[..n]), entries[..n], direction);
    }
  }

  lemma ArriveHolds(t: Tracked, entries: seq<CapturedFlow>, size: nat, e: CapturedFlow)
    requires t.Holds(entries)
    ensures t.Arrive(size, e).Holds(Push(entries, size, e))
  {
  }

  lemma DrainHoldsAll(t: Tracked, entries: seq<CapturedFlow>, direction: Direction)
    requires t.Holds(entries)
    ensures t.Drain(direction).Holds(OfDirection(entries, Opposite(direction)))
  {
    DrainHolds(t, entries, Opposite(direction));
    NumbersFacts(t.arrivals, t.live, direction);
    var d := t.Drain(direction);
    forall k | k in d.delivered ensures k < |d.arrivals| {
      if k !in t.delivered {
        assert k in Numbers(t.arrivals, t.live, direction);
        assert k in t.live;
      }
    }
  }

  lemma {:induction false} OfDirectionIsSubset(entries: seq<CapturedFlow>, direction: Direction)
    ensures forall e :: e in OfDirection(entries, direction) <==> e in entries && e.direction == direction
  {
    if entries != [] {
      var n := |entries| - 1;
      OfDirectionIsSubset(entries[..n], direction);
      assert entries == entries[..n] + [entries[n]];
    }
  }

  lemma OfDirectionPush(entries: seq<CapturedFlow>, more: seq<CapturedFlow>, d: Direction)
    requires |more| <= 1
    ensures OfDirection(entries + more, d) ==
      OfDirection(entries, d) + if more != [] && more[0].direction == d then more else []
  {
    if more == [] {
      assert entries + more == entries;
    } else {
      assert (entries + more)[..|entries|] == entries;
    }
  }

  /** Selecting twice keeps what one selection has, or nothing. */
  lemma {:induction false} OfDirectionTwice(entries: seq<CapturedFlow>, d: Direction, e: Direction)
    ensures OfDirection(OfDirection(entries, d), e) == if d == e then OfDirection(entries, d) else []
  {
    if entries != [] {
      var n := |entries| - 1;
      OfDirectionTwice(entries[..n], d, e);
      OfDirectionPush(OfDirection(entries[..n], d), if entries[n].direction == d then [entries[n]] else [], e);
    }
  }

  lemma NumbersPush(arrivals: seq<CapturedFlow>, live: seq<nat>, more: seq<nat>, d: Direction)
    requires |more| <= 1
    ensures Numbers(arrivals, live + more, d) == Numbers(arrivals, live, d) +
      if more != [] && more[0] < |arrivals| && arrivals[more[0]].direction == d then more else []
  {
    if more == [] {
      assert live + more == live;
    } else {
      assert (live + more)[..|live|] == live;
    }
  }

  lemma {:induction false} NumbersTwice(arrivals: seq<CapturedFlow>, live: seq<nat>, d: Direction, e: Direction)
    ensures Numbers(arrivals, Numbers(arrivals, live, d), e) == if d == e then Numbers(arrivals, live, d) else []
  {
    if live != [] {
      var n := |live| - 1;
      NumbersTwice(arrivals, live[..n], d, e);
      var kept := live[n] < |arrivals| && arrivals[live[n]].direction == d;
      NumbersPush(arrivals, Numbers(arrivals, live[..n], d), if kept then [live[n]] else [], e);
    }
  }

  // ---------------------------------------------------------------- what every run keeps

  ghost predicate Ascending(s: seq<nat>) {
    forall i, j :: 0 <= i < j < |s| ==> s[i] < s[j]
  }

  ghost predicate NoRepeats(s: seq<nat>) {
    forall i, j :: 0 <= i < j < |s| ==> s[i] != s[j]
  }

  lemma NoRepeatsConcat(a: seq<nat>, b: seq<nat>)
    requires NoRepeats(a) && NoRepeats(b) && forall k :: k in a ==> k !in b
    ensures NoRepeats(a + b)
  {
    var c := a + b;
    forall i, j | 0 <= i < j < |c| ensures c[i] != c[j] {
      if i < |a| <= j {
        assert c[i] in a && c[j] in b;
      }
    }
  }

  /** Each number was delivered at most once, and none that is held. */
  ghost predicate DeliveredOnce(live: seq<nat>, delivered: multiset<nat>) {
    && (forall k :: k in delivered ==> delivered[k] == 1)
    && (forall k :: k in live ==> k !in delivered)
  }

  ghost predicate Safe(t: Tracked, size: nat) {
    && t.Wf()
    // The bound; a size of 0 still holds one entry.
    && |t.live| <= (if size >= 1 then size else 1)
    // Arrival order.
    && Ascending(t.live)
    // No entry is delivered twice, and none is both delivered and held.
    && DeliveredOnce(t.live, t.delivered)
    // The last `size` arrivals are all still there unless they were delivered.
    && (size >= 1 ==> forall k: nat :: |t.arrivals| - size <= k < |t.arrivals| ==> k in t.live || k in t.delivered)
  }

  lemma {:induction false} AscendingIsSpread(s: seq<nat>, bound: nat)
    requires Ascending(s) && s != [] && s[|s| - 1] < bound
    ensures s[0] + |s| <= bound
  {
    if |s| > 1 {
      AscendingIsSpread(s[..|s| - 1], s[|s| - 1]);
    }
  }

  lemma {:induction false} AscendingOccursOnce(s: seq<nat>)
    requires Ascending(s)
    ensures forall k :: k in s ==> multiset(s)[k] == 1
  {
    if s != [] {
      var n := |s| - 1;
      AscendingOccursOnce(s[..n]);
      assert s == s[..n] + [s[n]];
      assert multiset(s) == multiset(s[..n]) + multiset{s[n]};
      assert s[n] !in s[..n];
    }
  }

  lemma ArriveIsSafe(t: Tracked, size: nat, e: CapturedFlow)
    requires Safe(t, size)
    ensures Safe(t.Arrive(size, e), size)
  {
    var r := t.Arrive(size, e);
    var number := |t.arrivals|;
    forall k: nat | size >= 1 && |r.arrivals| - size <= k < |r.arrivals| ensures k in r.live || k in r.delivered {
      if k == number {
        assert r.live[|r.live| - 1] == number;
      } else if k in t.live {
        var i :| 0 <= i < |t.live| && t.live[i] == k;
        if |t.live| >= size {
          AscendingIsSpread(t.live, number);
          assert i > 0;
          assert r.live[i - 1] == k;
        } else {
          assert r.live[i] == k;
        }
      }
    }
    forall k | k in r.live ensures k !in r.delivered {
      if k != number {
        assert k in t.live;
      }
    }
  }

  /** Handing out some of the held numbers keeps that. */
  lemma DeliveredOnceMore(live: seq<nat>, delivered: multiset<nat>, out: seq<nat>, kept: seq<nat>)
    requires DeliveredOnce(live, delivered) && Ascending(out)
    requires forall k :: k in out ==> k in live && k !in kept
    requires forall k :: k in kept ==> k in live
    ensures DeliveredOnce(kept, delivered + multiset(out))
  {
    AscendingOccursOnce(out);
    forall k | k in delivered + multiset(out) ensures (delivered + multiset(out))[k] == 1 {
      assert k in out ==> k !in delivered;
    }
  }

  lemma DrainIsSafe(t: Tracked, size: nat, direction: Direction)
    requires Safe(t, size)
    ensures Safe(t.Drain(direction), size)
  {
    var out, kept := Numbers(t.arrivals, t.live, direction), Numbers(t.arrivals, t.live, Opposite(direction));
    NumbersFacts(t.arrivals, t.live, direction);
    NumbersFacts(t.arrivals, t.live, Opposite(direction));
    NumbersAscend(t.arrivals, t.live, direction);
    NumbersAscend(t.arrivals, t.live, Opposite(direction));
    DeliveredOnceMore(t.live, t.delivered, out, kept);
    forall k | k in t.live ensures k in kept || k in out {
      assert t.arrivals[k].direction == direction || t.arrivals[k].direction == Opposite(direction);
    }
    DrainKeepsBounds(t, direction, out, kept);
  }

  lemma DrainKeepsBounds(t: Tracked, direction: Direction, out: seq<nat>, kept: seq<nat>)
    requires t.Wf() && (forall k :: k in out || k in kept ==> k in t.live)
    requires out == Numbers(t.arrivals, t.live, direction) && kept == Numbers(t.arrivals, t.live, Opposite(direction))
    ensures t.Drain(direction).Wf()
  {
    forall i | 0 <= i < |kept| ensures kept[i] < |t.arrivals| {
      assert kept[i] in t.live;
    }
    forall k | k in t.delivered + multiset(out) ensures k < |t.arrivals| {
      assert k in t.delivered || k in t.live;
    }
  }

  /** One step of a run: an arrival, or a drain of one direction. */
  datatype CaptureStep = Arrival(e: CapturedFlow) | Draining(direction: Direction)

  ghost function Run(steps: seq<CaptureStep>, size: nat): (t: Tracked)
    ensures Safe(t, size)
  {
    if steps == [] then Tracked([], [], multiset{}) else
      var before := Run(steps[..|steps| - 1], size);
      match steps[|steps| - 1]
      case Arrival(e) => ArriveIsSafe(before, size, e); before.Arrive(size, e)
      case Draining(direction) => DrainIsSafe(before, size, direction); before.Drain(direction)
  }
}
