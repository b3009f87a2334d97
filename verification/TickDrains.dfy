/** The captures of one tick: drained once per (prefix, direction) and shared by every alert
    on that key, so that each alert analyses what was captured when the tick began. */
module TickDrains {
  import opened Network
  import opened Flows
  import opened Captures
  import opened Processor

  type DrainKey = (IpNet, Direction)

  function DrainIf(q: Deque, d: Direction, drained: bool): Deque {
    if drained then DequeDrained(q, d) else q
  }

  /** The deque of a rule once the drained directions of its prefix are gone. */
  function AfterDrains(q: Deque, prefix: IpNet, drained: set<DrainKey>): Deque {
    DrainIf(DrainIf(q, Inbound, (prefix, Inbound) in drained), Outbound, (prefix, Outbound) in drained)
  }

  /** A direction that was not drained is still complete, a drained one is gone. */
  lemma DirectionsAfterDrains(q: Deque, prefix: IpNet, drained: set<DrainKey>, d: Direction)
    ensures OfDirection(AfterDrains(q, prefix, drained).entries, d) ==
      if (prefix, d) in drained then [] else OfDirection(q.entries, d)
  {
    OfDirectionTwice(q.entries, Inbound, d);
    OfDirectionTwice(q.entries, Outbound, d);
    OfDirectionTwice(OfDirection(q.entries, Outbound), Inbound, d);
  }

  lemma AfterDrainsIsSubset(q: Deque, prefix: IpNet, drained: set<DrainKey>)
    ensures forall e :: e in AfterDrains(q, prefix, drained).entries <==>
      e in q.entries && (prefix, e.direction) !in drained
  {
    OfDirectionIsSubset(q.entries, Inbound);
    OfDirectionIsSubset(q.entries, Outbound);
    OfDirectionIsSubset(OfDirection(q.entries, Outbound), Inbound);
  }

  /** Two drains of one deque: of one direction twice, or of both, which empties it. */
  lemma DrainedTwice(q: Deque, d: Direction, e: Direction)
    ensures DequeDrained(DequeDrained(q, d), e) ==
      if d == e then DequeDrained(q, d)
      else
        var t := q.tracked;
        Deque([], t.(live := [], delivered :=
          t.delivered + multiset(Numbers(t.arrivals, t.live, d)) + multiset(Numbers(t.arrivals, t.live, e))))
  {
    var t := q.tracked;
    OfDirectionTwice(q.entries, Opposite(d), Opposite(e));
    NumbersTwice(t.arrivals, t.live, Opposite(d), Opposite(e));
    NumbersTwice(t.arrivals, t.live, Opposite(d), e);
  }

  lemma OneMoreOutbound(q: Deque, outbound: bool)
    ensures DequeDrained(DrainIf(q, Outbound, outbound), Outbound) == DequeDrained(q, Outbound)
  {
    DrainedTwice(q, Outbound, Outbound);
  }

  lemma OneMoreInbound(q: Deque, inbound: bool, outbound: bool)
    ensures DequeDrained(DrainIf(DrainIf(q, Inbound, inbound), Outbound, outbound), Inbound)
         == DrainIf(DequeDrained(q, Inbound), Outbound, outbound)
  {
    var rest, drained := DrainIf(q, Inbound, inbound), DequeDrained(q, Inbound);
    DrainedTwice(q, Inbound, Inbound);
    if outbound {
      InboundThenOutbound(rest);
      assert DequeDrained(rest, Inbound) == drained;
    }
  }

  lemma InboundThenOutbound(q: Deque)
    ensures DequeDrained(DequeDrained(q, Outbound), Inbound) == DequeDrained(DequeDrained(q, Inbound), Outbound)
  {
    DrainedTwice(q, Inbound, Outbound);
    DrainedTwice(q, Outbound, Inbound);
  }

  /** Draining a direction removes just that direction. */
  lemma OneMoreDrained(q: Deque, prefix: IpNet, drained: set<DrainKey>, d: Direction)
    ensures DequeDrained(AfterDrains(q, prefix, drained), d) == AfterDrains(q, prefix, drained + {(prefix, d)})
  {
    var inbound, outbound := (prefix, Inbound) in drained, (prefix, Outbound) in drained;
    if d == Inbound {
      OneMoreInbound(q, inbound, outbound);
    } else {
      OneMoreOutbound(DrainIf(q, Inbound, inbound), outbound);
    }
  }

  /** The deques are those of the tick's start, less what has been drained since. */
  ghost predicate StartLess(
    prefixes: seq<IpNet>, start: seq<Deque>, current: seq<Deque>, drained: set<DrainKey>)
  {
    && |prefixes| == |start| == |current|
    && forall i :: 0 <= i < |start| ==> current[i] == AfterDrains(start[i], prefixes[i], drained)
  }

  /** A drain of a new key hands out what the tick's start held for it. */
  lemma {:induction false} FreshDrainDelivers(
    prefixes: seq<IpNet>, start: seq<Deque>, current: seq<Deque>, drained: set<DrainKey>, k: DrainKey)
    requires StartLess(prefixes, start, current, drained) && k !in drained
    ensures Delivered(prefixes, current, k.0, k.1) == Delivered(prefixes, start, k.0, k.1)
  {
    if start != [] {
      var n := |start| - 1;
      FreshDrainDelivers(prefixes[..n], start[..n], current[..n], drained, k);
      DirectionsAfterDrains(start[n], prefixes[n], drained, k.1);
    }
  }

  lemma DrainExtends(
    prefixes: seq<IpNet>, start: seq<Deque>, current: seq<Deque>, after: seq<Deque>, drained: set<DrainKey>,
    k: DrainKey)
    requires StartLess(prefixes, start, current, drained) && |after| == |current|
    requires forall i :: 0 <= i < |after| ==> after[i] == AfterDrain(prefixes[i], current[i], k.0, k.1)
    ensures StartLess(prefixes, start, after, drained + {k})
  {
    forall i | 0 <= i < |start| ensures after[i] == AfterDrains(start[i], prefixes[i], drained + {k}) {
      if prefixes[i] == k.0 {
        OneMoreDrained(start[i], prefixes[i], drained, k.1);
      }
    }
  }

  lemma NothingDrainedYet(prefixes: seq<IpNet>, start: seq<Deque>)
    requires |prefixes| == |start|
    ensures StartLess(prefixes, start, start, {})
  {
  }
}
