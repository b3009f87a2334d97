/** The direct reading of a rule's rate: which flows count towards a (prefix, protocol,
    direction), and their sums over a window. The ring buffers are compared with this. */
module FlowSums {
  import opened Network
  import opened Flows
  import opened Config
  import opened RingBuffers

  /** The direction of a flow seen from a prefix: exactly one endpoint lies inside. */
  function DirectionOf(prefix: IpNet, f: FlowRecord): Option<Direction> {
    if Contains(prefix, f.dstIp) && !Contains(prefix, f.srcIp) then Some(Inbound)
    else if Contains(prefix, f.srcIp) && !Contains(prefix, f.dstIp) then Some(Outbound)
    else None
  }

  predicate Counts(prefix: IpNet, key: BufferKey, f: FlowRecord) {
    DirectionOf(prefix, f) == Some(key.direction) && InCategory(f, key.protocol)
  }

  function SampleOf(f: FlowRecord): Sample {
    Sample(f.timeReceived, f.SampledBytes(), f.SampledPackets())
  }

  /** The samples that a buffer with this key must have received for these flows. */
  function HistoryOf(prefix: IpNet, key: BufferKey, flows: seq<FlowRecord>): seq<Sample> {
    if flows == [] then [] else
      var n := |flows| - 1;
      HistoryOf(prefix, key, flows[..n]) + if Counts(prefix, key, flows[n]) then [SampleOf(flows[n])] else []
  }

  /** The traffic of the flows that satisfy `p`. */
  function Traffic(flows: seq<FlowRecord>, p: FlowPred): Totals {
    if flows == [] then Zero() else
      var n := |flows| - 1;
      if p(flows[n]) then Traffic(flows[..n], p).Plus(TotalsOf(SampleOf(flows[n]))) else Traffic(flows[..n], p)
  }

  /** Selects the flows that count and were received at `lo <= t < hi`. */
  function CountedBetween(prefix: IpNet, key: BufferKey, lo: int, hi: int): FlowPred {
    (f: FlowRecord) => Counts(prefix, key, f) && lo <= f.timeReceived < hi
  }

  /** The direct sum that a rate stands for. */
  function DirectSum(prefix: IpNet, key: BufferKey, flows: seq<FlowRecord>, lo: int, hi: int): Totals {
    Traffic(flows, CountedBetween(prefix, key, lo, hi))
  }

  lemma SumBetweenPush(h: seq<Sample>, s: Sample, lo: int, hi: int)
    ensures SumBetween(h + [s], lo, hi) ==
      if lo <= s.t < hi then SumBetween(h, lo, hi).Plus(TotalsOf(s)) else SumBetween(h, lo, hi)
    ensures h + [] == h
  {
    assert (h + [s])[..|h|] == h;
  }

  lemma {:induction false} HistorySum(prefix: IpNet, key: BufferKey, flows: seq<FlowRecord>, lo: int, hi: int)
    ensures SumBetween(HistoryOf(prefix, key, flows), lo, hi) == DirectSum(prefix, key, flows, lo, hi)
  {
    if flows != [] {
      var n := |flows| - 1;
      HistorySum(prefix, key, flows[..n], lo, hi);
      var h := HistoryOf(prefix, key, flows[..n]);
      var counts := Counts(prefix, key, flows[n]);
      assert HistoryOf(prefix, key, flows) == h + if counts then [SampleOf(flows[n])] else [];
      SumBetweenPush(h, SampleOf(flows[n]), lo, hi);
    }
  }

  /** Flows arrive less than a window late, and none after `now`. */
  ghost predicate Timely(flows: seq<FlowRecord>, w: nat, now: nat) {
    && (forall i, j :: 0 <= i < j < |flows| ==> flows[j].timeReceived + w > flows[i].timeReceived)
    && (forall i :: 0 <= i < |flows| ==> flows[i].timeReceived <= now)
  }

  /** Every sample of a buffer is some flow's. */
  lemma {:induction false} SampleHasAFlow(prefix: IpNet, key: BufferKey, flows: seq<FlowRecord>, s: Sample)
    requires s in HistoryOf(prefix, key, flows)
    ensures exists i :: 0 <= i < |flows| && SampleOf(flows[i]) == s
  {
    var n := |flows| - 1;
    if s in HistoryOf(prefix, key, flows[..n]) {
      SampleHasAFlow(prefix, key, flows[..n], s);
      var i :| 0 <= i < n && SampleOf(flows[..n][i]) == s;
      assert SampleOf(flows[i]) == s;
    } else {
      assert SampleOf(flows[n]) == s;
    }
  }

  lemma {:induction false} HistoryIsTimely(prefix: IpNet, key: BufferKey, flows: seq<FlowRecord>, w: nat, now: nat)
    requires Timely(flows, w, now)
    ensures BoundedLateness(HistoryOf(prefix, key, flows), w) && NothingAfter(HistoryOf(prefix, key, flows), now)
  {
    if flows != [] {
      var n := |flows| - 1;
      HistoryIsTimely(prefix, key, flows[..n], w, now);
      var h := HistoryOf(prefix, key, flows[..n]);
      if Counts(prefix, key, flows[n]) {
        forall i | 0 <= i < |h| ensures flows[n].timeReceived + w > h[i].t {
          SampleHasAFlow(prefix, key, flows[..n], h[i]);
          var j :| 0 <= j < n && SampleOf(flows[..n][j]) == h[i];
          assert flows[j].timeReceived == h[i].t;
        }
      }
    }
  }

  /** End to end: for a positive window, timely flows and a query past start-up, the ring of
      a buffer answers the direct sum over the flows of the last `w` seconds. */
  lemma RingEqualsDirectSum(prefix: IpNet, key: BufferKey, flows: seq<FlowRecord>, w: nat, now: nat)
    requires w > 0 && now + 1 >= w && Timely(flows, w, now)
    ensures RingTotal(HistoryOf(prefix, key, flows), w, now, w) == DirectSum(prefix, key, flows, now - w + 1, now + 1)
  {
    var h := HistoryOf(prefix, key, flows);
    assert RingTotal(h, w, now, w) == WindowSum(h, w, now) by {
      HistoryIsTimely(prefix, key, flows, w, now);
      RingIsExact(h, w, now);
    }
    HistorySum(prefix, key, flows, now - w + 1, now + 1);
  }

  /** The flows that count for a buffer at `now`: of its category, with exactly the relevant
      endpoint inside the prefix, and of the last `w` seconds. */
  function CountedNow(prefix: IpNet, key: BufferKey, w: nat, now: nat): FlowPred {
    (f: FlowRecord) =>
      && InCategory(f, key.protocol)
      && (key.direction == Inbound ==> Contains(prefix, f.dstIp) && !Contains(prefix, f.srcIp))
      && (key.direction == Outbound ==> Contains(prefix, f.srcIp) && !Contains(prefix, f.dstIp))
      && now - w < f.timeReceived <= now
  }

  /** What a rate over a window of `w` seconds says about the flows that count, by its metric: 8
      times the bytes, or packets, both times the sampling rate, or the number of flows. */
  ghost predicate RateMeasures(
    rate: real, metric: MetricType, prefix: IpNet, key: BufferKey, flows: seq<FlowRecord>, w: nat, now: nat)
  {
    var counted := CountedNow(prefix, key, w, now);
    match metric
    case Bps => rate * w as real == (8 * SumOver(flows, counted, ByteWeight())) as real
    case Pps => rate * w as real == SumOver(flows, counted, PacketWeight()) as real
    case Fps => rate * w as real == |Where(flows, counted)| as real
  }

  ghost predicate MeasureFlows(
    rates: Rates, prefix: IpNet, key: BufferKey, flows: seq<FlowRecord>, w: nat, now: nat)
  {
    && RateMeasures(rates.bps, Bps, prefix, key, flows, w, now)
    && RateMeasures(rates.pps, Pps, prefix, key, flows, w, now)
    && RateMeasures(rates.fps, Fps, prefix, key, flows, w, now)
  }

  lemma {:induction false} TrafficIsSums(flows: seq<FlowRecord>, p: FlowPred, q: FlowPred)
    requires forall f :: p(f) == q(f)
    ensures Traffic(flows, p).bytes == SumOver(flows, q, ByteWeight())
    ensures Traffic(flows, p).packets == SumOver(flows, q, PacketWeight())
    ensures Traffic(flows, p).flows == |Where(flows, q)|
  {
    if flows != [] {
      TrafficIsSums(flows[..|flows| - 1], p, q);
    }
  }

  lemma CountedNowIsDirect(prefix: IpNet, key: BufferKey, w: nat, now: nat, f: FlowRecord)
    ensures CountedBetween(prefix, key, now - w + 1, now + 1)(f) == CountedNow(prefix, key, w, now)(f)
  {
  }

  lemma QuotientsMeasure(
    rates: Rates, totals: Totals, prefix: IpNet, key: BufferKey, flows: seq<FlowRecord>, w: nat, now: nat)
    requires AreQuotients(rates, totals, w)
    requires totals.bytes == SumOver(flows, CountedNow(prefix, key, w, now), ByteWeight())
    requires totals.packets == SumOver(flows, CountedNow(prefix, key, w, now), PacketWeight())
    requires totals.flows == |Where(flows, CountedNow(prefix, key, w, now))|
    ensures MeasureFlows(rates, prefix, key, flows, w, now)
  {
  }

  /** The direct rates, with the arithmetic written out over the flows. */
  lemma DirectRatesMeasureFlows(prefix: IpNet, key: BufferKey, flows: seq<FlowRecord>, w: nat, now: nat)
    requires w > 0
    ensures MeasureFlows(
      RatesOf(DirectSum(prefix, key, flows, now - w + 1, now + 1), w), prefix, key, flows, w, now)
  {
    var counted, direct := CountedNow(prefix, key, w, now), CountedBetween(prefix, key, now - w + 1, now + 1);
    var totals := Traffic(flows, direct);
    forall f: FlowRecord ensures direct(f) == counted(f) {
      CountedNowIsDirect(prefix, key, w, now, f);
    }
    TrafficIsSums(flows, direct, counted);
    RatesAreQuotients(totals, w);
    QuotientsMeasure(RatesOf(totals, w), totals, prefix, key, flows, w, now);
  }

  /** The rates a ring answers, with the arithmetic written out over the flows. */
  lemma RingMeasuresFlows(prefix: IpNet, key: BufferKey, flows: seq<FlowRecord>, w: nat, now: nat)
    requires w > 0 && now + 1 >= w
    requires forall i, j :: 0 <= i < j < |flows| ==> flows[j].timeReceived + w > flows[i].timeReceived
    requires forall i :: 0 <= i < |flows| ==> flows[i].timeReceived <= now
    ensures MeasureFlows(QueryRates(HistoryOf(prefix, key, flows), w, now), prefix, key, flows, w, now)
  {
    RingEqualsDirectSum(prefix, key, flows, w, now);
    DirectRatesMeasureFlows(prefix, key, flows, w, now);
  }

  /** Without any bound on lateness, a query past start-up never answers more than that. */
  lemma RingIsAtMostDirectSum(prefix: IpNet, key: BufferKey, flows: seq<FlowRecord>, w: nat, now: nat)
    requires w > 0 && now + 1 >= w
    ensures RingTotal(HistoryOf(prefix, key, flows), w, now, w).AtMost(
      DirectSum(prefix, key, flows, now - w + 1, now + 1))
  {
    var h := HistoryOf(prefix, key, flows);
    RingIsAtMostWindow(h, w, now);
    HistorySum(prefix, key, flows, now - w + 1, now + 1);
  }

  // ---------------------------------------------------------------- how the categories relate

  lemma {:induction false} TrafficMonotone(flows: seq<FlowRecord>, p: FlowPred, q: FlowPred)
    requires forall f :: p(f) ==> q(f)
    ensures Traffic(flows, p).AtMost(Traffic(flows, q))
  {
    if flows != [] {
      TrafficMonotone(flows[..|flows| - 1], p, q);
    }
  }

  lemma {:induction false} TrafficDisjointUnion(flows: seq<FlowRecord>, p: FlowPred, q: FlowPred, union: FlowPred)
    requires forall f :: !(p(f) && q(f)) && (union(f) <==> p(f) || q(f))
    ensures Traffic(flows, union) == Traffic(flows, p).Plus(Traffic(flows, q))
  {
    if flows != [] {
      TrafficDisjointUnion(flows[..|flows| - 1], p, q, union);
    }
  }

  /** Selects the flows of one direction and window that belong to one of the categories. */
  ghost function InAnyOf(prefix: IpNet, d: Direction, cs: set<Category>, lo: int, hi: int): FlowPred {
    (f: FlowRecord) =>
      DirectionOf(prefix, f) == Some(d) && lo <= f.timeReceived < hi && exists c :: c in cs && InCategory(f, c)
  }

  predicate IsProtocol(c: Category) {
    c == Tcp || c == Udp || c == Icmp || c == Gre || c == Esp
  }

  lemma ProtocolsAreExclusive(f: FlowRecord, c: Category, other: Category)
    requires IsProtocol(c) && IsProtocol(other) && c != other
    ensures !(InCategory(f, c) && InCategory(f, other))
  {
  }

  lemma AddProtocol(
    prefix: IpNet, d: Direction, flows: seq<FlowRecord>, lo: int, hi: int, cs: set<Category>, c: Category)
    requires IsProtocol(c) && c !in cs && forall other :: other in cs ==> IsProtocol(other)
    ensures Traffic(flows, InAnyOf(prefix, d, cs + {c}, lo, hi))
         == Traffic(flows, InAnyOf(prefix, d, cs, lo, hi)).Plus(DirectSum(prefix, BufferKey(c, d), flows, lo, hi))
  {
    var some, one := InAnyOf(prefix, d, cs, lo, hi), CountedBetween(prefix, BufferKey(c, d), lo, hi);
    forall f: FlowRecord, other | other in cs ensures !(InCategory(f, c) && InCategory(f, other)) {
      ProtocolsAreExclusive(f, c, other);
    }
    TrafficDisjointUnion(flows, some, one, InAnyOf(prefix, d, cs + {c}, lo, hi));
  }

  lemma OneCategory(prefix: IpNet, d: Direction, flows: seq<FlowRecord>, lo: int, hi: int, c: Category)
    ensures Traffic(flows, InAnyOf(prefix, d, {c}, lo, hi)) == DirectSum(prefix, BufferKey(c, d), flows, lo, hi)
  {
    var one, same := CountedBetween(prefix, BufferKey(c, d), lo, hi), InAnyOf(prefix, d, {c}, lo, hi);
    TrafficMonotone(flows, one, same);
    TrafficMonotone(flows, same, one);
  }

  lemma TcpAndUdp(prefix: IpNet, d: Direction, flows: seq<FlowRecord>, lo: int, hi: int)
    ensures Traffic(flows, InAnyOf(prefix, d, {Tcp, Udp}, lo, hi))
         == DirectSum(prefix, BufferKey(Tcp, d), flows, lo, hi).Plus(
              DirectSum(prefix, BufferKey(Udp, d), flows, lo, hi))
  {
    OneCategory(prefix, d, flows, lo, hi, Tcp);
    AddProtocol(prefix, d, flows, lo, hi, {Tcp}, Udp);
    assert {Tcp} + {Udp} == {Tcp, Udp};
  }

  /** The five protocols are disjoint parts of `Any`, and the three services lie inside the
      protocols that carry them: the direct sums are ordered accordingly. */
  lemma CategoriesNest(prefix: IpNet, d: Direction, flows: seq<FlowRecord>, lo: int, hi: int)
    ensures var sum := (c: Category) => DirectSum(prefix, BufferKey(c, d), flows, lo, hi);
      && sum(Tcp).Plus(sum(Udp)).Plus(sum(Icmp)).Plus(sum(Gre)).Plus(sum(Esp)).AtMost(sum(Any))
      && sum(TcpSyn).AtMost(sum(Tcp))
      && sum(Https).AtMost(sum(Tcp))
      && sum(Dns).AtMost(sum(Tcp).Plus(sum(Udp)))
  {
    TcpAndUdp(prefix, d, flows, lo, hi);
    AddProtocol(prefix, d, flows, lo, hi, {Tcp, Udp}, Icmp);
    AddProtocol(prefix, d, flows, lo, hi, {Tcp, Udp, Icmp}, Gre);
    AddProtocol(prefix, d, flows, lo, hi, {Tcp, Udp, Icmp, Gre}, Esp);
    var protocols := {Tcp, Udp, Icmp, Gre, Esp};
    assert {Tcp, Udp} + {Icmp} == {Tcp, Udp, Icmp} && {Tcp, Udp, Icmp} + {Gre} == {Tcp, Udp, Icmp, Gre};
    assert {Tcp, Udp, Icmp, Gre} + {Esp} == protocols;
    WithinAny(prefix, d, flows, lo, hi, protocols);
    ServicesWithinProtocols(prefix, d, flows, lo, hi);
  }

  /** The same order holds between what the ring buffers answer. */
  lemma RingTotalsNest(prefix: IpNet, d: Direction, flows: seq<FlowRecord>, w: nat, now: nat)
    requires w > 0 && now + 1 >= w && Timely(flows, w, now)
    ensures var ring := (c: Category) => RingTotal(HistoryOf(prefix, BufferKey(c, d), flows), w, now, w);
      && ring(Tcp).Plus(ring(Udp)).Plus(ring(Icmp)).Plus(ring(Gre)).Plus(ring(Esp)).AtMost(ring(Any))
      && ring(TcpSyn).AtMost(ring(Tcp))
      && ring(Https).AtMost(ring(Tcp))
      && ring(Dns).AtMost(ring(Tcp).Plus(ring(Udp)))
  {
    forall c ensures RingTotal(HistoryOf(prefix, BufferKey(c, d), flows), w, now, w)
      == DirectSum(prefix, BufferKey(c, d), flows, now - w + 1, now + 1)
    {
      RingEqualsDirectSum(prefix, BufferKey(c, d), flows, w, now);
    }
    CategoriesNest(prefix, d, flows, now - w + 1, now + 1);
  }

  lemma WithinAny(prefix: IpNet, d: Direction, flows: seq<FlowRecord>, lo: int, hi: int, cs: set<Category>)
    ensures Traffic(flows, InAnyOf(prefix, d, cs, lo, hi)).AtMost(DirectSum(prefix, BufferKey(Any, d), flows, lo, hi))
  {
    TrafficMonotone(flows, InAnyOf(prefix, d, cs, lo, hi), CountedBetween(prefix, BufferKey(Any, d), lo, hi));
  }

  lemma ServicesWithinProtocols(prefix: IpNet, d: Direction, flows: seq<FlowRecord>, lo: int, hi: int)
    ensures var tcp := DirectSum(prefix, BufferKey(Tcp, d), flows, lo, hi);
      && DirectSum(prefix, BufferKey(TcpSyn, d), flows, lo, hi).AtMost(tcp)
      && DirectSum(prefix, BufferKey(Https, d), flows, lo, hi).AtMost(tcp)
    ensures DirectSum(prefix, BufferKey(Dns, d), flows, lo, hi).AtMost(
      Traffic(flows, InAnyOf(prefix, d, {Tcp, Udp}, lo, hi)))
  {
    var tcp := CountedBetween(prefix, BufferKey(Tcp, d), lo, hi);
    var dns := CountedBetween(prefix, BufferKey(Dns, d), lo, hi);
    TrafficMonotone(flows, CountedBetween(prefix, BufferKey(TcpSyn, d), lo, hi), tcp);
    TrafficMonotone(flows, CountedBetween(prefix, BufferKey(Https, d), lo, hi), tcp);
    forall f | dns(f) ensures InAnyOf(prefix, d, {Tcp, Udp}, lo, hi)(f) {
      assert InCategory(f, Tcp) || InCategory(f, Udp);
    }
    TrafficMonotone(flows, dns, InAnyOf(prefix, d, {Tcp, Udp}, lo, hi));
  }
}
