/** Flow records, their direction and their protocol categories, and sums of bytes over
    lists of flows. Sums recurse from the back, as the source's loops accumulate them. */
module Flows {
  import opened Network

  type u8 = x: int | 0 <= x < 256
  type u16 = x: int | 0 <= x < 65536

  datatype Direction = Inbound | Outbound

  datatype Category = Tcp | Udp | Icmp | Gre | Esp | TcpSyn | Dns | Https | Any

  datatype FlowRecord = FlowRecord(
    srcIp: IpAddr, dstIp: IpAddr, srcPort: u16, dstPort: u16, protocol: u8, tcpFlags: bv8,
    bytes: nat, packets: nat, timeReceived: nat, samplingRate: nat)
  {
    function SampledBytes(): nat { bytes * samplingRate }

    function SampledPackets(): nat { packets * samplingRate }

    /** The end of the flow that a rule of this direction protects. */
    function Endpoint(direction: Direction): IpAddr {
      if direction == Inbound then dstIp else srcIp
    }
  }

  /** `ProtocolCategory::classify`, in the order in which it pushes. */
  function Classify(protocol: u8, tcpFlags: bv8, dstPort: u16): seq<Category> {
    [Any] + (
      if protocol == 6 then
        [Tcp] + (if tcpFlags & 0x02 != 0 then [TcpSyn] else [])
              + (if dstPort == 443 then [Https] else [])
              + (if dstPort == 53 then [Dns] else [])
      else if protocol == 17 then [Udp] + (if dstPort == 53 then [Dns] else [])
      else if protocol == 1 || protocol == 58 then [Icmp]
      else if protocol == 47 then [Gre]
      else if protocol == 50 then [Esp]
      else [])
  }

  function Categories(f: FlowRecord): seq<Category> {
    Classify(f.protocol, f.tcpFlags, f.dstPort)
  }

  /** What belonging to a category means. */
  predicate InCategory(f: FlowRecord, c: Category) {
    || c == Any
    || (c == Tcp && f.protocol == 6)
    || (c == Udp && f.protocol == 17)
    || (c == Icmp && (f.protocol == 1 || f.protocol == 58))
    || (c == Gre && f.protocol == 47)
    || (c == Esp && f.protocol == 50)
    || (c == TcpSyn && f.protocol == 6 && f.tcpFlags & 0x02 != 0)
    || (c == Dns && (f.protocol == 6 || f.protocol == 17) && f.dstPort == 53)
    || (c == Https && f.protocol == 6 && f.dstPort == 443)
  }

  /** `classify` lists exactly the categories a flow belongs to, each of them once. */
  lemma ClassifyIsExact(f: FlowRecord)
    ensures forall c :: c in Categories(f) <==> InCategory(f, c)
    ensures forall i, j :: 0 <= i < j < |Categories(f)| ==> Categories(f)[i] != Categories(f)[j]
  {
    var cs := Categories(f);
    forall c ensures c in cs <==> InCategory(f, c) {
      if f.protocol == 6 {
        assert cs == [Any, Tcp] + (if f.tcpFlags & 0x02 != 0 then [TcpSyn] else [])
                  + (if f.dstPort == 443 then [Https] else [])
                  + (if f.dstPort == 53 then [Dns] else []);
      }
    }
  }

  // ---------------------------------------------------------------- lists of flows

  type FlowPred = FlowRecord -> bool

  function Where(flows: seq<FlowRecord>, p: FlowPred): (r: seq<FlowRecord>)
  {
    if flows == [] then [] else
      var n := |flows| - 1;
      Where(flows[..n], p) + if p(flows[n]) then [flows[n]] else []
  }

  function Bytes(flows: seq<FlowRecord>): nat {
    if flows == [] then 0 else
      var n := |flows| - 1;
      Bytes(flows[..n]) + flows[n].SampledBytes()
  }

  /** Bytes carried by the flows that satisfy `p`. */
  function BytesWhere(flows: seq<FlowRecord>, p: FlowPred): nat {
    if flows == [] then 0 else
      var n := |flows| - 1;
      BytesWhere(flows[..n], p) + if p(flows[n]) then flows[n].SampledBytes() else 0
  }

  lemma {:induction false} WhereFacts(flows: seq<FlowRecord>, p: FlowPred)
    ensures forall f :: f in Where(flows, p) <==> f in flows && p(f)
    ensures Bytes(Where(flows, p)) == BytesWhere(flows, p)
    ensures |Where(flows, p)| <= |flows|
  {
    if flows != [] {
      var n := |flows| - 1;
      WhereFacts(flows[..n], p);
      assert flows == flows[..n] + [flows[n]];
      if p(flows[n]) {
        var w := Where(flows, p);
        assert w[..|w| - 1] == Where(flows[..n], p);
      } else {
        assert Where(flows, p) == Where(flows[..n], p);
      }
    }
  }

  /** Pointwise implication of selections gives an inequality of byte sums. */
  lemma {:induction false} BytesWhereMonotone(flows: seq<FlowRecord>, p: FlowPred, q: FlowPred)
    requires forall f :: f in flows && p(f) ==> q(f)
    ensures BytesWhere(flows, p) <= BytesWhere(flows, q) <= Bytes(flows)
  {
    if flows != [] {
      var n := |flows| - 1;
      BytesWhereMonotone(flows[..n], p, q);
      assert flows[n] in flows;
    }
  }

  lemma BytesWhereSame(flows: seq<FlowRecord>, p: FlowPred, q: FlowPred)
    requires forall f :: f in flows ==> p(f) == q(f)
    ensures BytesWhere(flows, p) == BytesWhere(flows, q)
  {
    BytesWhereMonotone(flows, p, q);
    BytesWhereMonotone(flows, q, p);
  }

  /** Two selections that exclude each other add up to the selection that is their union. */
  lemma {:induction false} BytesWhereDisjointUnion(
    flows: seq<FlowRecord>, p: FlowPred, q: FlowPred, union: FlowPred)
    requires forall f :: f in flows ==> !(p(f) && q(f)) && (union(f) <==> p(f) || q(f))
    ensures BytesWhere(flows, p) + BytesWhere(flows, q) == BytesWhere(flows, union)
  {
    if flows != [] {
      var n := |flows| - 1;
      BytesWhereDisjointUnion(flows[..n], p, q, union);
      assert flows[n] in flows;
    }
  }

  lemma {:induction false} BytesWhereAll(flows: seq<FlowRecord>, p: FlowPred)
    requires forall f :: f in flows ==> p(f)
    ensures BytesWhere(flows, p) == Bytes(flows)
  {
    if flows != [] {
      var n := |flows| - 1;
      BytesWhereAll(flows[..n], p);
      assert flows[n] in flows;
    }
  }

  lemma {:induction false} BytesWhereNone(flows: seq<FlowRecord>, p: FlowPred)
    requires forall f :: f in flows ==> !p(f)
    ensures BytesWhere(flows, p) == 0
  {
    if flows != [] {
      BytesWhereNone(flows[..|flows| - 1], p);
    }
  }

  lemma {:induction false} PositiveBytesHaveAFlow(flows: seq<FlowRecord>, p: FlowPred) returns (f: FlowRecord)
    requires BytesWhere(flows, p) > 0
    ensures f in flows && p(f)
  {
    var n := |flows| - 1;
    if p(flows[n]) {
      f := flows[n];
    } else {
      f := PositiveBytesHaveAFlow(flows[..n], p);
    }
  }

  lemma MultisetPush(s: seq<FlowRecord>, f: FlowRecord)
    ensures multiset(s + [f]) == multiset(s) + multiset{f}
  {
  }

  /** A selection and its complement split the list: no flow is lost or counted twice. */
  lemma {:induction false} WhereSplits(flows: seq<FlowRecord>, p: FlowPred, q: FlowPred)
    requires forall f :: f in flows ==> (q(f) <==> !p(f))
    ensures multiset(Where(flows, p)) + multiset(Where(flows, q)) == multiset(flows)
  {
    if flows != [] {
      var n := |flows| - 1;
      var f, wp, wq := flows[n], Where(flows[..n], p), Where(flows[..n], q);
      WhereSplits(flows[..n], p, q);
      assert multiset(flows) == multiset(flows[..n]) + multiset{f} by {
        assert flows == flows[..n] + [f];
        MultisetPush(flows[..n], f);
      }
      assert f in flows;
      if p(f) {
        assert Where(flows, p) == wp + [f] && Where(flows, q) == wq;
        MultisetPush(wp, f);
      } else {
        assert Where(flows, p) == wp && Where(flows, q) == wq + [f];
        MultisetPush(wq, f);
      }
    }
  }

  /** The sum of a weight over the flows that satisfy `p`. */
  function SumOver(flows: seq<FlowRecord>, p: FlowPred, weight: FlowRecord -> nat): nat {
    if flows == [] then 0 else
      var n := |flows| - 1;
      SumOver(flows[..n], p, weight) + if p(flows[n]) then weight(flows[n]) else 0
  }

  /** What a flow stands for: its bytes or packets times its sampling rate. */
  function ByteWeight(): FlowRecord -> nat {
    (f: FlowRecord) => f.bytes * f.samplingRate
  }

  function PacketWeight(): FlowRecord -> nat {
    (f: FlowRecord) => f.packets * f.samplingRate
  }

  /** All byte totals count the bytes of a flow times its sampling rate. */
  lemma {:induction false} BytesAreSampled(flows: seq<FlowRecord>, p: FlowPred)
    ensures BytesWhere(flows, p) == SumOver(flows, p, ByteWeight())
    ensures (forall f :: f in flows ==> p(f)) ==> Bytes(flows) == SumOver(flows, p, ByteWeight())
  {
    if flows != [] {
      var n := |flows| - 1;
      BytesAreSampled(flows[..n], p);
      assert flows[n] in flows;
    }
  }

  /** The exact sum of the sampled bytes, as the source's iterator sums compute it. */
  method SumBytes(flows: seq<FlowRecord>) returns (total: nat)
    ensures total == Bytes(flows)
  {
    total := 0;
    for i := 0 to |flows|
      invariant total == Bytes(flows[..i])
    {
      assert flows[..i + 1][..i] == flows[..i];
      total := total + flows[i].SampledBytes();
    }
    assert flows[..|flows|] == flows;
  }
}
