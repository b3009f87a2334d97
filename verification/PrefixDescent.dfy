/** `compute_destination_prefix`: the greedy descent of the binary prefix tree, and the proof
    that what it returns is the narrowest prefix that carries the dominant share of the bytes. */
module PrefixDescent {
  import opened Network
  import opened Flows

  /** The dominant ratio 0.8 of the only caller, compared without division. */
  predicate Dominant(bytes: nat, total: nat) {
    bytes * 5 >= total * 4
  }

  /** Selects the flows whose protected endpoint lies in `p`. */
  function EndsIn(direction: Direction, p: IpNet): FlowPred {
    (f: FlowRecord) => Contains(p, f.Endpoint(direction))
  }

  function BytesIn(flows: seq<FlowRecord>, direction: Direction, p: IpNet): nat {
    BytesWhere(flows, EndsIn(direction, p))
  }

  ghost predicate DominantIn(flows: seq<FlowRecord>, direction: Direction, p: IpNet) {
    Dominant(BytesIn(flows, direction, p), Bytes(flows))
  }

  /** The specification: `r` lies in the rule prefix, carries the dominant share if it was
      narrowed at all, and is inside every strict sub-prefix that carries that share. */
  ghost predicate NarrowestDominant(flows: seq<FlowRecord>, direction: Direction, prefix: IpNet, r: IpNet) {
    && Aligned(r)
    && Within(r, prefix)
    && (r.len > prefix.len ==> DominantIn(flows, direction, r))
    && (forall q: IpNet ::
          Within(q, prefix) && q.len > prefix.len && DominantIn(flows, direction, q) ==> Within(r, q))
  }

  /** The specification with its arithmetic written out. */
  lemma NarrowedOutright(flows: seq<FlowRecord>, direction: Direction, prefix: IpNet, r: IpNet)
    requires NarrowestDominant(flows, direction, prefix, r)
    ensures var held := (p: IpNet) => BytesWhere(flows, (f: FlowRecord) =>
        Contains(p, if direction == Inbound then f.dstIp else f.srcIp));
      && r.len >= prefix.len && Contains(prefix, r.addr)
      && (r.len > prefix.len ==> held(r) * 5 >= Bytes(flows) * 4)
      && (forall q: IpNet :: q.len > prefix.len && Contains(prefix, q.addr) && held(q) * 5 >= Bytes(flows) * 4 ==>
            r.len >= q.len && Contains(q, r.addr))
  {
    var held := (p: IpNet) => BytesWhere(flows, (f: FlowRecord) =>
      Contains(p, if direction == Inbound then f.dstIp else f.srcIp));
    forall q: IpNet ensures held(q) == BytesIn(flows, direction, q) {
      BytesWhereSame(flows, (f: FlowRecord) => Contains(q, if direction == Inbound then f.dstIp else f.srcIp),
        EndsIn(direction, q));
    }
    forall q: IpNet | q.len > prefix.len && Contains(prefix, q.addr) && held(q) * 5 >= Bytes(flows) * 4
      ensures r.len >= q.len && Contains(q, r.addr)
    {
      assert Within(q, prefix) && DominantIn(flows, direction, q);
    }
  }

  /** The specification leaves no choice. */
  lemma NarrowestDominantIsUnique(flows: seq<FlowRecord>, direction: Direction, prefix: IpNet, r: IpNet, s: IpNet)
    requires NarrowestDominant(flows, direction, prefix, r) && NarrowestDominant(flows, direction, prefix, s)
    ensures r == s
  {
    if r.len > prefix.len {
      assert Within(s, r);
      assert Within(r, s);
    } else if s.len > prefix.len {
      assert false;
    } else {
      assert Within(Trunc(prefix), prefix) && Within(prefix, Trunc(prefix));
      WithinTransitive(prefix, Trunc(prefix), Trunc(prefix));
      NestedIfOverlapping(r, prefix, r.addr);
      NestedIfOverlapping(s, prefix, s.addr);
      SymmetricAtEqualLength(r, prefix);
      SymmetricAtEqualLength(s, prefix);
      WithinTransitive(r, prefix, s);
      WithinTransitive(s, prefix, r);
    }
    WithinAntisymmetric(r, s);
  }

  lemma SymmetricAtEqualLength(a: IpNet, b: IpNet)
    requires Within(a, b) && a.len == b.len
    ensures Within(b, a)
  {
  }

  /** Two prefixes that each carry 4/5 of a positive total share a flow, so they are nested. */
  lemma DominantAreNested(flows: seq<FlowRecord>, direction: Direction, p: IpNet, q: IpNet)
    requires Bytes(flows) > 0 && DominantIn(flows, direction, p) && DominantIn(flows, direction, q)
    ensures Within(p, q) || Within(q, p)
  {
    var inP, inQ := EndsIn(direction, p), EndsIn(direction, q);
    var both: FlowPred := f => inP(f) && inQ(f);
    var onlyP: FlowPred := f => inP(f) && !inQ(f);
    var either: FlowPred := f => inP(f) || inQ(f);
    BytesWhereDisjointUnion(flows, both, onlyP, inP);
    BytesWhereDisjointUnion(flows, onlyP, inQ, either);
    BytesWhereMonotone(flows, either, either);
    var f := PositiveBytesHaveAFlow(flows, both);
    NestedIfOverlapping(p, q, f.Endpoint(direction));
  }

  lemma BytesInMonotone(flows: seq<FlowRecord>, direction: Direction, inner: IpNet, outer: IpNet)
    requires Within(inner, outer)
    ensures BytesIn(flows, direction, inner) <= BytesIn(flows, direction, outer)
  {
    forall f | f in flows && EndsIn(direction, inner)(f) ensures EndsIn(direction, outer)(f) {
      WithinContains(inner, outer, f.Endpoint(direction));
    }
    BytesWhereMonotone(flows, EndsIn(direction, inner), EndsIn(direction, outer));
  }

  /** Where the descent stops, the specification holds. */
  lemma DescentIsOptimal(flows: seq<FlowRecord>, direction: Direction, prefix: IpNet, current: IpNet)
    requires Bytes(flows) > 0 && Aligned(current) && Within(current, prefix)
    requires if current.len > prefix.len then DominantIn(flows, direction, current) else Within(prefix, current)
    requires current.len < Width(current.addr.family) ==>
      !DominantIn(flows, direction, Child(current, 0)) && !DominantIn(flows, direction, Child(current, 1))
    ensures NarrowestDominant(flows, direction, prefix, current)
  {
    forall q: IpNet | Within(q, prefix) && q.len > prefix.len && DominantIn(flows, direction, q)
      ensures Within(current, q)
    {
      if current.len > prefix.len {
        DominantAreNested(flows, direction, q, current);
      } else {
        WithinTransitive(q, prefix, current);
      }
      if !Within(current, q) {
        if q.len == current.len {
          SymmetricAtEqualLength(q, current);
        } else {
          StrictlyWithinAChild(q, current);
          var upper := if Within(q, Child(current, 0)) then 0 else 1;
          BytesInMonotone(flows, direction, q, Child(current, upper));
        }
        assert false;
      }
    }
  }

  // ---------------------------------------------------------------- the algorithm

  /** Selects the flows whose endpoint is one of `addrs` and lies in `p`. */
  ghost function EndsAmong(direction: Direction, addrs: set<IpAddr>, p: IpNet): FlowPred {
    (f: FlowRecord) => f.Endpoint(direction) in addrs && Contains(p, f.Endpoint(direction))
  }

  ghost function EndsAt(direction: Direction, ip: IpAddr): FlowPred {
    (f: FlowRecord) => f.Endpoint(direction) == ip
  }

  /** The per-address totals that the source accumulates in a hash map. */
  ghost predicate CountsOf(flows: seq<FlowRecord>, direction: Direction, counts: map<IpAddr, nat>) {
    && (forall f :: f in flows ==> f.Endpoint(direction) in counts)
    && (forall ip :: ip in counts ==> counts[ip] == BytesWhere(flows, EndsAt(direction, ip)))
  }

  lemma CountsStep(flows: seq<FlowRecord>, direction: Direction, counts: map<IpAddr, nat>, f: FlowRecord)
    requires CountsOf(flows, direction, counts)
    ensures var ip := f.Endpoint(direction);
      CountsOf(flows + [f], direction, counts[ip := (if ip in counts then counts[ip] else 0) + f.SampledBytes()])
  {
    var ip := f.Endpoint(direction);
    assert (flows + [f])[..|flows|] == flows;
    if ip !in counts && BytesWhere(flows, EndsAt(direction, ip)) > 0 {
      var g := PositiveBytesHaveAFlow(flows, EndsAt(direction, ip));
    }
  }

  method CountBytes(flows: seq<FlowRecord>, direction: Direction) returns (counts: map<IpAddr, nat>)
    ensures CountsOf(flows, direction, counts)
  {
    counts := map[];
    for i := 0 to |flows|
      invariant CountsOf(flows[..i], direction, counts)
    {
      var ip := flows[i].Endpoint(direction);
      CountsStep(flows[..i], direction, counts, flows[i]);
      assert flows[..i + 1] == flows[..i] + [flows[i]];
      counts := counts[ip := (if ip in counts then counts[ip] else 0) + flows[i].SampledBytes()];
    }
    assert flows[..|flows|] == flows;
  }

  lemma AllAddresses(flows: seq<FlowRecord>, direction: Direction, addrs: set<IpAddr>, p: IpNet)
    requires forall f :: f in flows ==> f.Endpoint(direction) in addrs
    ensures BytesWhere(flows, EndsAmong(direction, addrs, p)) == BytesIn(flows, direction, p)
  {
    BytesWhereSame(flows, EndsAmong(direction, addrs, p), EndsIn(direction, p));
  }

  lemma AddAddress(flows: seq<FlowRecord>, direction: Direction, addrs: set<IpAddr>, ip: IpAddr, p: IpNet)
    requires ip !in addrs
    ensures BytesWhere(flows, EndsAmong(direction, addrs + {ip}, p))
         == BytesWhere(flows, EndsAmong(direction, addrs, p))
          + if Contains(p, ip) then BytesWhere(flows, EndsAt(direction, ip)) else 0
  {
    var before, after := EndsAmong(direction, addrs, p), EndsAmong(direction, addrs + {ip}, p);
    if Contains(p, ip) {
      BytesWhereDisjointUnion(flows, before, EndsAt(direction, ip), after);
    } else {
      BytesWhereSame(flows, before, after);
    }
  }

  /** The bytes of one half of the current prefix, summed over the hash map in any order. */
  method BytesUnder(counts: map<IpAddr, nat>, p: IpNet, ghost flows: seq<FlowRecord>, ghost direction: Direction)
    returns (bytes: nat)
    requires CountsOf(flows, direction, counts)
    ensures bytes == BytesIn(flows, direction, p)
  {
    bytes := 0;
    var todo := counts.Keys;
    BytesWhereNone(flows, EndsAmong(direction, counts.Keys - todo, p));
    while todo != {}
      invariant todo <= counts.Keys
      invariant bytes == BytesWhere(flows, EndsAmong(direction, counts.Keys - todo, p))
      decreases |todo|
    {
      var ip :| ip in todo;
      AddAddress(flows, direction, counts.Keys - todo, ip, p);
      assert counts.Keys - todo + {ip} == counts.Keys - (todo - {ip});
      bytes := bytes + if Contains(p, ip) then counts[ip] else 0;
      todo := todo - {ip};
    }
    AllAddresses(flows, direction, counts.Keys - todo, p);
  }

  /** A list without bytes leaves the rule prefix as configured, host bits included. */
  method ComputeDestinationPrefix(flows: seq<FlowRecord>, direction: Direction, prefix: IpNet) returns (r: IpNet)
    ensures Bytes(flows) == 0 ==> r == prefix
    ensures Bytes(flows) > 0 ==> NarrowestDominant(flows, direction, prefix, r)
  {
    var total := SumBytes(flows);
    if total == 0 {
      return prefix;
    }
    var counts := CountBytes(flows, direction);
    var maxLen := Width(prefix.addr.family);
    var current := Trunc(prefix);
    while current.len < maxLen
      invariant current.addr.family == prefix.addr.family && current.len >= prefix.len
      invariant Aligned(current) && Within(current, prefix)
      invariant if current.len > prefix.len then DominantIn(flows, direction, current) else Within(prefix, current)
      decreases maxLen - current.len
    {
      var lower, upper := Child(current, 0), Child(current, 1);
      var lowerBytes := BytesUnder(counts, lower, flows, direction);
      var upperBytes := BytesUnder(counts, upper, flows, direction);
      // `max_by_key` keeps the last of equal maxima.
      var busiest, bytes := upper, upperBytes;
      if lowerBytes > upperBytes {
        busiest, bytes := lower, lowerBytes;
      }
      if !Dominant(bytes, total) {
        DescentIsOptimal(flows, direction, prefix, current);
        return current;
      }
      ChildWithin(current, 0);
      ChildWithin(current, 1);
      WithinTransitive(busiest, current, prefix);
      current := busiest;
    }
    DescentIsOptimal(flows, direction, prefix, current);
    return current;
  }
}
