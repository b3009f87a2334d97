/** Addresses and prefixes, as the source uses them through the `ipnet` and `std::net` types.
    An address is a number below 2^32 or 2^128; a prefix is an address and a length, and its
    host bits may be set, as `ipnet::IpNet` allows. Prefix containment is block arithmetic. */
module Network {

  datatype Option<+T> = None | Some(value: T)

  function Pow2(n: nat): (r: nat)
    ensures r >= 1
  {
    if n == 0 then 1 else 2 * Pow2(n - 1)
  }

  datatype Family = V4 | V6

  function Width(family: Family): nat {
    if family == V4 then 32 else 128
  }

  /** How many addresses a family has: 2^32 or 2^128. */
  function AddressSpace(family: Family): nat {
    if family == V4 then 0x1_0000_0000 else 0x1_0000_0000_0000_0000_0000_0000_0000_0000
  }

  datatype Address = Address(family: Family, bits: nat)
  type IpAddr = a: Address | a.bits < AddressSpace(a.family) witness Address(V4, 0)

  datatype Prefix = Prefix(addr: IpAddr, len: nat)
  type IpNet = p: Prefix | p.len <= Width(p.addr.family) witness Prefix(Address(V4, 0), 32)

  /** How many addresses a prefix of this length spans. */
  function BlockSize(family: Family, len: nat): (r: nat)
    requires len <= Width(family)
    ensures r >= 1
  {
    Pow2(Width(family) - len)
  }

  /** Which aligned block of the given size an address value falls into. */
  function Block(bits: nat, size: nat): nat
    requires size >= 1
  {
    bits / size
  }

  predicate Contains(p: IpNet, ip: IpAddr) {
    && ip.family == p.addr.family
    && var size := BlockSize(p.addr.family, p.len);
       Block(ip.bits, size) == Block(p.addr.bits, size)
  }

  /** `inner` is `outer` or one of its sub-prefixes. */
  predicate Within(inner: IpNet, outer: IpNet) {
    inner.len >= outer.len && Contains(outer, inner.addr)
  }

  /** No host bits are set. */
  predicate Aligned(p: IpNet) {
    p.addr.bits % BlockSize(p.addr.family, p.len) == 0
  }

  /** The single-address prefix, /32 or /128. */
  function Host(ip: IpAddr): IpNet {
    Prefix(ip, Width(ip.family))
  }

  /** `IpNet::trunc`: the same block with the host bits cleared. */
  function Trunc(p: IpNet): (r: IpNet)
    ensures Aligned(r) && r.len == p.len && Within(r, p) && Within(p, r)
    ensures Aligned(p) ==> r == p
  {
    var size := BlockSize(p.addr.family, p.len);
    FloorFacts(p.addr.bits, size);
    Prefix(Address(p.addr.family, p.addr.bits / size * size), p.len)
  }

  /** Half `upper` (0 or 1) of a truncated prefix, the two values of `subnets(len + 1)`. */
  function Child(p: IpNet, upper: nat): (r: IpNet)
    requires Aligned(p) && p.len < Width(p.addr.family) && upper <= 1
    ensures Aligned(r) && r.len == p.len + 1 && r.addr.family == p.addr.family
    ensures Block(r.addr.bits, BlockSize(r.addr.family, r.len))
         == 2 * Block(p.addr.bits, BlockSize(p.addr.family, p.len)) + upper
  {
    var half := BlockSize(p.addr.family, p.len + 1);
    ChildFacts(p, upper);
    Prefix(Address(p.addr.family, p.addr.bits + upper * half), p.len + 1)
  }

  // ---------------------------------------------------------------- arithmetic of blocks

  lemma DivUnique(x: nat, d: nat, q: nat)
    requires d >= 1 && q * d <= x < q * d + d
    ensures x / d == q
  {
    var r := x - q * d;
    assert x == q * d + r;
    var e := x / d - q;
    assert x == (x / d) * d + x % d;
    assert e * d == r - x % d;
    if e >= 1 {
      MulMonotone(1, e, d);
      assert false;
    } else if e <= -1 {
      MulMonotone(e, -1, d);
      assert false;
    }
  }

  lemma MulMonotone(a: int, b: int, d: nat)
    requires a <= b
    ensures a * d <= b * d
  {
  }

  lemma FloorFacts(x: nat, d: nat)
    requires d >= 1
    ensures 0 <= x / d * d <= x
    ensures (x / d * d) / d == x / d && (x / d * d) % d == 0
    ensures x % d == 0 ==> x / d * d == x
  {
    var q := x / d;
    assert x == q * d + x % d;
    DivUnique(q * d, d, q);
    assert q * d == (q * d) / d * d + (q * d) % d;
  }

  lemma HalveBlock(x: nat, d: nat)
    requires d >= 1
    ensures x / (2 * d) == x / d / 2
  {
    var q := x / d;
    assert x == q * d + x % d;
    var a, b := q / 2, q % 2;
    assert q * d == a * (2 * d) + b * d;
    assert 0 <= b * d <= d;
    DivUnique(x, 2 * d, a);
  }

  /** Dropping `j` more bits of a block number gives the enclosing block. */
  lemma {:induction false} EnclosingBlock(x: nat, k: nat, j: nat)
    ensures x / Pow2(k + j) == x / Pow2(k) / Pow2(j)
    decreases j
  {
    if j == 0 {
      assert Pow2(0) == 1;
    } else {
      var whole, rest, y := Pow2(k + j - 1), Pow2(j - 1), x / Pow2(k);
      EnclosingBlock(x, k, j - 1);
      assert x / whole == y / rest by {
        assert k + (j - 1) == k + j - 1;
      }
      assert x / Pow2(k + j) == x / whole / 2 by {
        HalveBlock(x, whole);
      }
      assert y / Pow2(j) == y / rest / 2 by {
        HalveBlock(y, rest);
      }
    }
  }

  lemma {:induction false} Pow2Adds(a: nat, b: nat)
    ensures Pow2(a + b) == Pow2(a) * Pow2(b)
    decreases b
  {
    if b > 0 {
      Pow2Adds(a, b - 1);
      assert a + b - 1 == a + (b - 1);
    }
  }

  lemma AddressSpaceIsPow2(family: Family)
    ensures AddressSpace(family) == Pow2(Width(family))
  {
    var p8 := Pow2(8);
    assert p8 == 0x100;
    Pow2Adds(8, 8);
    var p16 := Pow2(16);
    assert p16 == 0x1_0000;
    Pow2Adds(16, 16);
    var p32 := Pow2(32);
    assert p32 == 0x1_0000_0000;
    Pow2Adds(32, 32);
    Pow2Adds(64, 64);
  }

  lemma ChildFacts(p: IpNet, upper: nat)
    requires Aligned(p) && p.len < Width(p.addr.family) && upper <= 1
    ensures var half := BlockSize(p.addr.family, p.len + 1);
      var base := p.addr.bits + upper * half;
      && base < AddressSpace(p.addr.family)
      && base % half == 0
      && base / half == 2 * (p.addr.bits / BlockSize(p.addr.family, p.len)) + upper
  {
    var half := BlockSize(p.addr.family, p.len + 1);
    var size := BlockSize(p.addr.family, p.len);
    HalfOfBlock(p.addr.bits, half, upper);
    AddressSpaceIsPow2(p.addr.family);
    Pow2Adds(p.len, Width(p.addr.family) - p.len);
    BlockFits(p.addr.bits, Pow2(p.len), size);
    assert upper * half < size;
  }

  lemma HalfOfBlock(bits: nat, half: nat, upper: nat)
    requires half >= 1 && bits % (2 * half) == 0 && upper <= 1
    ensures (bits + upper * half) % half == 0
    ensures (bits + upper * half) / half == 2 * (bits / (2 * half)) + upper
  {
    var i := bits / (2 * half);
    FloorFacts(bits, 2 * half);
    var base := bits + upper * half;
    assert base == (2 * i + upper) * half by {
      assert i * (2 * half) == (2 * i) * half;
    }
    DivUnique(base, half, 2 * i + upper);
    FloorFacts(base, half);
  }

  /** A multiple of the block size below the end of the space leaves room for its block. */
  lemma BlockFits(bits: nat, blocks: nat, size: nat)
    requires size >= 1 && bits % size == 0 && bits < blocks * size
    ensures bits + size <= blocks * size
  {
    var i := bits / size;
    FloorFacts(bits, size);
    if i >= blocks {
      MulMonotone(blocks, i, size);
      assert false;
    }
    MulMonotone(i + 1, blocks, size);
    assert (i + 1) * size == i * size + size;
  }

  // ---------------------------------------------------------------- the prefix order

  /** Two addresses in one block of a longer prefix are in one block of a shorter prefix. */
  lemma SameBlockCoarser(x: nat, y: nat, family: Family, long: nat, short: nat)
    requires short <= long <= Width(family)
    requires Block(x, BlockSize(family, long)) == Block(y, BlockSize(family, long))
    ensures Block(x, BlockSize(family, short)) == Block(y, BlockSize(family, short))
  {
    EnclosingBlock(x, Width(family) - long, long - short);
    EnclosingBlock(y, Width(family) - long, long - short);
    assert Width(family) - long + (long - short) == Width(family) - short;
  }

  lemma WithinContains(inner: IpNet, outer: IpNet, ip: IpAddr)
    requires Within(inner, outer) && Contains(inner, ip)
    ensures Contains(outer, ip)
  {
    SameBlockCoarser(ip.bits, inner.addr.bits, ip.family, inner.len, outer.len);
  }

  lemma WithinTransitive(a: IpNet, b: IpNet, c: IpNet)
    requires Within(a, b) && Within(b, c)
    ensures Within(a, c)
  {
    WithinContains(b, c, a.addr);
  }

  lemma WithinAntisymmetric(a: IpNet, b: IpNet)
    requires Within(a, b) && Within(b, a) && Aligned(a) && Aligned(b)
    ensures a == b
  {
    var size := BlockSize(a.addr.family, a.len);
    FloorFacts(a.addr.bits, size);
    FloorFacts(b.addr.bits, size);
  }

  /** Prefixes form a tree: two that share an address are nested. */
  lemma NestedIfOverlapping(p: IpNet, q: IpNet, ip: IpAddr)
    requires Contains(p, ip) && Contains(q, ip)
    ensures Within(p, q) || Within(q, p)
  {
    if p.len >= q.len {
      SameBlockCoarser(ip.bits, p.addr.bits, ip.family, p.len, q.len);
    } else {
      SameBlockCoarser(ip.bits, q.addr.bits, ip.family, q.len, p.len);
    }
  }

  /** The two halves of a prefix partition it. */
  lemma ChildrenPartition(p: IpNet, ip: IpAddr)
    requires Aligned(p) && p.len < Width(p.addr.family)
    ensures Contains(p, ip) <==> Contains(Child(p, 0), ip) || Contains(Child(p, 1), ip)
    ensures !(Contains(Child(p, 0), ip) && Contains(Child(p, 1), ip))
  {
    if ip.family == p.addr.family {
      HalveBlock(ip.bits, BlockSize(p.addr.family, p.len + 1));
    }
  }

  /** Every strictly longer prefix inside `p` lies inside one of the halves of `p`. */
  lemma StrictlyWithinAChild(q: IpNet, p: IpNet)
    requires Aligned(p) && Within(q, p) && q.len > p.len
    ensures Within(q, Child(p, 0)) || Within(q, Child(p, 1))
  {
    ChildrenPartition(p, q.addr);
  }

  lemma ChildWithin(p: IpNet, upper: nat)
    requires Aligned(p) && p.len < Width(p.addr.family) && upper <= 1
    ensures Within(Child(p, upper), p)
  {
    ChildrenPartition(p, Child(p, upper).addr);
  }

  lemma HostContains(ip: IpAddr, other: IpAddr)
    ensures Contains(Host(ip), other) <==> other == ip
  {
    assert BlockSize(ip.family, Width(ip.family)) == 1;
  }

  /** `Within` is set inclusion: it compares what the two prefixes contain. */
  lemma WithinIsInclusion(inner: IpNet, outer: IpNet)
    ensures Within(inner, outer) <==> forall ip: IpAddr :: Contains(inner, ip) ==> Contains(outer, ip)
  {
    if Within(inner, outer) {
      forall ip: IpAddr | Contains(inner, ip) ensures Contains(outer, ip) {
        WithinContains(inner, outer, ip);
      }
    } else if forall ip: IpAddr :: Contains(inner, ip) ==> Contains(outer, ip) {
      assert Contains(inner, inner.addr);
      assert Contains(outer, inner.addr) && inner.len < outer.len;
      // Both halves of the shorter prefix would have to lie in one block of the longer one.
      var t := Trunc(inner);
      var lo, hi := Child(t, 0), Child(t, 1);
      ChildWithin(t, 0);
      ChildWithin(t, 1);
      WithinContains(lo, t, lo.addr);
      WithinContains(hi, t, hi.addr);
      WithinContains(t, inner, lo.addr);
      WithinContains(t, inner, hi.addr);
      SameBlockCoarser(lo.addr.bits, hi.addr.bits, lo.addr.family, outer.len, lo.len);
      assert false;
    }
  }

  // ---------------------------------------------------------------- prefixes as ranges

  /** A prefix of length `len` holds the 2^(width - len) addresses of its family from its first one
      on. */
  lemma ContainsIsRange(p: IpNet, ip: IpAddr)
    ensures var size := Pow2(Width(p.addr.family) - p.len);
      var low := p.addr.bits - p.addr.bits % size;
      Contains(p, ip) <==> ip.family == p.addr.family && low <= ip.bits < low + size
  {
    var size := Pow2(Width(p.addr.family) - p.len);
    SameBlockIff(ip.bits, p.addr.bits, size);
  }

  lemma SameBlockIff(x: nat, y: nat, size: nat)
    requires size > 0
    ensures x / size == y / size <==> y - y % size <= x < y - y % size + size
  {
    assert x == x / size * size + x % size && y == y / size * size + y % size;
    if y - y % size <= x < y - y % size + size {
      assert x == y / size * size + (x - (y - y % size));
      DivUnique(x, size, y / size);
    }
  }

  function FirstAddress(p: IpNet): (first: IpAddr)
    ensures first.family == p.addr.family && Contains(p, first)
    ensures first == p.addr <==> Aligned(p)
  {
    assert Trunc(p).addr == p.addr ==> Trunc(p) == p;
    Trunc(p).addr
  }

  lemma FirstIsLowest(p: IpNet, ip: IpAddr)
    requires Contains(p, ip)
    ensures FirstAddress(p).bits <= ip.bits
  {
    var size := BlockSize(p.addr.family, p.len);
    assert FirstAddress(p).bits == ip.bits / size * size;
    FloorFacts(ip.bits, size);
  }

  /** An aligned prefix is written with its first address: it has no host bits. */
  lemma AlignedIff(p: IpNet)
    ensures Aligned(p) <==> forall ip: IpAddr :: Contains(p, ip) ==> p.addr.bits <= ip.bits
  {
    FirstIsLowest(p, p.addr);
    forall ip: IpAddr | Contains(p, ip) ensures FirstAddress(p).bits <= ip.bits {
      FirstIsLowest(p, ip);
    }
    assert Contains(p, FirstAddress(p));
  }
}
