/** The sliding-window ring buffer: one bucket per second modulo the window, reset lazily.
    It is proved to be a fast form of "sum over the samples of the last W seconds". */
module RingBuffers {
  import opened Network

  /** One call of `add_instant_flow`. */
  datatype Sample = Sample(t: nat, bytes: nat, packets: nat)

  datatype Totals = Totals(bytes: nat, packets: nat, flows: nat) {
    function Plus(other: Totals): Totals {
      Totals(bytes + other.bytes, packets + other.packets, flows + other.flows)
    }

    /** `k` times this. */
    function Times(k: nat): Totals {
      if k == 0 then Zero() else Times(k - 1).Plus(this)
    }

    predicate AtMost(other: Totals) {
      bytes <= other.bytes && packets <= other.packets && flows <= other.flows
    }
  }

  function Zero(): Totals {
    Totals(0, 0, 0)
  }

  function TotalsOf(s: Sample): Totals {
    Totals(s.bytes, s.packets, 1)
  }

  datatype Bucket = Bucket(timestamp: nat, totals: Totals)

  // ---------------------------------------------------------------- the direct sums

  /** What the history holds for second `t`. */
  function SumAt(h: seq<Sample>, t: nat): Totals {
    if h == [] then Zero() else
      var n := |h| - 1;
      if h[n].t == t then SumAt(h[..n], t).Plus(TotalsOf(h[n])) else SumAt(h[..n], t)
  }

  /** What the history holds for the seconds `lo <= t < hi`. */
  function SumBetween(h: seq<Sample>, lo: int, hi: int): Totals {
    if h == [] then Zero() else
      var n := |h| - 1;
      if lo <= h[n].t < hi then SumBetween(h[..n], lo, hi).Plus(TotalsOf(h[n])) else SumBetween(h[..n], lo, hi)
  }

  /** The window of the last `w` seconds at time `now`. */
  function WindowSum(h: seq<Sample>, w: nat, now: nat): Totals {
    SumBetween(h, now - w + 1, now + 1)
  }

  lemma PlusRearranges(a: Totals, b: Totals, c: Totals)
    ensures a.Plus(b).Plus(c) == a.Plus(c).Plus(b) == a.Plus(b.Plus(c))
  {
  }

  /** Sums of parts that do not exceed the parts of another sum agree only part by part. */
  lemma PlusIsExactIff(a: Totals, b: Totals, c: Totals, d: Totals)
    requires a.AtMost(c) && b.AtMost(d)
    ensures a.Plus(b).AtMost(c.Plus(d))
    ensures a.Plus(b) == c.Plus(d) <==> a == c && b == d
  {
  }

  lemma {:induction false} SumBetweenSplits(h: seq<Sample>, t: nat, hi: int)
    requires t < hi
    ensures SumBetween(h, t, hi) == SumAt(h, t).Plus(SumBetween(h, t + 1, hi))
  {
    if h != [] {
      var n := |h| - 1;
      SumBetweenSplits(h[..n], t, hi);
      PlusRearranges(SumAt(h[..n], t), SumBetween(h[..n], t + 1, hi), TotalsOf(h[n]));
    }
  }

  lemma {:induction false} SumBetweenEmpty(h: seq<Sample>, lo: int, hi: int)
    requires hi <= lo
    ensures SumBetween(h, lo, hi) == Zero()
  {
    if h != [] {
      SumBetweenEmpty(h[..|h| - 1], lo, hi);
    }
  }

  /** Times are never negative, so a window that starts before 0 starts at 0. */
  lemma {:induction false} SumBetweenFromZero(h: seq<Sample>, lo: int, hi: int)
    requires lo <= 0
    ensures SumBetween(h, lo, hi) == SumBetween(h, 0, hi)
  {
    if h != [] {
      SumBetweenFromZero(h[..|h| - 1], lo, hi);
    }
  }

  // ---------------------------------------------------------------- the specification of the buckets

  function Touch(b: Bucket, s: Sample): Bucket {
    if b.timestamp == s.t then Bucket(s.t, b.totals.Plus(TotalsOf(s))) else Bucket(s.t, TotalsOf(s))
  }

  /** The bucket in slot `idx` after the history `h`. */
  function Slot(h: seq<Sample>, w: nat, idx: nat): Bucket
    requires w > 0
  {
    if h == [] then Bucket(0, Zero()) else
      var n := |h| - 1;
      if h[n].t % w == idx then Touch(Slot(h[..n], w, idx), h[n]) else Slot(h[..n], w, idx)
  }

  /** What the ring answers for second `t`. */
  function Kept(h: seq<Sample>, w: nat, t: nat): Totals
    requires w > 0
  {
    var b := Slot(h, w, t % w);
    if b.timestamp == t then b.totals else Zero()
  }

  /** No sample of second `t` is followed by a sample of another second of the same slot. */
  ghost predicate NotOverwritten(h: seq<Sample>, w: nat, t: nat)
    requires w > 0
  {
    forall i, j :: 0 <= i < j < |h| && h[i].t == t && h[j].t % w == t % w ==> h[j].t == t
  }

  lemma {:induction false} NoSamplesNothingSummed(h: seq<Sample>, t: nat)
    ensures SumAt(h, t).flows == 0 <==> (forall i :: 0 <= i < |h| ==> h[i].t != t)
    ensures SumAt(h, t).flows == 0 ==> SumAt(h, t) == Zero()
  {
    if h != [] {
      var n := |h| - 1;
      NoSamplesNothingSummed(h[..n], t);
      assert forall i :: 0 <= i < n ==> h[..n][i] == h[i];
    }
  }

  lemma NotOverwrittenStep(h: seq<Sample>, w: nat, t: nat, s: Sample)
    requires w > 0
    ensures NotOverwritten(h + [s], w, t) <==>
      if s.t != t && s.t % w == t % w then SumAt(h, t).flows == 0 else NotOverwritten(h, w, t)
  {
    var h' := h + [s];
    NoSamplesNothingSummed(h, t);
    assert forall i :: 0 <= i < |h| ==> h'[i] == h[i];
    assert h'[|h|] == s;
    if NotOverwritten(h', w, t) {
      forall i, j | 0 <= i < j < |h| && h[i].t == t && h[j].t % w == t % w ensures h[j].t == t {
        assert h'[i].t == t && h'[j].t % w == t % w;
      }
      if s.t != t && s.t % w == t % w {
        forall i | 0 <= i < |h| ensures h[i].t != t {
          if h'[i].t == t {
            assert false;
          }
        }
      }
    }
  }

  /** The ring never answers more than the direct sum for a second, and it answers all of it
      exactly when that second was not overwritten. */
  lemma {:induction false} KeptIsExactIff(h: seq<Sample>, w: nat, t: nat)
    requires w > 0
    ensures Kept(h, w, t).AtMost(SumAt(h, t))
    ensures Kept(h, w, t) == SumAt(h, t) <==> NotOverwritten(h, w, t)
    ensures Kept(h, w, t).flows == SumAt(h, t).flows ==> Kept(h, w, t) == SumAt(h, t)
  {
    NoSamplesNothingSummed(h, t);
    if h != [] {
      var n := |h| - 1;
      var s := h[n];
      KeptIsExactIff(h[..n], w, t);
      NoSamplesNothingSummed(h[..n], t);
      NotOverwrittenStep(h[..n], w, t, s);
      assert h == h[..n] + [s];
      if s.t == t {
        assert SumAt(h, t) == SumAt(h[..n], t).Plus(TotalsOf(s));
        assert Kept(h, w, t) == Kept(h[..n], w, t).Plus(TotalsOf(s));
      } else if s.t % w == t % w {
        assert Kept(h, w, t) == Zero() && SumAt(h, t) == SumAt(h[..n], t);
      } else {
        assert Kept(h, w, t) == Kept(h[..n], w, t) && SumAt(h, t) == SumAt(h[..n], t);
      }
    }
  }

  /** A sample of another second that shares the slot of `t`. */
  predicate Evicts(s: Sample, w: nat, t: nat)
    requires w > 0
  {
    s.t != t && s.t % w == t % w
  }

  /** The place just after the last sample that evicted second `t`. */
  function Restart(h: seq<Sample>, w: nat, t: nat): (k: nat)
    requires w > 0
    ensures k <= |h|
    ensures k > 0 ==> Evicts(h[k - 1], w, t)
    ensures forall j :: k <= j < |h| ==> !Evicts(h[j], w, t)
  {
    if h == [] then 0 else
      var n := |h| - 1;
      if Evicts(h[n], w, t) then |h| else
        var k := Restart(h[..n], w, t);
        assert forall j :: 0 <= j < n ==> h[..n][j] == h[j];
        k
  }

  lemma SumAtPush(h: seq<Sample>, s: Sample, t: nat)
    ensures SumAt(h + [s], t) == if s.t == t then SumAt(h, t).Plus(TotalsOf(s)) else SumAt(h, t)
  {
    assert (h + [s])[..|h|] == h;
  }

  lemma KeptPush(h: seq<Sample>, s: Sample, w: nat, t: nat)
    requires w > 0
    ensures Kept(h + [s], w, t) ==
      if s.t == t then Kept(h, w, t).Plus(TotalsOf(s)) else if Evicts(s, w, t) then Zero() else Kept(h, w, t)
  {
    assert (h + [s])[..|h|] == h;
  }

  lemma RestartPush(h: seq<Sample>, s: Sample, w: nat, t: nat)
    requires w > 0
    ensures Restart(h + [s], w, t) == if Evicts(s, w, t) then |h| + 1 else Restart(h, w, t)
  {
    assert (h + [s])[..|h|] == h;
  }

  /** What a bucket holds in every case, for every arrival order: exactly the samples of its
      second that arrived after the second was last evicted. */
  lemma {:induction false} KeptIsSinceRestart(h: seq<Sample>, w: nat, t: nat)
    requires w > 0
    ensures Kept(h, w, t) == SumAt(h[Restart(h, w, t)..], t)
  {
    if h != [] {
      var n := |h| - 1;
      var init, s := h[..n], h[n];
      KeptIsSinceRestart(init, w, t);
      assert h == init + [s];
      KeptPush(init, s, w, t);
      RestartPush(init, s, w, t);
      if Evicts(s, w, t) {
        assert h[|h|..] == [];
      } else {
        var k := Restart(init, w, t);
        SumAtPush(init[k..], s, t);
        assert h[k..] == init[k..] + [s];
      }
    }
  }

  // ---------------------------------------------------------------- one query

  /** The second that step `i` of the query looks at, with saturating subtraction. */
  function Back(now: nat, i: nat): nat {
    if now >= i then now - i else 0
  }

  /** The total after the first `n` steps of the query. */
  function RingTotal(h: seq<Sample>, w: nat, now: nat, n: nat): Totals
    requires w > 0
  {
    if n == 0 then Zero() else RingTotal(h, w, now, n - 1).Plus(Kept(h, w, Back(now, n - 1)))
  }

  /** How often the query looks at second 0 beyond the first time. */
  function Extra(now: nat, n: nat): nat {
    if n > now + 1 then n - (now + 1) else 0
  }

  /** What the query would answer from the direct sums. */
  function ExpectedTotal(h: seq<Sample>, now: nat, n: nat): Totals {
    SumBetween(h, now - n + 1, now + 1).Plus(SumAt(h, 0).Times(Extra(now, n)))
  }

  lemma ExpectedStep(h: seq<Sample>, now: nat, n: nat)
    ensures ExpectedTotal(h, now, n + 1) == ExpectedTotal(h, now, n).Plus(SumAt(h, Back(now, n)))
  {
    if n <= now {
      SumBetweenSplits(h, now - n, now + 1);
    } else {
      SumBetweenFromZero(h, now - n, now + 1);
      SumBetweenFromZero(h, now - n + 1, now + 1);
    }
  }

  /** Soundness for every arrival order and query time: the ring never exceeds the direct
      window sum, plus second 0 once more for each step that saturates there. */
  lemma {:induction false} RingNeverExceeds(h: seq<Sample>, w: nat, now: nat, n: nat)
    requires w > 0
    ensures RingTotal(h, w, now, n).AtMost(ExpectedTotal(h, now, n))
  {
    if n == 0 {
      SumBetweenEmpty(h, now + 1, now + 1);
    } else {
      RingNeverExceeds(h, w, now, n - 1);
      ExpectedStep(h, now, n - 1);
      KeptIsExactIff(h, w, Back(now, n - 1));
    }
  }

  /** No second of the first `n` that the query looks at was overwritten. */
  ghost predicate NoneOverwritten(h: seq<Sample>, w: nat, now: nat, n: nat)
    requires w > 0
  {
    forall i :: 0 <= i < n ==> NotOverwritten(h, w, Back(now, i))
  }

  lemma NoneOverwrittenStep(h: seq<Sample>, w: nat, now: nat, n: nat)
    requires w > 0 && n > 0
    ensures NoneOverwritten(h, w, now, n) <==>
      NoneOverwritten(h, w, now, n - 1) && NotOverwritten(h, w, Back(now, n - 1))
  {
  }

  /** Past start-up the window sum is never exceeded, for any arrival order. */
  lemma RingIsAtMostWindow(h: seq<Sample>, w: nat, now: nat)
    requires w > 0 && now + 1 >= w
    ensures RingTotal(h, w, now, w).AtMost(WindowSum(h, w, now))
  {
    RingNeverExceeds(h, w, now, w);
    assert SumAt(h, 0).Times(0) == Zero();
  }

  /** Exactness: the answer is the expected total if and only if no second that the query
      looks at was overwritten. */
  lemma {:induction false} RingIsExactIff(h: seq<Sample>, w: nat, now: nat, n: nat)
    requires w > 0
    ensures RingTotal(h, w, now, n) == ExpectedTotal(h, now, n) <==> NoneOverwritten(h, w, now, n)
  {
    if n == 0 {
      SumBetweenEmpty(h, now + 1, now + 1);
    } else {
      var t := Back(now, n - 1);
      var ring, expected := RingTotal(h, w, now, n - 1), ExpectedTotal(h, now, n - 1);
      assert RingTotal(h, w, now, n) == ring.Plus(Kept(h, w, t));
      assert ExpectedTotal(h, now, n) == expected.Plus(SumAt(h, t)) by {
        ExpectedStep(h, now, n - 1);
      }
      assert ring.Plus(Kept(h, w, t)) == expected.Plus(SumAt(h, t))
        <==> ring == expected && Kept(h, w, t) == SumAt(h, t) by {
        RingNeverExceeds(h, w, now, n - 1);
        KeptIsExactIff(h, w, t);
        PlusIsExactIff(ring, Kept(h, w, t), expected, SumAt(h, t));
      }
      assert Kept(h, w, t) == SumAt(h, t) <==> NotOverwritten(h, w, t) by {
        KeptIsExactIff(h, w, t);
      }
      RingIsExactIff(h, w, now, n - 1);
      NoneOverwrittenStep(h, w, now, n);
    }
  }

  /** Arrivals are at most `w` seconds late: every sample is later than each earlier one less
      the window. */
  ghost predicate BoundedLateness(h: seq<Sample>, w: nat) {
    forall i, j :: 0 <= i < j < |h| ==> h[j].t + w > h[i].t
  }

  ghost predicate NothingAfter(h: seq<Sample>, now: nat) {
    forall i :: 0 <= i < |h| ==> h[i].t <= now
  }

  lemma SameSlotIsAWindowApart(x: nat, y: nat, w: nat)
    requires w > 0 && x % w == y % w && x < y
    ensures y >= x + w
  {
    assert x == x / w * w + x % w && y == y / w * w + y % w;
    var k := y / w - x / w;
    assert k * w == y - x;
    if k <= 0 {
      MulMonotone(k, 0, w);
      assert false;
    }
    MulMonotone(1, k, w);
  }

  lemma LatenessPreventsOverwriting(h: seq<Sample>, w: nat, now: nat, t: nat)
    requires w > 0 && BoundedLateness(h, w) && NothingAfter(h, now) && now - w < t <= now
    ensures NotOverwritten(h, w, t)
  {
    forall i, j | 0 <= i < j < |h| && h[i].t == t && h[j].t % w == t % w ensures h[j].t == t {
      if h[j].t < t {
        SameSlotIsAWindowApart(h[j].t, t, w);
      } else if h[j].t > t {
        SameSlotIsAWindowApart(t, h[j].t, w);
      }
    }
  }

  lemma LatenessKeepsAll(h: seq<Sample>, w: nat, now: nat)
    requires w > 0 && BoundedLateness(h, w) && NothingAfter(h, now)
    ensures NoneOverwritten(h, w, now, w)
  {
    forall i | 0 <= i < w ensures NotOverwritten(h, w, Back(now, i)) {
      LatenessPreventsOverwriting(h, w, now, Back(now, i));
    }
  }

  lemma NothingExtra(a: Totals, b: Totals)
    ensures a.Plus(b.Times(0)) == a
  {
  }

  /** With bounded lateness and a query at or after every sample, the ring answers the direct
      window sum, for any arrival order; before second `w - 1` it adds second 0 again. */
  lemma RingIsExact(h: seq<Sample>, w: nat, now: nat)
    requires w > 0 && BoundedLateness(h, w) && NothingAfter(h, now)
    ensures RingTotal(h, w, now, w) == WindowSum(h, w, now).Plus(SumAt(h, 0).Times(Extra(now, w)))
    ensures now + 1 >= w ==> RingTotal(h, w, now, w) == WindowSum(h, w, now)
  {
    LatenessKeepsAll(h, w, now);
    RingIsExactIff(h, w, now, w);
    assert ExpectedTotal(h, now, w) == WindowSum(h, w, now).Plus(SumAt(h, 0).Times(Extra(now, w)));
    NothingExtra(WindowSum(h, w, now), SumAt(h, 0));
  }

  /** Right after start-up the plain window sum is met exactly when second 0 is empty. */
  lemma StartUpIsExactIff(h: seq<Sample>, w: nat, now: nat)
    requires w > 0 && BoundedLateness(h, w) && NothingAfter(h, now) && now + 1 < w
    ensures RingTotal(h, w, now, w) == WindowSum(h, w, now) <==> forall i :: 0 <= i < |h| ==> h[i].t != 0
  {
    RingIsExact(h, w, now);
    NoSamplesNothingSummed(h, 0);
    TimesIsZeroIff(SumAt(h, 0), Extra(now, w));
    PlusIsSameIff(WindowSum(h, w, now), SumAt(h, 0).Times(Extra(now, w)));
  }

  lemma PlusIsSameIff(a: Totals, b: Totals)
    ensures a.Plus(b) == a <==> b == Zero()
  {
  }

  lemma TimesIsZeroIff(a: Totals, k: nat)
    requires k > 0
    ensures a.Times(k) == Zero() <==> a == Zero()
  {
    assert a.Times(k) == a.Times(k - 1).Plus(a);
    if a == Zero() {
      TimesZero(k);
    }
  }

  lemma {:induction false} TimesZero(k: nat)
    ensures Zero().Times(k) == Zero()
  {
    if k > 0 {
      TimesZero(k - 1);
    }
  }

  /** The lateness bound is sharp: a sample exactly one window late erases the whole second
      that shares its slot. */
  lemma LateSampleErases(newer: Sample, late: Sample, w: nat)
    requires w > 0 && newer.t == late.t + w
    ensures Kept([newer, late], w, newer.t) == Zero()
    ensures SumAt([newer, late], newer.t) == TotalsOf(newer)
  {
    var h := [newer, late];
    assert h[..1] == [newer] && h[..1][..0] == [];
    ModPlusWindow(late.t, w);
    assert Slot(h, w, newer.t % w) == Touch(Slot(h[..1], w, newer.t % w), late);
    assert SumAt(h, newer.t) == SumAt(h[..1], newer.t);
  }

  lemma ModPlusWindow(t: nat, w: nat)
    requires w > 0
    ensures (t + w) % w == t % w
  {
    var q := t / w;
    assert t == q * w + t % w;
    assert (q + 1) * w == q * w + w;
    DivUnique(t + w, w, q + 1);
    assert t + w == (t + w) / w * w + (t + w) % w;
  }

  // ---------------------------------------------------------------- the class

  /** The three rates of one query, as exact quotients. */
  datatype Rates = Rates(bps: real, pps: real, fps: real)

  /** A window of 0 seconds has no buckets and rates of zero. */
  function RatesOf(totals: Totals, w: nat): Rates {
    if w == 0 then Rates(0.0, 0.0, 0.0) else
      Rates((totals.bytes * 8) as real / w as real,
            totals.packets as real / w as real,
            totals.flows as real / w as real)
  }

  /** Bits, packets and flows per second, multiplied back by the window. */
  ghost predicate AreQuotients(rates: Rates, totals: Totals, w: nat) {
    && rates.bps * w as real == (8 * totals.bytes) as real
    && rates.pps * w as real == totals.packets as real
    && rates.fps * w as real == totals.flows as real
  }

  lemma QuotientTimes(x: real, d: real)
    requires d > 0.0
    ensures (x / d) * d == x
  {
  }

  lemma RatesAreQuotients(totals: Totals, w: nat)
    ensures w > 0 ==> AreQuotients(RatesOf(totals, w), totals, w)
  {
    if w > 0 {
      QuotientTimes((totals.bytes * 8) as real, w as real);
      QuotientTimes(totals.packets as real, w as real);
      QuotientTimes(totals.flows as real, w as real);
    }
  }

  /** The answer of a query after the history `h`. */
  function QueryRates(h: seq<Sample>, w: nat, now: nat): Rates {
    RatesOf(if w == 0 then Zero() else RingTotal(h, w, now, w), w)
  }

  lemma ZeroRates(w: nat)
    ensures RatesOf(Zero(), w) == Rates(0.0, 0.0, 0.0)
  {
    if w > 0 {
      assert 0.0 / w as real == 0.0;
    }
  }

  class RingBuffer {
    const buckets: array<Bucket>
    ghost var history: seq<Sample>

    ghost predicate Valid()
      reads this, buckets
    {
      buckets.Length > 0 ==>
        forall i :: 0 <= i < buckets.Length ==> buckets[i] == Slot(history, buckets.Length, i)
    }

    constructor (windowSecs: nat)
      ensures Valid() && fresh(buckets) && buckets.Length == windowSecs && history == []
    {
      buckets := new Bucket[windowSecs](_ => Bucket(0, Zero()));
      history := [];
    }

    /** The source indexes modulo the window, so a window of 0 seconds cannot take flows. */
    function BucketIndex(t: nat): (idx: nat)
      requires buckets.Length > 0
      ensures idx < buckets.Length
    {
      t % buckets.Length
    }

    /** `get_or_reset_bucket`: a bucket of another second starts over. */
    method GetOrResetBucket(t: nat) returns (idx: nat)
      requires buckets.Length > 0
      modifies buckets
      ensures idx == t % buckets.Length < buckets.Length
      ensures buckets[idx] ==
        if old(buckets[idx]).timestamp == t then old(buckets[idx]) else Bucket(t, Zero())
      ensures forall i :: 0 <= i < buckets.Length && i != idx ==> buckets[i] == old(buckets[i])
    {
      idx := BucketIndex(t);
      if buckets[idx].timestamp != t {
        buckets[idx] := Bucket(t, Zero());
      }
    }

    method AddInstantFlow(t: nat, bytes: nat, packets: nat)
      requires Valid() && buckets.Length > 0
      modifies this`history, buckets
      ensures Valid() && history == old(history) + [Sample(t, bytes, packets)]
    {
      var idx := GetOrResetBucket(t);
      var b := buckets[idx];
      buckets[idx] := Bucket(b.timestamp, b.totals.Plus(Totals(bytes, packets, 1)));
      history := history + [Sample(t, bytes, packets)];
      assert history[..|history| - 1] == old(history);
    }

    method ComputeRates(now: nat) returns (rates: Rates)
      requires Valid()
      ensures rates == QueryRates(history, buckets.Length, now)
      ensures buckets.Length == 0 ==> rates == Rates(0.0, 0.0, 0.0)
      ensures buckets.Length > 0 ==>
        AreQuotients(rates, RingTotal(history, buckets.Length, now, buckets.Length), buckets.Length)
    {
      var window := buckets.Length;
      var totals := Zero();
      var validBuckets := 0;
      for i := 0 to window
        invariant window > 0 ==> totals == RingTotal(history, window, now, i)
        invariant window == 0 || validBuckets == 0 ==> totals == Zero()
      {
        var t := Back(now, i);
        var b := buckets[BucketIndex(t)];
        if b.timestamp == t {
          totals := totals.Plus(b.totals);
          validBuckets := validBuckets + 1;
        }
      }
      if validBuckets == 0 {
        ZeroRates(window);
        RatesAreQuotients(Zero(), window);
        return Rates(0.0, 0.0, 0.0);
      }
      RatesAreQuotients(totals, window);
      rates := RatesOf(totals, window);
    }
  }
}
