/** The rate arithmetic of tcptop with the time stamp it carries from sample to sample
    (Examples-remote/tcptop/tcptop.c). The signed operations wrap around. */
module RateMeter {
  import opened Text

  const MILLION: int := 1_000_000
  const TWO31: int := 0x8000_0000
  const TWO63: int := 0x8000_0000_0000_0000
  const MAX_BYTES: nat := 1152921504606
  const MAX_PACKETS: nat := 9223372036854
  const MAX_GAP_SECONDS: nat := 2146

  // struct timeval.
  datatype Stamp = Stamp(sec: int, usec: int)

  predicate ValidStamp(t: Stamp) {
    -TWO31 <= t.sec < TWO31 && 0 <= t.usec < MILLION
  }

  function Micros(t: Stamp): int {
    t.sec * MILLION + t.usec
  }

  // The two counters the driver delivers with a time stamp.
  datatype Sample = Sample(ts: Stamp, packets: nat, bytes: nat)

  predicate Signed32Fits(x: int) {
    -TWO31 <= x < TWO31
  }

  // None of the signed 32-bit operations overflows.
  predicate NoOverflow(old_ts: Stamp, ts: Stamp) {
    && Signed32Fits(ts.sec - old_ts.sec) && Signed32Fits((ts.sec - old_ts.sec) * MILLION)
    && Signed32Fits((ts.sec - old_ts.sec) * MILLION - old_ts.usec)
    && Signed32Fits((ts.sec - old_ts.sec) * MILLION - old_ts.usec + ts.usec)
  }

  // The gap in microseconds, modulo 2^32.
  function Delay(old_ts: Stamp, ts: Stamp): (d: nat)
    ensures d < TWO32
  {
    U32(Micros(ts) - Micros(old_ts))
  }

  // A later sample, not too far away.
  predicate Follows(old_ts: Stamp, ts: Stamp) {
    ValidStamp(old_ts) && ValidStamp(ts) && Micros(old_ts) < Micros(ts) && ts.sec - old_ts.sec <= MAX_GAP_SECONDS
  }

  // The subtractions, the product and the sum, each in 32 bits.
  function ComputedDelay(old_ts: Stamp, ts: Stamp): nat {
    var seconds := Signed32(ts.sec - old_ts.sec);
    U32(Signed32(Signed32(Signed32(seconds * MILLION) - old_ts.usec) + ts.usec))
  }

  /** Whatever overflows on the way, the delay computed is the gap in microseconds modulo 2^32. */
  lemma DelayComputed(old_ts: Stamp, ts: Stamp)
    ensures ComputedDelay(old_ts, ts) == Delay(old_ts, ts)
  {
    var a := ts.sec - old_ts.sec;
    var q0 := Signed32Wraps(a);
    var b := Signed32(a) * MILLION;
    var q1 := Signed32Wraps(b);
    var c := Signed32(b) - old_ts.usec;
    var q2 := Signed32Wraps(c);
    var d := Signed32(c) + ts.usec;
    var q3 := Signed32Wraps(d);
    U32Shift(Micros(ts) - Micros(old_ts), q0 * MILLION + q1 + q2 + q3);
  }

  /** So it is the gap itself exactly when the gap is not negative and below 2^32; a run of
      samples at most 2146 seconds apart meets this, and there no operation overflows. */
  lemma DelayIsGap(old_ts: Stamp, ts: Stamp)
    ensures ComputedDelay(old_ts, ts) == Micros(ts) - Micros(old_ts)
       <==> 0 <= Micros(ts) - Micros(old_ts) < TWO32
    ensures Follows(old_ts, ts) ==> NoOverflow(old_ts, ts) && 0 < Micros(ts) - Micros(old_ts) < TWO32
  {
    DelayComputed(old_ts, ts);
  }

  // ---- Rates ----

  // The exact rate: units in delay microseconds, per second, rounded down.
  function PerSecond(units: nat, delay: nat): nat
    requires delay > 0
  {
    units * MILLION / delay
  }

  // The division of 64-bit integers rounds toward zero.
  function Quotient(a: int, d: nat): int
    requires d > 0
  {
    if a >= 0 then a / d else -(-a / d)
  }

  /** It is the exact quotient without its fraction: rounded down for a number that is not negative,
      and the same with the sign changed for its negative. */
  lemma QuotientTruncates(a: nat, d: nat)
    requires d > 0
    ensures Quotient(a, d) * d <= a < Quotient(a, d) * d + d && Quotient(0 - a, d) == 0 - Quotient(a, d)
  {
    assert a == a / d * d + a % d;
  }

  lemma ProductsGrow(a: nat, b: nat, d: nat)
    requires a <= b
    ensures a * d <= b * d
  {
  }

  lemma QuotientAtLeast(n: nat, d: nat, q: nat)
    requires d > 0 && q * d <= n
    ensures n / d >= q
  {
    var p := n / d;
    assert n < p * d + d == (p + 1) * d;
    if p < q {
      ProductsGrow(p + 1, q, d);
    }
  }

  lemma QuotientSteps(w: nat, d: nat, more: nat)
    requires 0 < d <= more
    ensures (w + more) / d > w / d
  {
    var q := w / d;
    assert q * d <= w;
    assert (q + 1) * d == q * d + d;
    QuotientAtLeast(w + more, d, q + 1);
  }

  /** Dividing a wrapped product by a 32-bit delay gives the exact quotient if and only if the
      product did not wrap. */
  lemma QuotientExact(product: nat, d: nat)
    requires 0 < d < TWO32
    ensures Quotient(Signed64(product), d) == product / d <==> product < TWO63
  {
    var q := Signed64Wraps(product);
    if product >= TWO63 {
      assert q < 0;
      assert product >= Signed64(product) + TWO64;
      if Signed64(product) >= 0 {
        QuotientSteps(Signed64(product), d, product - Signed64(product));
      } else {
        QuotientAtLeast(product, d, 1);
      }
    }
  }

  // The bits and the packets of a sample times 1000000, each operation in 64 bits.
  function BitProduct(bytes: nat): int {
    Signed64(Signed64(bytes * 8) * MILLION)
  }

  function PacketProduct(packets: nat): int {
    Signed64(packets * MILLION)
  }

  lemma BitProductIs(bytes: nat)
    ensures BitProduct(bytes) == Signed64(bytes * 8 * MILLION)
  {
    var q := Signed64Wraps(bytes * 8);
    assert Signed64(bytes * 8) * MILLION == bytes * 8 * MILLION + TWO64 * (q * MILLION);
    Signed64Shift(bytes * 8 * MILLION, q * MILLION);
  }

  /** The rates that the 64-bit arithmetic computes are the exact ones rounded down if and only
      if the counters stay within their bounds. */
  lemma RatesExact(bytes: nat, packets: nat, delay: nat)
    requires 0 < delay < TWO32
    ensures Quotient(BitProduct(bytes), delay) == PerSecond(bytes * 8, delay) <==> bytes <= MAX_BYTES
    ensures Quotient(PacketProduct(packets), delay) == PerSecond(packets, delay) <==> packets <= MAX_PACKETS
  {
    BitProductIs(bytes);
    QuotientExact(bytes * 8 * MILLION, delay);
    QuotientExact(packets * MILLION, delay);
  }

  /** One byte past the bound is enough for a negative rate. */
  lemma OneByteTooMany()
    ensures Quotient(BitProduct(MAX_BYTES + 1), MILLION) < 0 < PerSecond((MAX_BYTES + 1) * 8, MILLION)
  {
    BitProductIs(MAX_BYTES + 1);
  }

  // The exact rate times the delay falls short of the units by less than one delay.
  lemma RateIsFloor(units: nat, delay: nat)
    requires delay > 0
    ensures PerSecond(units, delay) * delay <= units * MILLION < PerSecond(units, delay) * delay + delay
  {
    var n := units * MILLION;
    assert n == n / delay * delay + n % delay;
  }

  // ---- Runs ----

  // The stamp carried into sample k.
  function Carried(t0: Stamp, ss: seq<Sample>, k: nat): Stamp
    requires k <= |ss|
  {
    if k == 0 then t0 else ss[k - 1].ts
  }

  function DelayAt(t0: Stamp, ss: seq<Sample>, k: nat): nat
    requires k < |ss|
  {
    Delay(Carried(t0, ss, k), ss[k].ts)
  }

  predicate Rises(t0: Stamp, ss: seq<Sample>) {
    forall k :: 0 <= k < |ss| ==> Follows(Carried(t0, ss, k), ss[k].ts)
  }

  // Sums over the first k samples: delays, bytes, and rates times delays (in millionths of a bit).
  function Delays(t0: Stamp, ss: seq<Sample>, k: nat): nat
    requires k <= |ss|
  {
    if k == 0 then 0 else Delays(t0, ss, k - 1) + DelayAt(t0, ss, k - 1)
  }

  function Bytes(ss: seq<Sample>, k: nat): nat
    requires k <= |ss|
  {
    if k == 0 then 0 else Bytes(ss, k - 1) + ss[k - 1].bytes
  }

  function Reported(t0: Stamp, ss: seq<Sample>, rates: seq<int>, k: nat): int
    requires k <= |ss| && k <= |rates|
  {
    if k == 0 then 0 else Reported(t0, ss, rates, k - 1) + rates[k - 1] * DelayAt(t0, ss, k - 1)
  }

  /** The delays add up to the time from the first to the last stamp. */
  lemma {:induction false} DelaysAddUp(t0: Stamp, ss: seq<Sample>, k: nat)
    requires Rises(t0, ss) && k <= |ss|
    ensures Delays(t0, ss, k) == Micros(Carried(t0, ss, k)) - Micros(t0)
    decreases k
  {
    if k > 0 {
      DelaysAddUp(t0, ss, k - 1);
      DelayIsGap(Carried(t0, ss, k - 1), ss[k - 1].ts);
    }
  }

  // Rate k is the exact one if and only if the bytes of sample k stay within their bound.
  predicate ExactIfBounded(t0: Stamp, ss: seq<Sample>, rates: seq<int>, k: nat)
    requires k < |ss| && k < |rates|
  {
    var d := DelayAt(t0, ss, k);
    d > 0 && (rates[k] == PerSecond(ss[k].bytes * 8, d) <==> ss[k].bytes <= MAX_BYTES)
  }

  /** Rates that are exact account for every bit seen, up to less than one bit per second of the
      time that passed. */
  lemma {:induction false} RatesConserveBits(t0: Stamp, ss: seq<Sample>, rates: seq<int>, k: nat)
    requires Rises(t0, ss) && k <= |ss| && k <= |rates|
    requires forall j :: 0 <= j < k ==> ExactIfBounded(t0, ss, rates, j) && ss[j].bytes <= MAX_BYTES
    ensures Reported(t0, ss, rates, k) <= Bytes(ss, k) * 8 * MILLION
    ensures Bytes(ss, k) * 8 * MILLION <= Reported(t0, ss, rates, k) + Micros(Carried(t0, ss, k)) - Micros(t0)
    decreases k
  {
    if k > 0 {
      var j := k - 1;
      RatesConserveBits(t0, ss, rates, j);
      SampleAccounted(t0, ss, rates, j);
      OneMoreSample(Reported(t0, ss, rates, j), rates[j] * DelayAt(t0, ss, j), Bytes(ss, j), ss[j].bytes,
                    Micros(Carried(t0, ss, j)) - Micros(t0), DelayAt(t0, ss, j));
    }
  }

  lemma SampleAccounted(t0: Stamp, ss: seq<Sample>, rates: seq<int>, j: nat)
    requires Rises(t0, ss) && j < |ss| && j < |rates|
    requires ExactIfBounded(t0, ss, rates, j) && ss[j].bytes <= MAX_BYTES
    ensures var d := DelayAt(t0, ss, j);
            && rates[j] * d <= ss[j].bytes * 8 * MILLION <= rates[j] * d + d
            && d == Micros(Carried(t0, ss, j + 1)) - Micros(Carried(t0, ss, j))
  {
    RateIsFloor(ss[j].bytes * 8, DelayAt(t0, ss, j));
    DelayIsGap(Carried(t0, ss, j), ss[j].ts);
  }

  lemma OneMoreSample(reported: int, more: int, bytes: nat, moreBytes: nat, time: int, d: nat)
    requires reported <= bytes * 8 * MILLION <= reported + time
    requires more <= moreBytes * 8 * MILLION <= more + d
    ensures reported + more <= (bytes + moreBytes) * 8 * MILLION <= reported + more + time + d
  {
  }

  lemma OneMoreRate(t0: Stamp, ss: seq<Sample>, rates: seq<int>, rate: int)
    requires |rates| < |ss| && forall k :: 0 <= k < |rates| ==> ExactIfBounded(t0, ss, rates, k)
    requires DelayAt(t0, ss, |rates|) > 0
    requires rate == PerSecond(ss[|rates|].bytes * 8, DelayAt(t0, ss, |rates|)) <==> ss[|rates|].bytes <= MAX_BYTES
    ensures forall k :: 0 <= k < |rates| + 1 ==> ExactIfBounded(t0, ss, rates + [rate], k)
  {
    forall k | 0 <= k < |rates| + 1
      ensures ExactIfBounded(t0, ss, rates + [rate], k)
    {
      if k < |rates| {
        assert ExactIfBounded(t0, ss, rates, k);
      }
    }
  }

  class Meter {
    // *old_ts.
    var sec: int
    var usec: int

    function OldTs(): Stamp
      reads this
    {
      Stamp(sec, usec)
    }

    constructor (first: Stamp)
      ensures OldTs() == first
    {
      sec, usec := first.sec, first.usec;
    }

    // The 32-bit arithmetic.
    method DelayTo(ts: Stamp) returns (delay: nat)
      ensures delay == Delay(OldTs(), ts)
    {
      var seconds := Signed32(ts.sec - sec);
      delay := U32(Signed32(Signed32(Signed32(seconds * MILLION) - usec) + ts.usec));
      DelayComputed(OldTs(), ts);
    }

    /** One sample: the stamp is carried on; each rate is the exact one, over the gap modulo 2^32,
        if and only if its counter stays within its bound. */
    method DispatcherHandler(s: Sample) returns (bps: int, pps: int)
      requires Delay(OldTs(), s.ts) != 0
      modifies this
      ensures OldTs() == s.ts
      ensures var d := Delay(old(OldTs()), s.ts);
              && bps == Quotient(Signed64(s.bytes * 8 * MILLION), d) && pps == Quotient(PacketProduct(s.packets), d)
              && (bps == PerSecond(s.bytes * 8, d) <==> s.bytes <= MAX_BYTES)
              && (pps == PerSecond(s.packets, d) <==> s.packets <= MAX_PACKETS)
    {
      var delay := DelayTo(s.ts);
      bps := Quotient(Signed64(Signed64(s.bytes * 8) * MILLION), delay);
      pps := Quotient(Signed64(s.packets * MILLION), delay);
      BitProductIs(s.bytes);
      RatesExact(s.bytes, s.packets, delay);
      sec, usec := s.ts.sec, s.ts.usec;
    }

    /** The handler called for every sample of a rising run: while the byte counts stay within
        their bound, the bit rates it reports account for all bits seen, up to less than one bit
        per second of the time that passed. */
    method Loop(ss: seq<Sample>) returns (rates: seq<int>)
      requires Rises(OldTs(), ss)
      modifies this
      ensures |rates| == |ss| && OldTs() == Carried(old(OldTs()), ss, |ss|)
      ensures forall k :: 0 <= k < |ss| ==> ExactIfBounded(old(OldTs()), ss, rates, k)
      ensures (forall k :: 0 <= k < |ss| ==> ss[k].bytes <= MAX_BYTES) ==>
                var r := Reported(old(OldTs()), ss, rates, |ss|);
                r <= Bytes(ss, |ss|) * 8 * MILLION <= r + Micros(OldTs()) - Micros(old(OldTs()))
    {
      ghost var t0 := OldTs();
      rates := [];
      for i := 0 to |ss|
        invariant |rates| == i && OldTs() == Carried(t0, ss, i)
        invariant forall k :: 0 <= k < i ==> ExactIfBounded(t0, ss, rates, k)
      {
        rates := HandleNext(ss, rates, t0);
      }
      if forall k :: 0 <= k < |ss| ==> ss[k].bytes <= MAX_BYTES {
        RatesConserveBits(t0, ss, rates, |ss|);
      }
    }

    // One round of the capture loop.
    method HandleNext(ss: seq<Sample>, rates: seq<int>, ghost t0: Stamp) returns (more: seq<int>)
      requires |rates| < |ss| && Rises(t0, ss) && OldTs() == Carried(t0, ss, |rates|)
      requires forall k :: 0 <= k < |rates| ==> ExactIfBounded(t0, ss, rates, k)
      modifies this
      ensures |more| == |rates| + 1 && OldTs() == Carried(t0, ss, |more|)
      ensures forall k :: 0 <= k < |more| ==> ExactIfBounded(t0, ss, more, k)
    {
      DelayIsGap(OldTs(), ss[|rates|].ts);
      var bps, pps := DispatcherHandler(ss[|rates|]);
      OneMoreRate(t0, ss, rates, bps);
      more := rates + [bps];
    }
  }
}
