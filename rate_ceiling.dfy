/**
 * The ceilings the connection tests compare observed peak rates against.
 * The configured rate in bytes per second is turned into a per-sample
 * budget, rounded up to whole batches, and scaled back to a per-second
 * figure. Quantities are exact rationals num/den; the sample interval is a
 * whole number of milliseconds.
 */
module RateCeiling {

  /**
   * round: nearest integer of num/den (non-negative values only), a
   * fractional part of one half or more rounding up.
   */
  function Round(num: nat, den: nat): (r: nat)
    requires den > 0
    ensures den * (2 * r) <= 2 * num + den
    ensures 2 * num + den < den * (2 * r + 2)
  {
    if 2 * (num % den) >= den then num / den + 1 else num / den
  }

  /** The floor/ceiling rule of round, stated on the fractional part. */
  lemma RoundFloorOrCeil(num: nat, den: nat)
    requires den > 0
    ensures 2 * (num % den) < den ==> den * Round(num, den) <= num < den * (Round(num, den) + 1)
    ensures 2 * (num % den) >= den ==> Round(num, den) == CeilDiv(num, den)
  {
    assert num == den * (num / den) + num % den;
  }

  /** Rounding never decreases when the quantity grows. */
  lemma RoundMonotone(a: nat, b: nat, den: nat)
    requires den > 0 && a <= b
    ensures Round(a, den) <= Round(b, den)
  {
    var ra, rb := Round(a, den), Round(b, den);
    if ra > rb {
      assert den * (2 * rb + 2) <= den * (2 * ra) by {
        MulMonotone(den, 2 * rb + 2, 2 * ra);
      }
    }
  }

  lemma MulMonotone(k: nat, x: nat, y: nat)
    requires x <= y
    ensures k * x <= k * y
  {
  }

  /** Cancelling a positive factor keeps a strict order. */
  lemma MulCancelStrict(k: nat, x: nat, y: nat)
    requires k > 0 && k * x < k * y
    ensures x < y
  {
  }

  /** Division rounded up: the least q with x <= g * q. */
  function CeilDiv(x: nat, g: nat): (q: nat)
    requires g > 0
    ensures x <= g * q
    ensures q > 0 ==> g * (q - 1) < x
  {
    var d := x / g;
    assert x == g * d + x % g;
    if x % g == 0 then d else d + 1
  }

  /** math.Ceil(x/g)*g: the smallest multiple of g that is at least x. */
  function RoundUpToMultiple(x: nat, g: nat): (m: nat)
    requires g > 0
    ensures x <= m < x + g
  {
    g * CeilDiv(x, g)
  }

  /** Any multiple of g that covers x covers the rounded-up value too. */
  lemma RoundUpToMultipleLeast(x: nat, g: nat, p: nat)
    requires g > 0 && x <= g * p
    ensures RoundUpToMultiple(x, g) <= g * p
  {
    var q := CeilDiv(x, g);
    if q > 0 {
      MulCancelStrict(g, q - 1, p);
    }
    MulMonotone(g, q, p);
  }

  lemma RoundUpToMultipleMonotone(x: nat, y: nat, g: nat)
    requires g > 0 && x <= y
    ensures RoundUpToMultiple(x, g) <= RoundUpToMultiple(y, g)
  {
    RoundUpToMultipleLeast(x, g, CeilDiv(y, g));
  }

  /** The budget of one sample: round(rate × sample length). */
  function SampleBudget(rate: nat, sampleMs: nat): nat
    requires sampleMs > 0
  {
    Round(rate * sampleMs, 1000)
  }

  /**
   * The ceiling formula shared by maxSendRate and maxRecvRate: the
   * per-sample budget rounded up to whole multiples of `granule`, then
   * scaled by the number of samples per second and rounded.
   */
  function CeilingRate(rate: nat, sampleMs: nat, granule: nat): nat
    requires sampleMs > 0 && granule > 0
  {
    Round(1000 * RoundUpToMultiple(SampleBudget(rate, sampleMs), granule), sampleMs)
  }

  /** maxSendRate: the send side rounds up to whole batches of packets. */
  function MaxSendRate(sendRate: nat, sampleMs: nat, numBatchPacketMsgs: nat, maxPacketMsgSize: nat): nat
    requires sampleMs > 0 && numBatchPacketMsgs * maxPacketMsgSize > 0
  {
    CeilingRate(sendRate, sampleMs, numBatchPacketMsgs * maxPacketMsgSize)
  }

  /** maxRecvRate: the receive side rounds up to whole packets. */
  function MaxRecvRate(recvRate: nat, sampleMs: nat, maxPacketMsgSize: nat): nat
    requires sampleMs > 0 && maxPacketMsgSize > 0
  {
    CeilingRate(recvRate, sampleMs, maxPacketMsgSize)
  }

  /**
   * The ceiling is at least the configured per-sample budget scaled back
   * to a second, and the rounded-up per-sample figure covers the budget
   * with less than one granule to spare.
   */
  lemma CeilingCoversBudget(rate: nat, sampleMs: nat, granule: nat)
    requires sampleMs > 0 && granule > 0
    ensures var budget := SampleBudget(rate, sampleMs);
      var effective := RoundUpToMultiple(budget, granule);
      && budget <= effective < budget + granule
      && Round(1000 * budget, sampleMs) <= CeilingRate(rate, sampleMs, granule)
  {
    var budget := SampleBudget(rate, sampleMs);
    var effective := RoundUpToMultiple(budget, granule);
    MulMonotone(1000, budget, effective);
    RoundMonotone(1000 * budget, 1000 * effective, sampleMs);
  }

  /** A higher configured rate never lowers the ceiling. */
  lemma CeilingMonotone(rate1: nat, rate2: nat, sampleMs: nat, granule: nat)
    requires sampleMs > 0 && granule > 0 && rate1 <= rate2
    ensures CeilingRate(rate1, sampleMs, granule) <= CeilingRate(rate2, sampleMs, granule)
  {
    MulMonotone(sampleMs, rate1, rate2);
    RoundMonotone(rate1 * sampleMs, rate2 * sampleMs, 1000);
    var b1, b2 := SampleBudget(rate1, sampleMs), SampleBudget(rate2, sampleMs);
    RoundUpToMultipleMonotone(b1, b2, granule);
    RoundMonotone(1000 * RoundUpToMultiple(b1, granule), 1000 * RoundUpToMultiple(b2, granule), sampleMs);
  }

  /**
   * A finer granule never gives a higher ceiling than a coarser one that is
   * a multiple of it: the receive ceiling is at most the send ceiling for
   * the same rate when the batch holds at least one packet.
   */
  lemma RecvCeilingAtMostSendCeiling(rate: nat, sampleMs: nat, numBatchPacketMsgs: nat, maxPacketMsgSize: nat)
    requires sampleMs > 0 && numBatchPacketMsgs > 0 && maxPacketMsgSize > 0
    ensures MaxRecvRate(rate, sampleMs, maxPacketMsgSize) <= MaxSendRate(rate, sampleMs, numBatchPacketMsgs, maxPacketMsgSize)
  {
    var budget := SampleBudget(rate, sampleMs);
    var g := numBatchPacketMsgs * maxPacketMsgSize;
    var q := CeilDiv(budget, g);
    assert g * q == maxPacketMsgSize * (numBatchPacketMsgs * q);
    RoundUpToMultipleLeast(budget, maxPacketMsgSize, numBatchPacketMsgs * q);
    RoundMonotone(1000 * RoundUpToMultiple(budget, maxPacketMsgSize), 1000 * RoundUpToMultiple(budget, g), sampleMs);
  }
}
