/** The fixed-point rate of the shapers: nanoseconds per byte with 16 fractional bits. */
module Rate {
  /** A second in nanoseconds, with 16 fractional bits. */
  const SECOND: int := 1_000_000_000 * 0x1_0000

  /** cake_rate_scaled: nanoseconds per byte in 16-bit fixed point. */
  function RateScaled(rate: nat): nat {
    if rate > 0 then SECOND / rate else 0
  }

  /** cake_cost_ns. */
  function CostNs(len: nat, scaled: nat): nat {
    MulNat(len, scaled);
    len * scaled / 0x1_0000
  }

  lemma MulNat(a: nat, b: nat)
    ensures a * b >= 0
  {
  }

  lemma CostMono(len: nat, maxLen: nat, scaled: nat)
    requires len <= maxLen
    ensures CostNs(len, scaled) <= CostNs(maxLen, scaled)
  {
    ScaledBy(len, maxLen, scaled);
    DivMono(len * scaled, maxLen * scaled);
  }

  lemma DivMono(a: nat, b: nat)
    requires a <= b
    ensures a / 0x1_0000 <= b / 0x1_0000
  {
  }

  /** A packet is never charged more than its time on the wire, and is short of it by less than a
      nanosecond and the truncated fraction of the rate, 2^-16 ns a byte. */
  lemma CostTracksRate(len: nat, rate: nat)
    requires rate > 0
    ensures var c := CostNs(len, RateScaled(rate));
            && c * rate <= len * 1_000_000_000
            && len * SECOND <= (c + 1) * 0x1_0000 * rate + len * rate
  {
    var s, c := RateScaled(rate), CostNs(len, RateScaled(rate));
    ScaledBy(c * 0x1_0000, len * s, rate);
    ScaledBy(len * s, (c + 1) * 0x1_0000, rate);
    ScaledBy(s * rate, SECOND, len);
    ScaledBy(SECOND, s * rate + rate, len);
    assert len * s * rate == s * rate * len && (s * rate + rate) * len == len * s * rate + len * rate;
  }

  lemma ScaledBy(a: int, b: int, k: nat)
    requires a <= b
    ensures a * k <= b * k
  {
  }

  /** What the scaled rate misses of the true one, in parts of a second. */
  function RateError(rate: nat): int
    requires rate > 0
  {
    SECOND - RateScaled(rate) * rate
  }

  /** An error under 0.01% is promised up to 100 Gbit/s. It holds of every rate up to a limit exactly
      when the limit is below 6554255426 bytes a second, 52.4 Gbit/s; up to 100 Gbit/s the error is
      under 0.02%. */
  lemma RateErrorIff(limit: nat)
    ensures (forall rate: nat :: 0 < rate <= limit ==> 10_000 * RateError(rate) < SECOND) <==> limit < 6_554_255_426
    ensures forall rate: nat :: 0 < rate <= 12_500_000_000 ==> 0 <= 5_000 * RateError(rate) < SECOND
  {
    forall rate: nat | 0 < rate
      ensures 0 <= RateError(rate) < rate
      ensures rate < 6_554_255_426 ==> 10_000 * RateError(rate) < SECOND
    {
      if 6_553_600_000 < rate < 6_554_255_426 { QuotientIs(SECOND, rate, 9_999); }
    }
    QuotientIs(SECOND, 6_554_255_426, 9_998);
    assert 10_000 * RateError(6_554_255_426) >= SECOND;
  }

  lemma QuotientIs(x: nat, d: nat, q: nat)
    requires d > 0 && q * d <= x < (q + 1) * d
    ensures x / d == q
  {
    if x / d < q { ScaledBy(x / d + 1, q, d); } else if x / d > q { ScaledBy(q + 1, x / d, d); }
  }
}
