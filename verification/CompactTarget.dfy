/**
 * Bitcoin's compact target encoding and its difficulty adjustment, as the claim verifier computes them
 * (ops/verify_claim.py: decode_bits, check_target, encode_bits, next_bits).
 */
module CompactTarget {
  import opened Wrappers

  const TARGET_TIMESPAN := 14 * 24 * 60 * 60
  const RETARGET_INTERVAL := 2016

  /** The bits field of a header is four bytes. */
  type Bits = b: int | 0 <= b < 0x1_0000_0000

  datatype Network = Mainnet | Regtest {
    function PowLimit(): (limit: nat)
      ensures 0 < limit < Pow256(32)
      ensures limit + 1 == if this == Mainnet then Pow256(28) else 128 * Pow256(31)
    {
      PowersOrder();
      match this
      case Mainnet => Pow256(28) - 1
      case Regtest => Pow256(32) / 2 - 1
    }

    predicate Retargets() {
      this == Mainnet
    }
  }

  function Pow256(k: nat): (r: nat)
    ensures r > 0
  {
    if k == 0 then 1 else 256 * Pow256(k - 1)
  }

  lemma {:induction false} PowSplit(a: nat, b: nat)
    ensures Pow256(a + b) == Pow256(a) * Pow256(b)
    decreases a
  {
    if a > 0 {
      PowSplit(a - 1, b);
      assert Pow256(a + b) == 256 * Pow256(a - 1 + b);
      assert 256 * Pow256(a - 1) * Pow256(b) == 256 * (Pow256(a - 1) * Pow256(b));
    }
  }

  lemma PowMonotone(a: nat, b: nat)
    requires a <= b
    ensures Pow256(a) <= Pow256(b)
  {
    PowSplit(a, b - a);
    Times(Pow256(a), 1, Pow256(b - a));
  }

  lemma Times(a: nat, b: nat, c: nat)
    requires b <= c
    ensures a * b <= a * c
  {
  }

  lemma PowersOrder()
    ensures 1 < Pow256(28) < Pow256(32)
    ensures Pow256(32) > 4
  {
    hide Pow256;
    FirstPowers();
    PowMonotone(1, 28);
    PowMonotone(28, 31);
    PowSplit(1, 31);
  }

  /** Shifts by whole bytes. */
  function ShiftLeft(n: nat, bytes: nat): nat {
    n * Pow256(bytes)
  }

  function ShiftRight(n: nat, bytes: nat): nat {
    Quotient(n, Pow256(bytes))
  }

  function Quotient(n: nat, d: nat): nat
    requires d > 0
  {
    n / d
  }

  // --- decoding ----------------------------------------------------------------------------------

  function Exponent(bits: nat): nat {
    bits / 0x100_0000
  }

  function Mantissa(bits: nat): nat {
    bits % 0x80_0000
  }

  predicate SignBit(bits: nat) {
    bits / 0x80_0000 % 2 == 1
  }

  function DecodeBits(bits: nat): nat {
    if Exponent(bits) <= 3 then ShiftRight(Mantissa(bits), 3 - Exponent(bits))
    else ShiftLeft(Mantissa(bits), Exponent(bits) - 3)
  }

  datatype TargetError = NegativeTarget | TargetOverflow | ZeroTarget | AbovePowLimit

  predicate Overflows(bits: nat) {
    var exponent, mantissa := Exponent(bits), Mantissa(bits);
    mantissa != 0 && (exponent > 34 || (mantissa > 0xff && exponent > 33) || (mantissa > 0xffff && exponent > 32))
  }

  function CheckTarget(bits: nat, network: Network): Result<nat, TargetError> {
    if Mantissa(bits) != 0 && SignBit(bits) then Failure(NegativeTarget)
    else if Overflows(bits) then Failure(TargetOverflow)
    else if DecodeBits(bits) == 0 then Failure(ZeroTarget)
    else if DecodeBits(bits) > network.PowLimit() then Failure(AbovePowLimit)
    else Success(DecodeBits(bits))
  }

  /**
   * Bits pass exactly when the number they stand for is above zero and at most the limit, and it is not negative: the
   * mantissa's own three bytes do not exceed the sign bit alone.
   */
  lemma PassesIff(bits: Bits, network: Network, target: nat)
    ensures CheckTarget(bits, network) == Success(target)
            <==> bits % 0x100_0000 <= 0x80_0000 && target == DecodeBits(bits) && 0 < target <= network.PowLimit()
  {
    hide Pow256, Overflows, DecodeBits, Network.PowLimit;
    OverflowIff(bits);
    LimitBelow(network);
    SignedMantissa(bits);
  }

  lemma LimitBelow(network: Network)
    ensures 0 < network.PowLimit() < Pow256(32)
  {
  }

  lemma SignedMantissa(bits: nat)
    ensures bits % 0x100_0000 > 0x80_0000 <==> Mantissa(bits) != 0 && SignBit(bits)
  {
    var low := bits % 0x100_0000;
    assert bits == bits / 0x100_0000 * 0x100_0000 + low;
    assert bits / 0x80_0000 == bits / 0x100_0000 * 2 + low / 0x80_0000;
  }

  /** The three-way test is exact: it holds when, and only when, the decoded number needs more than 256 bits. */
  lemma OverflowIff(bits: nat)
    ensures Overflows(bits) <==> DecodeBits(bits) >= Pow256(32)
  {
    hide Pow256;
    var e, m := Exponent(bits), Mantissa(bits);
    FirstPowers();
    PowMonotone(3, 32);
    if e <= 3 {
      SmallQuotient(m, Pow256(3 - e));
    } else if e <= 32 {
      PowSplit(3, e - 3);
      PowMonotone(e, 32);
      Compare(m, Pow256(3), Pow256(e - 3));
    } else if e <= 34 {
      PowSplit(35 - e, e - 3);
      Compare(m, Pow256(35 - e), Pow256(e - 3));
    } else {
      PowMonotone(32, e - 3);
      if m > 0 { Times(Pow256(e - 3), 1, m); }
    }
  }

  lemma FirstPowers()
    ensures Pow256(0) == 1 && Pow256(1) == 256 && Pow256(2) == 65536 && Pow256(3) == 0x100_0000
  {
  }

  lemma SmallQuotient(m: nat, d: nat)
    requires d > 0
    ensures m / d <= m
  {
    assert m == d * (m / d) + m % d;
    Times(m / d, 1, d);
  }

  lemma Strictly(a: nat, b: nat, c: nat)
    requires a < b && c > 0
    ensures a * c < b * c
  {
  }

  lemma Compare(a: nat, b: nat, c: nat)
    requires c > 0
    ensures a * c >= b * c <==> a >= b
  {
    if a >= b { Times(c, b, a); } else { Strictly(a, b, c); }
  }

  // --- encoding ----------------------------------------------------------------------------------

  function BitLength(n: nat): nat {
    if n == 0 then 0 else 1 + BitLength(n / 2)
  }

  function Size(target: nat): nat {
    (BitLength(target) + 7) / 8
  }

  /** The top three bytes of a number, as its compact form keeps them. */
  function Leading(target: nat): nat {
    if Size(target) <= 3 then ShiftLeft(target, 3 - Size(target)) else ShiftRight(target, Size(target) - 3)
  }

  function EncodeBits(target: nat): nat {
    if SignBit(Leading(target)) then Leading(target) / 256 + (Size(target) + 1) * 0x100_0000
    else Leading(target) + Size(target) * 0x100_0000
  }

  function Pow2(k: nat): (r: nat)
    ensures r > 0
  {
    if k == 0 then 1 else 2 * Pow2(k - 1)
  }

  lemma {:induction false} BitLengthIs(n: nat)
    ensures n < Pow2(BitLength(n))
    ensures n > 0 ==> BitLength(n) > 0 && Pow2(BitLength(n) - 1) <= n
  {
    if n > 0 {
      BitLengthIs(n / 2);
      if n / 2 == 0 { assert n == 1; }
    }
  }

  lemma {:induction false} EightBits(k: nat)
    ensures Pow2(8 * k) == Pow256(k)
  {
    if k > 0 {
      EightBits(k - 1);
      var j := 8 * (k - 1);
      assert Pow2(j + 2) == 4 * Pow2(j) && Pow2(j + 4) == 4 * Pow2(j + 2);
      assert Pow2(j + 6) == 4 * Pow2(j + 4) && Pow2(j + 8) == 4 * Pow2(j + 6);
    }
  }

  lemma {:induction false} Pow2Monotone(a: nat, b: nat)
    requires a <= b
    ensures Pow2(a) <= Pow2(b)
    decreases b - a
  {
    if a < b { Pow2Monotone(a, b - 1); }
  }

  /** The size is the number of bytes: no byte fewer holds the number. */
  lemma SizeIs(n: nat)
    ensures n < Pow256(Size(n))
    ensures n > 0 ==> Size(n) > 0 && Pow256(Size(n) - 1) <= n
    ensures n == 0 ==> Size(n) == 0
  {
    var k, s := BitLength(n), Size(n);
    BitLengthIs(n);
    EightBits(s);
    Pow2Monotone(k, 8 * s);
    if n > 0 {
      EightBits(s - 1);
      Pow2Monotone(8 * (s - 1), k - 1);
    }
  }

  lemma SizeUnique(n: nat, s: nat)
    requires 0 < s && Pow256(s - 1) <= n < Pow256(s)
    ensures Size(n) == s
  {
    SizeIs(n);
    if Size(n) < s { PowMonotone(Size(n), s - 1); }
    if s < Size(n) { PowMonotone(s, Size(n) - 1); }
  }

  /** The three leading bytes fill sixteen bits at least and never more than twenty-four. */
  lemma LeadingIs(t: nat)
    requires t > 0
    ensures 0x1_0000 <= Leading(t) < 0x100_0000 && Size(t) > 0
    ensures Size(t) > 3 ==> var unit := Pow256(Size(t) - 3);
                            Leading(t) * unit <= t < Leading(t) * unit + unit
  {
    SizeIs(t);
    var s := Size(t);
    FirstPowers();
    if s <= 3 {
      PowSplit(s - 1, 3 - s);
      PowSplit(s, 3 - s);
      Times(Pow256(3 - s), Pow256(s - 1), t);
      Strictly(t, Pow256(s), Pow256(3 - s));
    } else {
      var unit := Pow256(s - 3);
      PowSplit(2, s - 3);
      PowSplit(3, s - 3);
      Division(t, unit);
      Between(t, unit, 0x1_0000, 0x100_0000);
    }
  }

  lemma Division(t: nat, unit: nat)
    requires unit > 0
    ensures t / unit * unit <= t < t / unit * unit + unit
  {
    assert t == unit * (t / unit) + t % unit;
  }

  lemma Between(t: nat, unit: nat, low: nat, high: nat)
    requires unit > 0 && low * unit <= t < high * unit
    ensures low <= t / unit < high
  {
    Division(t, unit);
    var q := t / unit;
    assert q * unit + unit == (q + 1) * unit;
    Compare(q, high, unit);
    Compare(low, q + 1, unit);
  }

  /** What the compact form of a number holds: a sign bit never set, a mantissa of at least fifteen bits. */
  lemma EncodedIs(t: nat)
    requires t > 0
    ensures var bits, high := EncodeBits(t), Leading(t) >= 0x80_0000;
            && !SignBit(bits) && Exponent(bits) == (if high then Size(t) + 1 else Size(t))
            && Mantissa(bits) == (if high then Leading(t) / 256 else Leading(t)) && Mantissa(bits) >= 0x8000
  {
    LeadingIs(t);
    var lead := Leading(t);
    assert SignBit(lead) <==> lead >= 0x80_0000;
    var m, e := if lead >= 0x80_0000 then lead / 256 else lead, if lead >= 0x80_0000 then Size(t) + 1 else Size(t);
    Fields(m, e);
  }

  lemma Fields(m: nat, e: nat)
    requires m < 0x80_0000
    ensures Exponent(m + e * 0x100_0000) == e && Mantissa(m + e * 0x100_0000) == m && !SignBit(m + e * 0x100_0000)
  {
  }

  /** Encoding loses less than one part in 2^15, and never rounds up. */
  lemma EncodingError(t: nat)
    requires t > 0
    ensures var d := DecodeBits(EncodeBits(t));
            d <= t && (t - d) * 0x8000 < t
  {
    hide Pow256, EncodeBits, Size, Leading;
    EncodedIs(t);
    FirstPowers();
    if Size(t) <= 2 {
      ExactWhenSmall(t);
    } else {
      LeadingOfThree(t);
      var unit := Pow256(Size(t) - 3);
      PowSplit(1, Size(t) - 3);
      if Leading(t) < 0x80_0000 {
        Truncated(t, Leading(t), unit, 1);
        ShiftedBy(Leading(t), Size(t));
      } else {
        Truncated(t, Leading(t), unit, 256);
        ShiftedBy(Leading(t) / 256, Size(t) + 1);
      }
    }
  }

  /** From three bytes up a compact form decodes by a shift to the left. */
  lemma ShiftedBy(m: nat, e: nat)
    requires m < 0x80_0000 && e >= 3
    ensures forall bits: nat :: Exponent(bits) == e && Mantissa(bits) == m ==> DecodeBits(bits) == m * Pow256(e - 3)
  {
    FirstPowers();
    assert m / 1 == m;
  }

  lemma LeadingOfThree(t: nat)
    requires t > 0 && Size(t) >= 3
    ensures 0x1_0000 <= Leading(t) < 0x100_0000
    ensures var unit := Pow256(Size(t) - 3);
            Leading(t) * unit <= t < Leading(t) * unit + unit
  {
    hide Size;
    LeadingIs(t);
    FirstPowers();
    if Size(t) == 3 { assert Leading(t) == t * 1; }
  }

  /** A number cut to a multiple of `step` units keeps all but a 2^15-th of itself. */
  lemma Truncated(t: nat, lead: nat, unit: nat, step: nat)
    requires lead * unit <= t < lead * unit + unit && step > 0 && lead / step >= 0x8000
    ensures var d := lead / step * (step * unit);
            d <= t && (t - d) * 0x8000 < t
  {
    var q := lead / step;
    Division(lead, step);
    var d := q * (step * unit);
    assert d == q * step * unit;
    Times(unit, q * step, lead);
    Times(unit, lead + 1, q * step + step);
    assert lead * unit + unit == unit * (lead + 1);
    assert unit * (q * step + step) == d + step * unit;
    Times(step * unit, 0x8000, q);
    assert t - d < step * unit;
    assert 0x8000 * (step * unit) <= d;
  }

  /** Up to two bytes nothing is lost. */
  lemma ExactWhenSmall(t: nat)
    requires t > 0 && Size(t) <= 2
    ensures DecodeBits(EncodeBits(t)) == t
  {
    hide Size, EncodeBits;
    EncodedIs(t);
    LeadingIs(t);
    FirstPowers();
    var unit := Pow256(3 - Size(t));
    if Leading(t) < 0x80_0000 {
      QuotientUnique(t * unit, unit, t);
    } else {
      var less := Pow256(2 - Size(t));
      assert t * unit == t * less * 256;
      QuotientUnique(t * unit, 256, t * less);
      QuotientUnique(t * less, less, t);
    }
  }

  lemma QuotientUnique(n: nat, unit: nat, q: nat)
    requires unit > 0 && q * unit <= n < q * unit + unit
    ensures n / unit == q
  {
    var p := n / unit;
    Division(n, unit);
    assert p * unit + unit == (p + 1) * unit && q * unit + unit == (q + 1) * unit;
    Compare(p, q + 1, unit);
    Compare(q, p + 1, unit);
  }

  // --- canonical forms ---------------------------------------------------------------------------

  /** The forms the encoder writes: no sign, no leading byte to spare, no bits below the number. */
  predicate Canonical(bits: nat) {
    || bits == 0
    || (&& !SignBit(bits) && Mantissa(bits) >= 0x8000 && Exponent(bits) > 0
        && (Exponent(bits) < 3 ==> Mantissa(bits) % Pow256(3 - Exponent(bits)) == 0))
  }

  lemma OfFields(bits: nat)
    requires !SignBit(bits)
    ensures bits == Mantissa(bits) + Exponent(bits) * 0x100_0000
  {
  }

  lemma EncodedCanonical(t: nat)
    ensures Canonical(EncodeBits(t))
  {
    hide Size, EncodeBits, Pow256;
    if t == 0 {
      ZeroAsNumber(t);
    } else {
      EncodedIs(t);
      LeadingIs(t);
      LowBitsFree(t);
    }
  }

  lemma ZeroAsNumber(t: nat)
    requires t == 0
    ensures EncodeBits(t) == 0
  {
    SizeIs(t);
    FirstPowers();
    hide Size, Pow256;
  }

  lemma ZeroAsBits(bits: nat)
    requires bits == 0
    ensures DecodeBits(bits) == 0
  {
    hide Pow256;
    FirstPowers();
  }

  lemma Multiple(q: nat, unit: nat)
    requires unit > 0
    ensures q * unit % unit == 0
  {
    QuotientUnique(q * unit, unit, q);
  }

  lemma LowBitsFree(t: nat)
    requires t > 0
    ensures Exponent(EncodeBits(t)) < 3 ==> Mantissa(EncodeBits(t)) % Pow256(3 - Exponent(EncodeBits(t))) == 0
  {
    hide Size, EncodeBits, Pow256;
    EncodedIs(t);
    LeadingIs(t);
    FirstPowers();
    var s := Size(t);
    if Leading(t) < 0x80_0000 {
      if s < 3 { Multiple(t, Pow256(3 - s)); }
    } else if s == 1 {
      assert t * 65536 / 256 == t * 256;
      Multiple(t, 256);
    }
  }

  lemma EncodedAs(t: nat, m: nat, size: nat)
    requires m < 0x80_0000 && Size(t) == size && Leading(t) == m
    ensures EncodeBits(t) == m + size * 0x100_0000
  {
  }

  lemma EncodedUp(t: nat, m: nat, size: nat)
    requires 0x8000 <= m < 0x1_0000 && Size(t) == size && Leading(t) == m * 256
    ensures EncodeBits(t) == m + (size + 1) * 0x100_0000
  {
  }

  /** A canonical form whose exponent is at most three: the number stands at the top of the mantissa. */
  lemma SmallRoundTrip(bits: nat)
    requires Canonical(bits) && bits != 0 && Exponent(bits) <= 3
    ensures EncodeBits(DecodeBits(bits)) == bits
  {
    hide Size, Pow256, EncodeBits;
    FirstPowers();
    OfFields(bits);
    var e, m, t := Exponent(bits), Mantissa(bits), DecodeBits(bits);
    var unit := Pow256(3 - e);
    assert m == t * unit by { Division(m, unit); }
    if m >= 0x1_0000 {
      PowSplit(e - 1, 3 - e);
      PowSplit(e, 3 - e);
      Compare(t, Pow256(e - 1), unit);
      Compare(t, Pow256(e), unit);
      SizeUnique(t, e);
      EncodedAs(t, m, e);
    } else {
      assert e > 1;
      PowSplit(e - 2, 3 - e);
      PowSplit(e - 1, 3 - e);
      Compare(t, Pow256(e - 2), unit);
      Compare(t, Pow256(e - 1), unit);
      SizeUnique(t, e - 1);
      PowSplit(3 - e, 1);
      assert t * Pow256(4 - e) == m * 256;
      EncodedUp(t, m, e - 1);
    }
  }

  lemma LargeRoundTrip(bits: nat)
    requires Canonical(bits) && Exponent(bits) > 3
    ensures EncodeBits(DecodeBits(bits)) == bits
  {
    hide Size, Pow256, EncodeBits;
    FirstPowers();
    OfFields(bits);
    var e, m, t := Exponent(bits), Mantissa(bits), DecodeBits(bits);
    var unit := Pow256(e - 3);
    PowSplit(1, e - 3);
    PowSplit(2, e - 3);
    PowSplit(3, e - 3);
    Compare(m, 0x1_0000, unit);
    Compare(m, 0x100_0000, unit);
    if m >= 0x1_0000 {
      SizeUnique(t, e);
      QuotientUnique(t, unit, m);
      EncodedAs(t, m, e);
    } else {
      Compare(m, 256, unit);
      SizeUnique(t, e - 1);
      PowSplit(1, e - 4);
      assert t == m * 256 * Pow256(e - 4);
      QuotientUnique(t, Pow256(e - 4), m * 256);
      EncodedUp(t, m, e - 1);
    }
  }

  /** Encoding undoes decoding on the canonical forms, and only on them. */
  lemma CanonicalIff(bits: nat)
    ensures EncodeBits(DecodeBits(bits)) == bits <==> Canonical(bits)
  {
    hide EncodeBits, DecodeBits, Canonical;
    EncodedCanonical(DecodeBits(bits));
    if bits == 0 {
      ZeroAsBits(bits);
      ZeroAsNumber(DecodeBits(bits));
    } else if Canonical(bits) {
      if Exponent(bits) <= 3 { SmallRoundTrip(bits); } else { LargeRoundTrip(bits); }
    }
  }

  // --- the difficulty adjustment -----------------------------------------------------------------

  function Clamp(actual: int): (r: nat)
    ensures TARGET_TIMESPAN / 4 <= r <= 4 * TARGET_TIMESPAN
  {
    var most := if actual < TARGET_TIMESPAN * 4 then actual else TARGET_TIMESPAN * 4;
    if most < TARGET_TIMESPAN / 4 then TARGET_TIMESPAN / 4 else most
  }

  /** The target of the next period before it is encoded: the old one scaled by the time taken, at most the limit. */
  function Wanted(target: nat, actual: int, network: Network): nat {
    var scaled := Quotient(target * Clamp(actual), TARGET_TIMESPAN);
    if scaled < network.PowLimit() then scaled else network.PowLimit()
  }

  /** next_bits, from the times of the period's first and last header and the last header's bits. */
  function NextBits(first: Bits, last: Bits, lastBits: Bits, network: Network): nat {
    EncodeBits(Wanted(DecodeBits(lastBits), last - first, network))
  }

  lemma ScaledWithinFour(target: nat, time: nat)
    requires TARGET_TIMESPAN / 4 <= time <= 4 * TARGET_TIMESPAN
    ensures var q := Quotient(target * time, TARGET_TIMESPAN);
            q <= 4 * target && target < 4 * q + 4 && (q > 0 <==> target * time >= TARGET_TIMESPAN)
  {
    var q := Quotient(target * time, TARGET_TIMESPAN);
    Division(target * time, TARGET_TIMESPAN);
    hide Quotient;
    ScaledBy(target, time, TARGET_TIMESPAN, TARGET_TIMESPAN / 4, target * time, q, q * TARGET_TIMESPAN);
  }

  lemma ScaledBy(target: nat, time: nat, span: nat, quarter: nat, scaled: nat, q: nat, whole: nat)
    requires span == 4 * quarter > 0 && quarter <= time <= 4 * span
    requires scaled == target * time && whole == q * span && whole <= scaled < whole + span
    ensures q <= 4 * target && target < 4 * q + 4 && (q > 0 <==> scaled >= span)
  {
    Times(target, quarter, time);
    Times(target, time, 4 * span);
    if q > 4 * target { Times(span, 4 * target + 1, q); }
    if target >= 4 * q + 4 { Times(quarter, 4 * q + 4, target); }
    if q > 0 { Times(span, 1, q); }
  }

  /**
   * The scaled target is a quarter of the old one at least and four times it at most, up to the division's remainder.
   */
  lemma WantedWithinFour(target: nat, actual: int, network: Network)
    requires target <= network.PowLimit()
    ensures Wanted(target, actual, network) <= 4 * target
    ensures target < 4 * Wanted(target, actual, network) + 4
    ensures Wanted(target, actual, network) > 0 <==> target * Clamp(actual) >= TARGET_TIMESPAN
  {
    hide Quotient, Clamp;
    ScaledWithinFour(target, Clamp(actual));
  }

  /** Between three and a half days and eight weeks, and otherwise the nearer of them. */
  ghost predicate Clamped(actual: int, time: int) {
    && 302400 <= time <= 4838400
    && (302400 <= actual <= 4838400 ==> time == actual)
    && (actual < 302400 ==> time == 302400) && (actual > 4838400 ==> time == 4838400)
  }

  /** The scaled target is the limit, or the greatest number whose two weeks are within the old one's time. */
  lemma WantedIs(target: nat, actual: int, time: nat, network: Network)
    requires Clamped(actual, time)
    ensures var wanted := Wanted(target, actual, network);
            && wanted <= network.PowLimit() && wanted * 1209600 <= target * time
            && (wanted == network.PowLimit() || target * time < (wanted + 1) * 1209600)
  {
    hide Quotient, Pow256, Network.PowLimit;
    assert Clamp(actual) == time;
    QuotientIs(target * time, TARGET_TIMESPAN);
    var scaled, limit := Quotient(target * time, TARGET_TIMESPAN), network.PowLimit();
    if scaled >= limit { Times(TARGET_TIMESPAN, limit, scaled); }
  }

  lemma QuotientIs(n: nat, unit: nat)
    requires unit > 0
    ensures var q := Quotient(n, unit); q * unit <= n < (q + 1) * unit
  {
    Division(n, unit);
    assert (n / unit + 1) * unit == n / unit * unit + unit;
  }

  /** A number from one to the limit, encoded, passes the target rules as its own truncation. */
  lemma EncodedPasses(t: nat, network: Network)
    requires 0 < t <= network.PowLimit()
    ensures CheckTarget(EncodeBits(t), network) == Success(DecodeBits(EncodeBits(t)))
  {
    hide EncodeBits, DecodeBits, Overflows, Pow256;
    EncodedIs(t);
    EncodingError(t);
    OverflowIff(EncodeBits(t));
  }

  /**
   * After any valid target the adjustment gives bits that pass the target rules exactly when the old target times the
   * clamped time reaches one timespan; the new target is then the scaled one less a 2^15-th of it at most.
   */
  lemma NextBitsValid(first: Bits, last: Bits, lastBits: Bits, network: Network)
    requires CheckTarget(lastBits, network).Success?
    ensures var target, next := DecodeBits(lastBits), NextBits(first, last, lastBits, network);
            var wanted := Wanted(target, last - first, network);
            && (CheckTarget(next, network).Success? <==> target * Clamp(last - first) >= TARGET_TIMESPAN)
            && (target >= 4 ==> CheckTarget(next, network).Success?)
            && (CheckTarget(next, network).Success? ==>
                  && CheckTarget(next, network).value == DecodeBits(next)
                  && DecodeBits(next) <= wanted <= 4 * target && target < 4 * wanted + 4
                  && (wanted - DecodeBits(next)) * 0x8000 < wanted)
  {
    hide EncodeBits, DecodeBits, Overflows, Pow256;
    var target := DecodeBits(lastBits);
    var wanted := Wanted(target, last - first, network);
    WantedWithinFour(target, last - first, network);
    if wanted > 0 {
      EncodedPasses(wanted, network);
      EncodingError(wanted);
    } else {
      ZeroAsNumber(wanted);
      ZeroAsBits(EncodeBits(wanted));
    }
    if target >= 4 { Times(Clamp(last - first), 4, target); }
  }

  /** The condition is needed: a valid target of one, met in the shortest time, gives a target of zero. */
  lemma TargetTooSmall(last: Bits)
    ensures var one := 0x0101_0000;
            && CheckTarget(one, Mainnet) == Success(1)
            && CheckTarget(NextBits(last, last, one, Mainnet), Mainnet) == Failure(ZeroTarget)
  {
    hide Pow256, Overflows, DecodeBits, EncodeBits, Wanted, Network.PowLimit;
    PowersOrder();
    OverflowIff(0x0101_0000);
    OverflowIff(0);
    OneShrinks();
    ZeroAsNumber(Wanted(1, last - last, Mainnet));
    ZeroAsBits(0);
  }

  lemma OneShrinks()
    ensures DecodeBits(0x0101_0000) == 1 && Wanted(1, 0, Mainnet) == 0 && Mainnet.PowLimit() > 0
  {
    hide Pow256, Network.PowLimit;
    FirstPowers();
    assert Clamp(0) == TARGET_TIMESPAN / 4;
  }
}
