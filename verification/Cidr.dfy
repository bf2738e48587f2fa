/** IPv4 range matching with JavaScript's 32-bit operators, and what it means on address values. */
module Cidr {
  import opened Collections
  import opened Wrappers

  const WORD: nat := 0x1_0000_0000

  // ----- The operators -----------------------------------------------------------------------------

  function ToUint32(x: int): nat
  {
    x % WORD
  }

  function ToInt32(x: int): int
  {
    if x % WORD >= 0x8000_0000 then x % WORD - WORD else x % WORD
  }

  function OrBits(a: nat, b: nat): nat
  {
    if a == 0 && b == 0 then 0 else 2 * OrBits(a / 2, b / 2) + (if a % 2 == 1 || b % 2 == 1 then 1 else 0)
  }

  function AndBits(a: nat, b: nat): nat
  {
    if a == 0 || b == 0 then 0 else 2 * AndBits(a / 2, b / 2) + (if a % 2 == 1 && b % 2 == 1 then 1 else 0)
  }

  /** `x | y`, `x & y`, `x << n`, `~x` and `x >>> 0`. */
  function BitOr(x: int, y: int): int { ToInt32(OrBits(ToUint32(x), ToUint32(y))) }
  function BitAnd(x: int, y: int): int { ToInt32(AndBits(ToUint32(x), ToUint32(y))) }
  function Shl(x: int, n: nat): int { ToInt32(ToInt32(x) * Pow2(n % 32)) }
  function BitNot(x: int): int { -1 - ToInt32(x) }
  function Unsigned(x: int): nat { ToUint32(x) }

  // ----- The code ----------------------------------------------------------------------------------

  /** The parts of a dotted address, already read as integers. */
  function IpToInt(parts: seq<int>): Option<int>
  {
    if |parts| != 4 || exists i :: 0 <= i < |parts| && (parts[i] < 0 || parts[i] > 255) then None
    else Some(BitOr(BitOr(BitOr(Shl(parts[0], 24), Shl(parts[1], 16)), Shl(parts[2], 8)), parts[3]))
  }

  /** `bits` leading ones: -1 shifted left. A shift by 32 would be none at all, hence the special case. */
  function Mask(bits: nat): nat
    requires bits <= 32
  {
    if bits == 0 then 0 else Unsigned(Shl(BitNot(0), 32 - bits))
  }

  /** `bits` is none when the text after the slash is not a number. */
  function IpInCidr(ip: seq<int>, range: seq<int>, bits: Option<int>): bool
  {
    if bits.None? || bits.value < 0 || bits.value > 32 then false
    else
      var ipInt, rangeInt := IpToInt(ip), IpToInt(range);
      if ipInt.None? || rangeInt.None? then false
      else
        BitAnd(Unsigned(ipInt.value), Mask(bits.value)) == BitAnd(Unsigned(rangeInt.value), Mask(bits.value))
  }

  // ----- The meaning -------------------------------------------------------------------------------

  predicate IsAddress(parts: seq<int>)
  {
    |parts| == 4 && forall i :: 0 <= i < 4 ==> 0 <= parts[i] <= 255
  }

  function Value(parts: seq<int>): (v: nat)
    requires IsAddress(parts)
    ensures v < WORD
  {
    parts[0] * 0x100_0000 + parts[1] * 0x1_0000 + parts[2] * 0x100 + parts[3]
  }

  lemma PowersUsed()
    ensures Pow2(8) == 0x100 && Pow2(16) == 0x1_0000 && Pow2(24) == 0x100_0000 && Pow2(31) == 0x8000_0000 && Pow2(32) == WORD
  {
    assert Pow2(4) == 16;
    assert Pow2(8) == 0x100;
    assert Pow2(12) == 0x1000;
    assert Pow2(16) == 0x1_0000;
    assert Pow2(20) == 0x10_0000;
    assert Pow2(24) == 0x100_0000;
    assert Pow2(28) == 0x1000_0000;
  }

  lemma {:induction false} OrZero(a: nat)
    ensures OrBits(a, 0) == a
  {
    if a != 0 { OrZero(a / 2); }
  }

  lemma EvenMultiple(a: nat, k: nat)
    requires k > 0 && a % Pow2(k) == 0
    ensures a % 2 == 0 && a / 2 % Pow2(k - 1) == 0
  {
    var p := Pow2(k - 1);
    var q := a / (2 * p);
    assert a == q * (2 * p) == 2 * (q * p);
    assert a / 2 == q * p;
    MultipleModulo(q, p);
  }

  lemma MultipleBound(k: int, d: nat)
    ensures k >= 1 ==> k * d >= d
    ensures k <= -1 ==> k * d <= 0 - d
  {
  }

  lemma QuotientUnique(x: nat, d: nat, q: nat, r: nat)
    requires d > 0 && r < d && x == q * d + r
    ensures x / d == q && x % d == r
  {
    var q', r' := x / d, x % d;
    assert q' * d + r' == q * d + r;
    assert (q' - q) * d == r - r';
    MultipleBound(q' - q, d);
  }

  lemma MultipleModulo(q: nat, p: nat)
    requires p > 0
    ensures (q * p) % p == 0
  {
    QuotientUnique(q * p, p, q, 0);
  }

  /** Words that share no bit: the low one fits below the zeros of the high one. */
  lemma {:induction false} OrIsSum(a: nat, b: nat, k: nat)
    requires a % Pow2(k) == 0 && b < Pow2(k)
    ensures OrBits(a, b) == a + b
  {
    if k == 0 {
      OrZero(a);
    } else {
      EvenMultiple(a, k);
      OrIsSum(a / 2, b / 2, k - 1);
    }
  }

  lemma Int32RoundTrip(u: nat)
    requires u < WORD
    ensures ToUint32(ToInt32(u)) == u
  {
  }

  lemma Int32Injective(u: nat, v: nat)
    requires u < WORD && v < WORD && ToInt32(u) == ToInt32(v)
    ensures u == v
  {
  }

  lemma OctetShift(p: int, n: nat, m: nat)
    requires 0 <= p <= 255 && n < 32 && m == Pow2(n) && m <= 0x100_0000
    ensures ToUint32(Shl(p, n)) == p * m
  {
    assert n % 32 == n && ToInt32(p) == p;
    assert p * m <= 255 * m;
    Int32RoundTrip(p * m);
  }

  lemma {:induction false} Pow2Monotonic(m: nat, n: nat)
    requires m <= n
    ensures Pow2(m) <= Pow2(n)
  {
    if m < n { Pow2Monotonic(m, n - 1); }
  }

  /** `x | y` on words given by their unsigned values, `y` below the zeros of `x`. */
  lemma BitOrIsSum(x: int, y: int, u: nat, v: nat, q: nat, k: nat)
    requires ToUint32(x) == u && ToUint32(y) == v && u == q * Pow2(k) && v < Pow2(k) && u + v < WORD
    ensures ToUint32(BitOr(x, y)) == u + v
  {
    MultipleModulo(q, Pow2(k));
    OrIsSum(u, v, k);
    Int32RoundTrip(u + v);
  }

  lemma TwoOctets(a: int, b: int)
    requires 0 <= a <= 255 && 0 <= b <= 255
    ensures ToUint32(BitOr(Shl(a, 24), Shl(b, 16))) == a * 0x100_0000 + b * 0x1_0000
  {
    PowersUsed();
    OctetShift(a, 24, 0x100_0000);
    OctetShift(b, 16, 0x1_0000);
    BitOrIsSum(Shl(a, 24), Shl(b, 16), a * 0x100_0000, b * 0x1_0000, a, 24);
  }

  lemma ThirdOctet(y: int, h: nat, c: int)
    requires ToUint32(y) == h * 0x1_0000 && 0 <= c <= 255
    ensures ToUint32(BitOr(y, Shl(c, 8))) == h * 0x1_0000 + c * 0x100
  {
    PowersUsed();
    OctetShift(c, 8, 0x100);
    BitOrIsSum(y, Shl(c, 8), h * 0x1_0000, c * 0x100, h, 16);
  }

  lemma FourthOctet(y: int, h: nat, d: int)
    requires ToUint32(y) == h * 0x100 && 0 <= d <= 255
    ensures ToUint32(BitOr(y, d)) == h * 0x100 + d
  {
    PowersUsed();
    BitOrIsSum(y, d, h * 0x100, d, h, 8);
  }

  lemma AddressValue(parts: seq<int>)
    requires IsAddress(parts)
    ensures IpToInt(parts).Some? && Unsigned(IpToInt(parts).value) == Value(parts)
  {
    var a, b, c, d := parts[0], parts[1], parts[2], parts[3];
    var y1 := BitOr(Shl(a, 24), Shl(b, 16));
    var y2 := BitOr(y1, Shl(c, 8));
    TwoOctets(a, b);
    ThirdOctet(y1, a * 0x100 + b, c);
    FourthOctet(y2, (a * 0x100 + b) * 0x100 + c, d);
  }

  /** `x` without its low `s` bits, and `s` zeros put below `q`. */
  function ShiftRight(x: nat, s: nat): nat
  {
    if s == 0 then x else ShiftRight(x / 2, s - 1)
  }

  function Scale(q: nat, s: nat): nat
  {
    if s == 0 then q else 2 * Scale(q, s - 1)
  }

  lemma AndDoubled(x: nat, m: nat)
    ensures AndBits(x, 2 * m) == 2 * AndBits(x / 2, m)
  {
  }

  lemma {:induction false} AndScaled(x: nat, m: nat, s: nat)
    ensures AndBits(x, Scale(m, s)) == Scale(AndBits(ShiftRight(x, s), m), s)
  {
    if s > 0 {
      AndDoubled(x, Scale(m, s - 1));
      AndScaled(x / 2, m, s - 1);
    }
  }

  lemma {:induction false} ScaledOnes(n: nat, s: nat)
    requires s <= n
    ensures Pow2(s) <= Pow2(n) && Scale(Pow2(n - s) - 1, s) == Pow2(n) - Pow2(s)
  {
    if s > 0 { ScaledOnes(n - 1, s - 1); }
  }

  lemma {:induction false} ShiftRightFits(x: nat, n: nat, s: nat)
    requires s <= n && x < Pow2(n)
    ensures ShiftRight(x, s) < Pow2(n - s)
  {
    if s > 0 { ShiftRightFits(x / 2, n - 1, s - 1); }
  }

  lemma AndScaledMask(x: nat, q: nat, m: nat, s: nat, mask: nat)
    requires q == ShiftRight(x, s) && AndBits(q, m) == q && mask == Scale(m, s)
    ensures AndBits(x, mask) == Scale(q, s)
  {
    AndScaled(x, m, s);
  }

  /** Masking with `n - s` leading ones of `n` clears the low `s` bits. */
  lemma AndMaskClears(x: nat, n: nat, s: nat) returns (mask: nat, cleared: nat)
    requires s <= n && x < Pow2(n)
    ensures Pow2(s) <= Pow2(n) && mask == Pow2(n) - Pow2(s) && cleared == Scale(ShiftRight(x, s), s)
    ensures AndBits(x, mask) == cleared
  {
    var q, m := ShiftRight(x, s), Pow2(n - s) - 1;
    ScaledOnes(n, s);
    ShiftRightFits(x, n, s);
    AndOnes(q, n - s);
    mask, cleared := Pow2(n) - Pow2(s), Scale(q, s);
    AndScaledMask(x, q, m, s, mask);
  }

  lemma {:induction false} ScaleInjective(q: nat, r: nat, s: nat)
    requires Scale(q, s) == Scale(r, s)
    ensures q == r
  {
    if s > 0 { ScaleInjective(q, r, s - 1); }
  }

  lemma {:induction false} ScaleShrinks(x: nat, s: nat)
    ensures Scale(ShiftRight(x, s), s) <= x
  {
    if s > 0 { ScaleShrinks(x / 2, s - 1); }
  }

  lemma {:induction false} ShiftInStages(x: nat, m: nat, n: nat)
    ensures ShiftRight(x, m + n) == ShiftRight(ShiftRight(x, m), n)
  {
    if m > 0 { ShiftInStages(x / 2, m - 1, n); }
  }

  lemma HalfQuotient(x: nat, p: nat)
    requires p > 0
    ensures x / 2 / p == x / (2 * p)
  {
    var q, r := x / 2 / p, x / 2 % p;
    assert x / 2 == q * p + r;
    assert x == q * (2 * p) + (2 * r + x % 2);
    QuotientUnique(x, 2 * p, q, 2 * r + x % 2);
  }

  lemma {:induction false} ShiftRightIsDivision(x: nat, s: nat)
    ensures ShiftRight(x, s) == x / Pow2(s)
  {
    if s > 0 {
      ShiftRightIsDivision(x / 2, s - 1);
      HalfQuotient(x, Pow2(s - 1));
    }
  }

  lemma {:induction false} AndOnes(x: nat, n: nat)
    requires x < Pow2(n)
    ensures AndBits(x, Pow2(n) - 1) == x
  {
    if n > 0 {
      AndOnes(x / 2, n - 1);
      assert (Pow2(n) - 1) / 2 == Pow2(n - 1) - 1 && (Pow2(n) - 1) % 2 == 1;
    }
  }

  lemma ShiftedMinusOne(s: nat, p: nat)
    requires s < 32 && p == Pow2(s) && p <= 0x8000_0000
    ensures Unsigned(Shl(BitNot(0), s)) == WORD - p
  {
    assert BitNot(0) == -1 && ToInt32(-1) == -1 && s % 32 == s;
    assert Shl(-1, s) == ToInt32(0 - p);
  }

  /** The mask has `bits` leading ones: the signed shift of -1, read as unsigned. */
  lemma MaskValue(bits: nat)
    requires bits <= 32
    ensures Pow2(32 - bits) <= WORD && Mask(bits) == WORD - Pow2(32 - bits)
  {
    PowersUsed();
    if bits > 0 {
      Pow2Monotonic(32 - bits, 31);
      ShiftedMinusOne(32 - bits, Pow2(32 - bits));
    }
  }

  lemma SmallWord(v: nat)
    requires v < WORD
    ensures ToUint32(v) == v
  {
  }

  /** What the masked comparison compares. */
  lemma MaskedValue(v: nat, bits: nat)
    requires v < WORD && bits <= 32
    ensures BitAnd(v, Mask(bits)) == ToInt32(Scale(ShiftRight(v, 32 - bits), 32 - bits))
  {
    MaskValue(bits);
    PowersUsed();
    var mask, cleared := AndMaskClears(v, 32, 32 - bits);
    SmallWord(v);
    SmallWord(Mask(bits));
  }

  lemma MaskedValuesAgree(x: nat, y: nat, bits: nat)
    requires x < WORD && y < WORD && bits <= 32
    ensures BitAnd(x, Mask(bits)) == BitAnd(y, Mask(bits)) <==> ShiftRight(x, 32 - bits) == ShiftRight(y, 32 - bits)
  {
    var s := 32 - bits;
    MaskedValue(x, bits);
    MaskedValue(y, bits);
    ScaleShrinks(x, s);
    ScaleShrinks(y, s);
    if BitAnd(x, Mask(bits)) == BitAnd(y, Mask(bits)) {
      Int32Injective(Scale(ShiftRight(x, s), s), Scale(ShiftRight(y, s), s));
      ScaleInjective(ShiftRight(x, s), ShiftRight(y, s), s);
    }
  }

  lemma InCidrComparesPrefixes(ip: seq<int>, range: seq<int>, bits: int)
    requires IsAddress(ip) && IsAddress(range) && 0 <= bits <= 32
    ensures IpInCidr(ip, range, Some(bits)) <==> ShiftRight(Value(ip), 32 - bits) == ShiftRight(Value(range), 32 - bits)
  {
    AddressValue(ip);
    AddressValue(range);
    MaskedValuesAgree(Value(ip), Value(range), bits);
  }

  /** The masks agree exactly when the two addresses lie in the same block of 2^(32 - bits) values. */
  lemma InCidrIsSameBlock(ip: seq<int>, range: seq<int>, bits: int)
    requires IsAddress(ip) && IsAddress(range) && 0 <= bits <= 32
    ensures IpInCidr(ip, range, Some(bits)) <==> Value(ip) / Pow2(32 - bits) == Value(range) / Pow2(32 - bits)
  {
    InCidrComparesPrefixes(ip, range, bits);
    ShiftRightIsDivision(Value(ip), 32 - bits);
    ShiftRightIsDivision(Value(range), 32 - bits);
  }

  /** Anything that is not an address, or a prefix length out of range, matches nothing. */
  lemma MalformedNeverMatches(ip: seq<int>, range: seq<int>, bits: Option<int>)
    requires !IsAddress(ip) || !IsAddress(range) || bits.None? || bits.value < 0 || bits.value > 32
    ensures !IpInCidr(ip, range, bits)
  {
  }

  /** On every input: well-formed, and in one block. */
  lemma InCidrExactly(ip: seq<int>, range: seq<int>, bits: Option<int>)
    ensures IpInCidr(ip, range, bits) <==>
            && IsAddress(ip) && IsAddress(range) && bits.Some? && 0 <= bits.value <= 32
            && Value(ip) / Pow2(32 - bits.value) == Value(range) / Pow2(32 - bits.value)
  {
    if IsAddress(ip) && IsAddress(range) && bits.Some? && 0 <= bits.value <= 32 {
      InCidrIsSameBlock(ip, range, bits.value);
    } else {
      MalformedNeverMatches(ip, range, bits);
    }
  }

  // ----- Consequences ------------------------------------------------------------------------------

  lemma MatchIsAnEquivalence(a: seq<int>, b: seq<int>, c: seq<int>, bits: int)
    requires IsAddress(a) && IsAddress(b) && IsAddress(c) && 0 <= bits <= 32
    ensures IpInCidr(a, a, Some(bits))
    ensures IpInCidr(a, b, Some(bits)) <==> IpInCidr(b, a, Some(bits))
    ensures IpInCidr(a, b, Some(bits)) && IpInCidr(b, c, Some(bits)) ==> IpInCidr(a, c, Some(bits))
  {
    InCidrComparesPrefixes(a, a, bits);
    InCidrComparesPrefixes(a, b, bits);
    InCidrComparesPrefixes(b, a, bits);
    InCidrComparesPrefixes(b, c, bits);
    InCidrComparesPrefixes(a, c, bits);
  }

  /** A match at a longer prefix is a match at every shorter one. */
  lemma LongerPrefixImpliesShorter(ip: seq<int>, range: seq<int>, longer: int, shorter: int)
    requires IsAddress(ip) && IsAddress(range) && 0 <= shorter <= longer <= 32
    ensures IpInCidr(ip, range, Some(longer)) ==> IpInCidr(ip, range, Some(shorter))
  {
    InCidrComparesPrefixes(ip, range, longer);
    InCidrComparesPrefixes(ip, range, shorter);
    ShiftInStages(Value(ip), 32 - longer, longer - shorter);
    ShiftInStages(Value(range), 32 - longer, longer - shorter);
  }

  lemma EveryAddressIsInSlashZero(ip: seq<int>, range: seq<int>)
    requires IsAddress(ip) && IsAddress(range)
    ensures IpInCidr(ip, range, Some(0))
  {
    InCidrComparesPrefixes(ip, range, 0);
    PowersUsed();
    ShiftRightFits(Value(ip), 32, 32);
    ShiftRightFits(Value(range), 32, 32);
  }

  lemma SlashThirtyTwoIsEquality(ip: seq<int>, range: seq<int>)
    requires IsAddress(ip) && IsAddress(range)
    ensures IpInCidr(ip, range, Some(32)) <==> ip == range
  {
    InCidrComparesPrefixes(ip, range, 32);
    if Value(ip) == Value(range) {
      SameValueSameAddress(ip, range);
    }
  }

  lemma SameValueSameAddress(a: seq<int>, b: seq<int>)
    requires IsAddress(a) && IsAddress(b) && Value(a) == Value(b)
    ensures a == b
  {
    assert a[0] == b[0] && a[1] == b[1] && a[2] == b[2] && a[3] == b[3];
  }
}
