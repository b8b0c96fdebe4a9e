/** The compact "bits" form of an Equihash target, as `CalculateEquihashDifficulty`
    and `GetEquihashTarget` write and read it: a size byte (the target's length
    in bytes) above a three-byte mantissa (its top three bytes).

    This is close to the nBits conversion of section 7.7.4 of the Zcash Protocol
    Specification, but follows the code: a target of at most three bytes gets
    size byte 0 (its value is shifted into the mantissa instead), the decoder
    then shifts that mantissa out entirely, the size is truncated to its low
    eight bits, and there is no sign bit. */
module CompactBits {
  import opened Arith
  import opened Bytes

  const Pow24: nat := 0x100_0000

  /** `CalculateEquihashDifficulty`. */
  function CalculateEquihashDifficulty(target: int): (bits: nat)
    ensures bits < U32
    ensures target <= 0 ==> bits == 0
  {
    if target <= 0 then 0
    else
      var bytes := MinimalBE(target);
      var size := |bytes|;
      if size <= 3 then
        SmallTargetShifted(target);
        target * Pow256(3 - size)
      else Pack(size, bytes[0], bytes[1], bytes[2])
  }

  /** `uint32(b0)<<16 | uint32(b1)<<8 | uint32(b2) | uint32(size)<<24`: the
      shift of the size drops all but its low eight bits. */
  function Pack(size: nat, b0: Byte, b1: Byte, b2: Byte): (bits: nat)
    ensures bits < U32
    ensures bits / Pow24 == size % 256
    ensures bits % Pow24 == b0 as nat * 65536 + b1 as nat * 256 + b2 as nat
  {
    var mantissa := b0 as nat * 65536 + b1 as nat * 256 + b2 as nat;
    DivUnique((size % 256) * Pow24 + mantissa, Pow24, size % 256, mantissa);
    (size % 256) * Pow24 + mantissa
  }

  /** A target of one to three bytes is shifted into the mantissa with size byte 0. */
  lemma SmallTargetEncoding(target: int)
    requires 0 < target < Pow24
    ensures Pow256(2) <= CalculateEquihashDifficulty(target) < Pow24
  {
    ShortIffSmall(target);
    SmallTargetShifted(target);
  }

  /** A longer target keeps its size, modulo 256, in the top byte and its
      first three bytes below it. */
  lemma LargeTargetEncoding(target: int)
    requires target > 0 && ByteLength(target) > 3
    ensures CalculateEquihashDifficulty(target) / Pow24 == ByteLength(target) % 256
    ensures CalculateEquihashDifficulty(target) % Pow24 == target / Pow256(ByteLength(target) - 3)
  {
    MantissaOfTarget(target);
  }

  /** `GetEquihashTarget`: size byte and mantissa; at most three bytes shift
      the mantissa right, more shift it left. */
  function GetEquihashTarget(bits: nat): (target: nat)
    requires bits < U32
    ensures bits == 0 ==> target == 0
    ensures bits / Pow24 <= 3 ==> target < Pow24
  {
    if bits == 0 then 0
    else
      var size := bits / Pow24;
      var mantissa := bits % Pow24;
      if size <= 3 then mantissa / Pow256(3 - size)
      else mantissa * Pow256(size - 3)
  }

  /** A target below 2^24 is encoded with size byte 0 and decodes to zero:
      such a target can never be met except by a zero hash. */
  lemma SmallTargetDecodesToZero(target: int)
    requires 0 < target < Pow24
    ensures CalculateEquihashDifficulty(target) / Pow24 == 0
    ensures GetEquihashTarget(CalculateEquihashDifficulty(target)) == 0
  {
    var bits := CalculateEquihashDifficulty(target);
    SmallTargetEncoding(target);
    DivUnique(bits, Pow24, 0, bits);
    Pow256Widths();
  }

  /** Between four and 255 bytes, encoding then decoding keeps the top three
      bytes and zeroes the rest: the decoded target is the original rounded
      down to a multiple of 256^(size-3). */
  lemma CompactRoundTrip(target: nat)
    requires 3 < ByteLength(target) < 256
    ensures var p := Pow256(ByteLength(target) - 3);
      GetEquihashTarget(CalculateEquihashDifficulty(target)) == (target / p) * p
    ensures GetEquihashTarget(CalculateEquihashDifficulty(target)) <= target
    ensures target - GetEquihashTarget(CalculateEquihashDifficulty(target)) < Pow256(ByteLength(target) - 3)
  {
    var size := ByteLength(target);
    var p := Pow256(size - 3);
    var bits := CalculateEquihashDifficulty(target);
    LargeTargetEncoding(target);
    var q := target / p;
    DivUnique(size, 256, 0, size);
    assert bits / Pow24 == size && bits % Pow24 == q;
    DecodeLarge(bits);
    assert GetEquihashTarget(bits) == q * p;
    RoundDown(target, p);
  }

  /** Decoding then encoding is the identity on normalised bits: a size byte
      of four to 255 and a mantissa whose top byte is non-zero. */
  lemma CompactDecodeEncode(bits: nat)
    requires bits < U32
    requires 3 < bits / Pow24 && bits % Pow24 >= Pow256(2)
    ensures CalculateEquihashDifficulty(GetEquihashTarget(bits)) == bits
  {
    var size := bits / Pow24;
    var m := bits % Pow24;
    var k := size - 3;
    var target := GetEquihashTarget(bits);
    assert target == m * Pow256(k) by { DecodeLarge(bits); }
    assert ByteLength(target) == size by {
      ByteLengthOfMantissa(m);
      ByteLengthShift(m, k);
    }
    assert size < 256;
    assert target / Pow256(k) == m by { DivUnique(target, Pow256(k), m, 0); }
    LargeTargetEncoding(target);
    DivUnique(size, 256, 0, size);
    SameQuotientAndRemainder(CalculateEquihashDifficulty(target), bits, Pow24);
  }

  /** A number is its quotient and remainder. */
  lemma SameQuotientAndRemainder(a: nat, b: nat, d: nat)
    requires d > 0 && a / d == b / d && a % d == b % d
    ensures a == b
  {
    assert a == d * (a / d) + a % d;
    assert b == d * (b / d) + b % d;
  }

  /** The size byte wraps: a power of 256 with 256·j + 1 bytes (256^256 is
      the smallest) is encoded with size byte 1 and decodes to 1. */
  lemma CompactSizeWraps(k: nat)
    requires k > 0 && k % 256 == 0
    ensures ByteLength(Pow256(k)) == k + 1
    ensures GetEquihashTarget(CalculateEquihashDifficulty(Pow256(k))) == 1
  {
    var t := Pow256(k);
    assert t == 1 * Pow256(k);
    ByteLengthShift(1, k);
    assert ByteLength(1) == 1;
    LargeTargetEncoding(t);
    var bits := CalculateEquihashDifficulty(t);
    assert bits / Pow24 == 1 by {
      DivUnique(k + 1, 256, k / 256, 1);
    }
    assert bits % Pow24 == 65536 by {
      Pow256Add(k - 2, 2);
      Pow256Widths();
      DivUnique(t, Pow256(k - 2), 65536, 0);
    }
    Pow256Widths();
    assert GetEquihashTarget(bits) == 65536 / Pow256(2);
  }

  // ---------------------------------------------------------------- helpers

  lemma DecodeLarge(bits: nat)
    requires bits < U32 && bits / Pow24 > 3
    ensures GetEquihashTarget(bits) == (bits % Pow24) * Pow256(bits / Pow24 - 3)
  {
  }

  /** A target of one to three bytes, shifted into three bytes, has a non-zero top byte. */
  lemma SmallTargetShifted(target: nat)
    requires 0 < ByteLength(target) <= 3
    ensures Pow256(2) <= target * Pow256(3 - ByteLength(target)) < Pow24
    ensures target < Pow24
  {
    ByteLengthBounds(target);
    var size := ByteLength(target);
    if size == 1 {
      assert Pow256(2) == 65536;
    } else if size == 2 {
      assert Pow256(1) == 256;
    } else {
      assert Pow256(2) == 65536;
    }
  }

  /** The first three bytes of a target of more than three bytes, read as a
      number, are the target divided by 256^(size-3). */
  lemma MantissaOfTarget(target: nat)
    requires ByteLength(target) > 3
    ensures var b := MinimalBE(target);
      b[0] as nat * 65536 + b[1] as nat * 256 + b[2] as nat == target / Pow256(ByteLength(target) - 3)
    ensures target / Pow256(ByteLength(target) - 3) < Pow24
  {
    var b := MinimalBE(target);
    MinimalBEValue(target);
    FromBEPrefix(b, 3);
    FromBEThree(b[..3]);
    FromBEBound(b[..3]);
  }

  lemma FromBEThree(s: seq<Byte>)
    requires |s| == 3
    ensures FromBE(s) == s[0] as nat * 65536 + s[1] as nat * 256 + s[2] as nat
    ensures Pow256(3) == Pow24
  {
    assert s[..2][..1] == s[..1];
    assert FromBE(s[..1]) == s[0] as nat;
  }

  /** A prefix of a big-endian string reads as the whole divided by the dropped bytes' weight. */
  lemma {:induction false} FromBEPrefix(s: seq<Byte>, k: nat)
    requires k <= |s|
    ensures FromBE(s[..k]) == FromBE(s) / Pow256(|s| - k)
    decreases |s| - k
  {
    if k < |s| {
      var init := s[..|s| - 1];
      assert init[..k] == s[..k];
      FromBEPrefix(init, k);
      var n := FromBE(s);
      assert n == 256 * FromBE(init) + s[|s| - 1] as nat;
      DivUnique(n, 256, FromBE(init), s[|s| - 1] as nat);
      DivDiv(n, 256, Pow256(|init| - k));
    } else {
      assert s[..k] == s;
    }
  }

  lemma ByteLengthOfMantissa(m: nat)
    requires Pow256(2) <= m < Pow24
    ensures ByteLength(m) == 3
  {
    assert Pow256(2) == 65536;
    var m1 := m / 256;
    var m2 := m1 / 256;
    assert 256 <= m1 < 65536 && 1 <= m2 < 256 && m2 / 256 == 0;
    assert ByteLength(m2) == 1;
    assert ByteLength(m1) == 2;
  }

  /** Targets of at most three bytes are exactly those below 2^24. */
  lemma ShortIffSmall(target: nat)
    requires target > 0
    ensures ByteLength(target) <= 3 <==> target < Pow24
  {
    ByteLengthBounds(target);
    Pow256Widths();
    if ByteLength(target) > 3 {
      Pow256Monotone(3, ByteLength(target) - 1);
    } else {
      Pow256Monotone(ByteLength(target), 3);
    }
  }

  /** Multiplying by 256^k adds `k` bytes. */
  lemma {:induction false} ByteLengthShift(m: nat, k: nat)
    requires m > 0
    ensures ByteLength(m * Pow256(k)) == ByteLength(m) + k
  {
    if k > 0 {
      ByteLengthShift(m, k - 1);
      var x := m * Pow256(k - 1);
      assert m * Pow256(k) == x * 256;
      MulAtLeast(x, 256);
      DivUnique(x * 256, 256, x, 0);
    }
  }
}
