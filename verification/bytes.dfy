/** Byte sequences and the fixed-width integer layouts the chain code writes:
    little-endian (`binary.LittleEndian`), big-endian (`binary.BigEndian`),
    the minimal big-endian form of a big integer (`big.Int.Bytes`), and
    lower-case hexadecimal (`hex.EncodeToString`, Python `bytes.hex`). */
module Bytes {
  import opened Wrappers
  import Arith

  /** An octet, as the number it stands for. */
  newtype Byte = x: int | 0 <= x < 256

  /** A SHA-256 (or other 32-byte) digest. */
  type Digest = s: seq<Byte> | |s| == 32 witness seq(32, _ => 0)

  const U32: nat := 0x1_0000_0000
  const U64: nat := 0x1_0000_0000_0000_0000

  /** Go's `uint32(n)`: the low 32 bits, so `n` itself below 2^32. */
  function Uint32(n: nat): (r: nat)
    ensures r < U32 && (r - n) % U32 == 0
    ensures n < U32 ==> r == n
  {
    if n < U32 then n else n % U32
  }

  function Pow256(k: nat): (r: nat)
    ensures r > 0
  {
    if k == 0 then 1 else 256 * Pow256(k - 1)
  }

  lemma Pow256Widths()
    ensures Pow256(1) == 256 && Pow256(2) == 0x1_0000 && Pow256(3) == 0x100_0000
    ensures Pow256(4) == U32 && Pow256(8) == U64
  {
    assert Pow256(1) == 256;
    assert Pow256(2) == 0x1_0000;
    assert Pow256(3) == 0x100_0000;
    assert Pow256(4) == U32;
    assert Pow256(5) == 0x100_0000_0000;
    assert Pow256(6) == 0x1_0000_0000_0000;
    assert Pow256(7) == 0x100_0000_0000_0000;
  }

  lemma {:induction false} Pow256Add(a: nat, b: nat)
    ensures Pow256(a + b) == Pow256(a) * Pow256(b)
  {
    if a > 0 {
      Pow256Add(a - 1, b);
      assert Pow256(a + b) == 256 * Pow256(a - 1 + b);
    }
  }

  lemma Pow256Monotone(a: nat, b: nat)
    requires a <= b
    ensures Pow256(a) <= Pow256(b)
  {
    if a < b {
      Pow256Monotone(a, b - 1);
    }
  }

  // ---------------------------------------------------------------- little-endian

  /** The `k` low-order bytes of `n`, least significant first. */
  function LE(n: nat, k: nat): (r: seq<Byte>)
    ensures |r| == k
  {
    if k == 0 then [] else [(n % 256) as Byte] + LE(n / 256, k - 1)
  }

  /** The value of a little-endian byte string. */
  function FromLE(s: seq<Byte>): nat {
    if |s| == 0 then 0 else s[0] as nat + 256 * FromLE(s[1..])
  }

  lemma {:induction false} FromLEBound(s: seq<Byte>)
    ensures FromLE(s) < Pow256(|s|)
  {
    if |s| > 0 {
      FromLEBound(s[1..]);
    }
  }

  lemma {:induction false} FromLEOfLE(n: nat, k: nat)
    requires n < Pow256(k)
    ensures FromLE(LE(n, k)) == n
  {
    if k > 0 {
      var r := LE(n, k);
      assert r[1..] == LE(n / 256, k - 1);
      FromLEOfLE(n / 256, k - 1);
      assert FromLE(r) == r[0] as nat + 256 * FromLE(r[1..]);
    }
  }

  /** Peeling the low byte off `b + 256·m` gives back `b` and `m`. */
  lemma SplitLowByte(b: Byte, m: nat)
    ensures (b as nat + 256 * m) % 256 == b as nat
    ensures (b as nat + 256 * m) / 256 == m
    ensures ((b as nat + 256 * m) % 256) as Byte == b
  {
    Arith.DivUnique(b as nat + 256 * m, 256, m, b as nat);
  }

  lemma {:induction false} LEOfFromLE(s: seq<Byte>)
    ensures LE(FromLE(s), |s|) == s
  {
    if |s| > 0 {
      var n := FromLE(s);
      var m := FromLE(s[1..]);
      assert n == s[0] as nat + 256 * m;
      SplitLowByte(s[0], m);
      LEOfFromLE(s[1..]);
      assert LE(n, |s|) == [(n % 256) as Byte] + LE(n / 256, |s| - 1);
      assert s == [s[0]] + s[1..];
    }
  }

  /** `binary.LittleEndian.PutUint32` into a fresh 4-byte buffer. */
  function PutUint32LE(n: nat): (r: seq<Byte>)
    requires n < U32
    ensures |r| == 4 && FromLE(r) == n
  {
    Pow256Widths();
    FromLEOfLE(n, 4);
    LE(n, 4)
  }

  /** `binary.LittleEndian.PutUint64` into a fresh 8-byte buffer. */
  function PutUint64LE(n: nat): (r: seq<Byte>)
    requires n < U64
    ensures |r| == 8 && FromLE(r) == n
  {
    Pow256Widths();
    FromLEOfLE(n, 8);
    LE(n, 8)
  }

  // ---------------------------------------------------------------- big-endian

  /** The `k` low-order bytes of `n`, most significant first. */
  function BE(n: nat, k: nat): (r: seq<Byte>)
    ensures |r| == k
  {
    if k == 0 then [] else BE(n / 256, k - 1) + [(n % 256) as Byte]
  }

  /** The value of a big-endian byte string (`big.Int.SetBytes`). */
  function FromBE(s: seq<Byte>): nat {
    if |s| == 0 then 0 else FromBE(s[..|s| - 1]) * 256 + s[|s| - 1] as nat
  }

  lemma {:induction false} FromBEBound(s: seq<Byte>)
    ensures FromBE(s) < Pow256(|s|)
  {
    if |s| > 0 {
      FromBEBound(s[..|s| - 1]);
    }
  }

  lemma {:induction false} FromBEOfBE(n: nat, k: nat)
    requires n < Pow256(k)
    ensures FromBE(BE(n, k)) == n
  {
    if k > 0 {
      var r := BE(n, k);
      assert r[..|r| - 1] == BE(n / 256, k - 1);
      FromBEOfBE(n / 256, k - 1);
      assert FromBE(r) == FromBE(r[..|r| - 1]) * 256 + r[|r| - 1] as nat;
    }
  }

  lemma {:induction false} BEOfFromBE(s: seq<Byte>)
    ensures BE(FromBE(s), |s|) == s
  {
    if |s| > 0 {
      var n := FromBE(s);
      var init := s[..|s| - 1];
      assert n == s[|s| - 1] as nat + 256 * FromBE(init);
      SplitLowByte(s[|s| - 1], FromBE(init));
      BEOfFromBE(init);
      assert BE(n, |s|) == BE(n / 256, |s| - 1) + [(n % 256) as Byte];
      assert s == init + [s[|s| - 1]];
    }
  }

  /** `binary.BigEndian.PutUint64` into a fresh 8-byte buffer. */
  function PutUint64BE(n: nat): (r: seq<Byte>)
    requires n < U64
    ensures |r| == 8 && FromBE(r) == n
  {
    Pow256Widths();
    FromBEOfBE(n, 8);
    BE(n, 8)
  }

  /** `binary.BigEndian.Uint64`: reads the first eight bytes (Go panics on fewer). */
  function Uint64BE(s: seq<Byte>): (r: nat)
    requires |s| >= 8
    ensures r < U64
  {
    Pow256Widths();
    FromBEBound(s[..8]);
    FromBE(s[..8])
  }

  lemma Uint64BERoundTrip(n: nat)
    requires n < U64
    ensures Uint64BE(PutUint64BE(n)) == n
  {
    var r := PutUint64BE(n);
    assert r[..8] == r;
  }

  /** Number of bytes in the minimal big-endian form of `n` (`len(big.Int.Bytes())`). */
  function ByteLength(n: nat): nat {
    if n == 0 then 0 else 1 + ByteLength(n / 256)
  }

  /** `big.Int.Bytes()` of a non-negative integer: big-endian, no leading zero byte. */
  function MinimalBE(n: nat): (r: seq<Byte>)
    ensures |r| == ByteLength(n)
  {
    if n == 0 then [] else MinimalBE(n / 256) + [(n % 256) as Byte]
  }

  lemma {:induction false} ByteLengthBounds(n: nat)
    requires n > 0
    ensures Pow256(ByteLength(n) - 1) <= n < Pow256(ByteLength(n))
  {
    if n >= 256 {
      ByteLengthBounds(n / 256);
    }
  }

  /** The big-endian value of `MinimalBE(n)` is `n`, and its first byte is non-zero. */
  lemma {:induction false} MinimalBEValue(n: nat)
    ensures FromBE(MinimalBE(n)) == n
    ensures n > 0 ==> MinimalBE(n)[0] != 0
  {
    if n > 0 {
      var r := MinimalBE(n);
      assert r[..|r| - 1] == MinimalBE(n / 256);
      MinimalBEValue(n / 256);
      assert FromBE(r) == FromBE(r[..|r| - 1]) * 256 + r[|r| - 1] as nat;
      if n >= 256 {
        assert r[0] == MinimalBE(n / 256)[0];
      }
    }
  }

  // ---------------------------------------------------------------- hexadecimal

  function HexDigit(d: nat): (c: char)
    requires d < 16
  {
    if d < 10 then ('0' as int + d) as char else ('a' as int + d - 10) as char
  }

  /** The value of a hexadecimal digit of either case, if `c` is one. */
  function HexValue(c: char): (r: Option<nat>)
    ensures r.Some? ==> r.value < 16
    ensures r.Some? && ('0' <= c <= '9' || 'a' <= c <= 'f') ==> HexDigit(r.value) == c
  {
    if '0' <= c <= '9' then Some(c as int - '0' as int)
    else if 'a' <= c <= 'f' then Some(c as int - 'a' as int + 10)
    else if 'A' <= c <= 'F' then Some(c as int - 'A' as int + 10)
    else None
  }

  /** `hex.EncodeToString`: two lower-case digits per byte, high nibble first. */
  function HexEncode(b: seq<Byte>): (s: string)
    ensures |s| == 2 * |b|
  {
    if |b| == 0 then ""
    else [HexDigit(b[0] as nat / 16), HexDigit(b[0] as nat % 16)] + HexEncode(b[1..])
  }

  /** `hex.DecodeString`: two digits of either case per byte, high nibble first. */
  function HexDecode(s: string): Option<seq<Byte>>
    decreases |s|
  {
    if |s| == 0 then Some([])
    else if |s| == 1 then None
    else match (HexValue(s[0]), HexValue(s[1]), HexDecode(s[2..]))
      case (Some(hi), Some(lo), Some(rest)) => Some([(hi * 16 + lo) as Byte] + rest)
      case _ => None
  }

  lemma {:induction false} HexRoundTrip(b: seq<Byte>)
    ensures HexDecode(HexEncode(b)) == Some(b)
  {
    if |b| > 0 {
      HexRoundTrip(b[1..]);
      HexDecodeByte(b[0], HexEncode(b[1..]), b[1..]);
      assert b == [b[0]] + b[1..];
    }
  }

  /** Decoding the two digits of one byte in front of decodable text. */
  lemma HexDecodeByte(x: Byte, t: string, rest: seq<Byte>)
    requires HexDecode(t) == Some(rest)
    ensures HexDecode([HexDigit(x as nat / 16), HexDigit(x as nat % 16)] + t) == Some([x] + rest)
  {
    HexDecodePair(x as nat / 16, x as nat % 16, x, t, rest);
  }

  lemma HexDecodePair(hi: nat, lo: nat, x: Byte, t: string, rest: seq<Byte>)
    requires hi < 16 && lo < 16 && hi * 16 + lo == x as nat
    requires HexDecode(t) == Some(rest)
    ensures HexDecode([HexDigit(hi), HexDigit(lo)] + t) == Some([x] + rest)
  {
    var s := [HexDigit(hi), HexDigit(lo)] + t;
    HexDigitValue(hi);
    HexDigitValue(lo);
    assert HexValue(s[0]) == Some(hi) && HexValue(s[1]) == Some(lo);
    assert s[2..] == t;
    assert HexDecode(s) == Some([(hi * 16 + lo) as Byte] + rest);
  }

  lemma HexDigitValue(d: nat)
    requires d < 16
    ensures HexValue(HexDigit(d)) == Some(d)
  {
  }
}
