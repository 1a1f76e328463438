/** Fixed-width integers, byte encodings and the hash primitive shared by the
    plotter and the miner. Integers are unbounded in Dafny; the C# widths
    (byte, int, uint, long, ulong) are subset types, and every wrap-around or
    truncating cast the C# code performs is written out with Wrap32, Wrap64,
    ToInt32 and ToInt64. */
module Bytes {

  const TWO_8: int := 0x100
  const TWO_31: int := 0x8000_0000
  const TWO_32: int := 0x1_0000_0000
  const TWO_63: int := 0x8000_0000_0000_0000
  const TWO_64: int := 0x1_0000_0000_0000_0000

  type byte = x: int | 0 <= x < TWO_8
  type u32 = x: int | 0 <= x < TWO_32
  type u64 = x: int | 0 <= x < TWO_64
  type i32 = x: int | -TWO_31 <= x < TWO_31
  type i64 = x: int | -TWO_63 <= x < TWO_63

  /** The 32-byte output of the hash function. */
  type Digest = s: seq<byte> | |s| == 32 witness seq(32, _ => 0)

  /** Shabal-256 as seen by this model: any total function from byte strings
      to 32-byte digests. The real hash is foreign code and is a parameter. */
  type Hasher = seq<byte> -> Digest

  /** Result of a C# operation that may throw. */
  datatype Result<T> = Success(value: T) | Failure(error: string)

  datatype Option<T> = None | Some(value: T)

  /** Unsigned arithmetic modulo 2^32 (C# uint, unchecked). */
  function Wrap32(x: int): (r: u32)
    ensures 0 <= x < TWO_32 ==> r == x
    ensures (r - x) % TWO_32 == 0
  {
    x % TWO_32
  }

  /** Unsigned arithmetic modulo 2^64 (C# ulong, unchecked). */
  function Wrap64(x: int): (r: u64)
    ensures 0 <= x < TWO_64 ==> r == x
  {
    x % TWO_64
  }

  /** Wrapping after every addition is wrapping once at the end. */
  lemma {:induction false} Wrap64Add(a: int, b: int)
    ensures Wrap64(Wrap64(a) + b) == Wrap64(a + b)
  {
  }

  /** The unchecked cast `(int)` of a 64-bit value: keep the low 32 bits and
      read them as two's complement. */
  function ToInt32(x: int): (r: i32)
    ensures -TWO_31 <= x < TWO_31 ==> r == x
    ensures (r - x) % TWO_32 == 0
  {
    var w := x % TWO_32;
    if w < TWO_31 then w else w - TWO_32
  }

  /** The unchecked cast `(long)` of a ulong. */
  function ToInt64(x: u64): (r: i64)
    ensures x < TWO_63 ==> r == x
    ensures x >= TWO_63 ==> r < 0
  {
    if x < TWO_63 then x else x - TWO_64
  }

  /** Bitwise exclusive or of two bytes (C# `^` on byte operands). */
  function Xor(a: byte, b: byte): (r: byte)
  {
    ((a as bv8) ^ (b as bv8)) as int
  }

  /** C# `&`, `|` and `<<` on non-negative integers, bit by bit from the
      least significant. */
  function Pow2(n: nat): (p: nat)
    ensures p >= 1
  {
    if n == 0 then 1 else 2 * Pow2(n - 1)
  }

  function BitAnd(a: nat, b: nat): nat
  {
    if a == 0 || b == 0 then 0
    else 2 * BitAnd(a / 2, b / 2) + (if a % 2 == 1 && b % 2 == 1 then 1 else 0)
  }

  function BitOr(a: nat, b: nat): nat
  {
    if a == 0 then b
    else if b == 0 then a
    else 2 * BitOr(a / 2, b / 2) + (if a % 2 == 1 || b % 2 == 1 then 1 else 0)
  }

  function ShiftLeft(a: nat, n: nat): nat
  {
    a * Pow2(n)
  }

  /** Masking with 0x0F keeps the value modulo 16 (and 0x07, 0x03, 0x01 on the way). */
  lemma {:induction false} AndOne(a: nat)
    ensures BitAnd(a, 1) == a % 2
  {
    if a > 0 {
      assert BitAnd(a / 2, 0) == 0;
    }
  }

  lemma {:induction false} AndThree(a: nat)
    ensures BitAnd(a, 3) == a % 4
  {
    if a > 0 {
      AndOne(a / 2);
      HalfMod4(a);
    }
  }

  lemma {:induction false} AndSeven(a: nat)
    ensures BitAnd(a, 7) == a % 8
  {
    if a > 0 {
      AndThree(a / 2);
      HalfMod8(a);
    }
  }

  lemma {:induction false} AndFifteen(a: nat)
    ensures BitAnd(a, 0x0F) == a % 16
  {
    if a > 0 {
      AndSeven(a / 2);
      HalfMod16(a);
    }
  }

  lemma HalfMod4(a: nat)
    ensures a % 4 == 2 * ((a / 2) % 2) + a % 2
  {
  }

  lemma HalfMod8(a: nat)
    ensures a % 8 == 2 * ((a / 2) % 4) + a % 2
  {
  }

  lemma HalfMod16(a: nat)
    ensures a % 16 == 2 * ((a / 2) % 8) + a % 2
  {
  }

  /** Or-ing in a value below 2^k after a shift by k is adding it. */
  lemma {:induction false} OrBelowShift(a: nat, b: nat, k: nat)
    requires b < Pow2(k)
    ensures BitOr(ShiftLeft(a, k), b) == ShiftLeft(a, k) + b
  {
    if k > 0 && a > 0 && b > 0 {
      var p := Pow2(k - 1);
      assert a * Pow2(k) == 2 * (a * p);
      assert (a * Pow2(k)) / 2 == a * p && (a * Pow2(k)) % 2 == 0;
      OrBelowShift(a, b / 2, k - 1);
    }
  }

  /** The n-byte big-endian encoding of the low 8n bits of x. */
  function BigEndian(x: nat, n: nat): (s: seq<byte>)
    ensures |s| == n
  {
    if n == 0 then [] else BigEndian(x / 256, n - 1) + [x % 256]
  }

  /** The value of a big-endian byte string. */
  function FromBigEndian(s: seq<byte>): (v: nat)
  {
    if s == [] then 0 else FromBigEndian(s[..|s| - 1]) * 256 + s[|s| - 1]
  }

  /** The value of a little-endian byte string (BitConverter.ToUInt64 on a
      little-endian host reads the first byte as the least significant). */
  function FromLittleEndian(s: seq<byte>): (v: nat)
  {
    if s == [] then 0 else s[0] + 256 * FromLittleEndian(s[1..])
  }

  function Pow256(n: nat): (p: nat)
    ensures p > 0
  {
    if n == 0 then 1 else 256 * Pow256(n - 1)
  }

  lemma {:induction false} FromBigEndianBound(s: seq<byte>)
    ensures FromBigEndian(s) < Pow256(|s|)
  {
    if s != [] {
      FromBigEndianBound(s[..|s| - 1]);
    }
  }

  lemma {:induction false} FromLittleEndianBound(s: seq<byte>)
    ensures FromLittleEndian(s) < Pow256(|s|)
  {
    if s != [] {
      FromLittleEndianBound(s[1..]);
    }
  }

  /** Decoding a big-endian encoding gives the value back. */
  lemma {:induction false} BigEndianRoundTrip(x: nat, n: nat)
    requires x < Pow256(n)
    ensures FromBigEndian(BigEndian(x, n)) == x
  {
    if n > 0 {
      var s := BigEndian(x, n);
      assert s[..n - 1] == BigEndian(x / 256, n - 1);
      BigEndianRoundTrip(x / 256, n - 1);
    }
  }

  /** Encoding a big-endian string's value gives the string back. */
  lemma {:induction false} FromBigEndianInjective(s: seq<byte>)
    ensures BigEndian(FromBigEndian(s), |s|) == s
  {
    if s != [] {
      var init := s[..|s| - 1];
      FromBigEndianInjective(init);
      var v := FromBigEndian(s);
      assert v / 256 == FromBigEndian(init);
      assert v % 256 == s[|s| - 1];
      assert s == init + [s[|s| - 1]];
    }
  }

  /** The 8-byte big-endian encoding of a ulong (BitConverter.GetBytes
      followed by Array.Reverse on a little-endian host). */
  function BigEndian64(x: u64): (s: seq<byte>)
    ensures |s| == 8
  {
    BigEndian(x, 8)
  }

  lemma {:induction false} BigEndian64RoundTrip(x: u64)
    ensures FromBigEndian(BigEndian64(x)) == x
  {
    assert Pow256(8) == TWO_64;
    BigEndianRoundTrip(x, 8);
  }

  /** BitConverter.ToUInt64 at offset 0: the first eight bytes in host order,
      which is little-endian on every platform the miner targets. */
  function ToUInt64(s: seq<byte>): (v: u64)
    requires |s| >= 8
    ensures v == FromLittleEndian(s[..8])
  {
    FromLittleEndianBound(s[..8]);
    assert Pow256(8) == TWO_64;
    FromLittleEndian(s[..8])
  }

  /** A byte string in the opposite order. */
  function Reverse(s: seq<byte>): (r: seq<byte>)
    ensures |r| == |s|
    ensures forall i :: 0 <= i < |s| ==> r[i] == s[|s| - 1 - i]
  {
    seq(|s|, i requires 0 <= i < |s| => s[|s| - 1 - i])
  }

  lemma {:induction false} ReverseReverse(s: seq<byte>)
    ensures Reverse(Reverse(s)) == s
  {
  }

  /** Reading little-endian is reading the reversed string big-endian. */
  lemma {:induction false} LittleIsReversedBig(s: seq<byte>)
    ensures FromLittleEndian(s) == FromBigEndian(Reverse(s))
  {
    if s != [] {
      LittleIsReversedBig(s[1..]);
      var r := Reverse(s);
      assert r[..|r| - 1] == Reverse(s[1..]);
      assert r[|r| - 1] == s[0];
    }
  }

  /** BitConverter.GetBytes(x) on a little-endian host: the big-endian bytes
      reversed, least significant first. */
  function LittleEndian64(x: u64): (s: seq<byte>)
    ensures |s| == 8
  {
    Reverse(BigEndian64(x))
  }

  /** BitConverter.ToUInt64 reads back what BitConverter.GetBytes wrote,
      whatever follows the first eight bytes. */
  lemma {:induction false} ToUInt64GetBytes(x: u64, rest: seq<byte>)
    ensures ToUInt64(LittleEndian64(x) + rest) == x
  {
    var s := LittleEndian64(x) + rest;
    assert s[..8] == LittleEndian64(x);
    LittleIsReversedBig(LittleEndian64(x));
    ReverseReverse(BigEndian64(x));
    BigEndian64RoundTrip(x);
  }

  /** ToUInt64 and FromBigEndian disagree only in byte order: the first
      eight bytes read little-endian are them reversed, read big-endian. */
  lemma {:induction false} ToUInt64IsReversedBigEndian(s: seq<byte>)
    requires |s| >= 8
    ensures ToUInt64(s) == FromBigEndian(Reverse(s[..8]))
  {
    LittleIsReversedBig(s[..8]);
  }

  function Min(a: int, b: int): (m: int)
    ensures m <= a && m <= b && (m == a || m == b)
  {
    if a <= b then a else b
  }

  /** Array.Copy of a whole source array to position `at`: overwrite dst[at .. at + |src|)
      with src and leave every other element of dst as it was. */
  method ArrayCopy(src: seq<byte>, dst: array<byte>, at: nat)
    requires at + |src| <= dst.Length
    modifies dst
    ensures dst[..] == old(dst[..at]) + src + old(dst[at + |src|..])
  {
    forall j | 0 <= j < |src| {
      dst[at + j] := src[j];
    }
    assert dst[..] == old(dst[..at]) + src + old(dst[at + |src|..]) by {
      forall q | 0 <= q < dst.Length
        ensures dst[..][q] == (old(dst[..at]) + src + old(dst[at + |src|..]))[q]
      {
        if q < at {
        } else if q < at + |src| {
        } else {
        }
      }
    }
  }
}
