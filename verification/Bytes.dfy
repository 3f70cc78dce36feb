/**
  Byte buffers and fixed-width big-endian integers. A `u8` is a number below 256; signed
  integers are numbers within their range, written in two's complement.
 */
module Bytes {
  import opened Arithmetic
  import opened Powers

  type byte = b: nat | b < 256

  /** A growable buffer: the program's `Vec<u8>` and `BytesMut`. */
  class Buffer {
    var bytes: seq<byte>

    constructor ()
      ensures bytes == []
    {
      bytes := [];
    }
  }

  /** How a read or a write can fail. */
  datatype ProtocolError =
    | UnexpectedEof(needed: nat, available: nat)
    | VarIntTooLong(max: nat)
    | NegativeLength(value: int)
    | LengthLimitExceeded(len: nat, max: nat)
    | FrameTooLarge(len: nat, max: nat)
    | BadlyCompressed(size: nat, threshold: nat)
    | DecompressedTooLarge(len: nat, max: nat)
    | Compression
    | InvalidEnum(value: int)
    | NbtTooDeep(max: nat)
    | Nbt(message: string)

  // ------------------------------------------------------------------ two's complement

  ghost predicate InSigned(v: int, bits: nat)
    requires bits >= 1
  {
    0 - Pow2(bits - 1) <= v < Pow2(bits - 1)
  }

  /** `as u32` and the like on a signed value of the same width. */
  function AsUnsigned(v: int, bits: nat): (u: nat)
    requires bits >= 1 && InSigned(v, bits)
    ensures u < Pow2(bits)
  {
    assert Pow2(bits) == 2 * Pow2(bits - 1);
    if v < 0 then v + Pow2(bits) else v
  }

  /** `as i32` and the like on an unsigned value of any size, which wraps. */
  function AsSigned(u: nat, bits: nat): (v: int)
    requires bits >= 1
    ensures InSigned(v, bits)
  {
    var w := Rem(u, Pow2(bits));
    if w < Pow2(bits - 1) then w else w - Pow2(bits)
  }

  lemma SignedRoundTrip(v: int, bits: nat)
    requires bits >= 1 && InSigned(v, bits)
    ensures AsSigned(AsUnsigned(v, bits), bits) == v
  {
  }

  lemma UnsignedRoundTrip(u: nat, bits: nat)
    requires bits >= 1 && u < Pow2(bits)
    ensures AsUnsigned(AsSigned(u, bits), bits) == u
    ensures u < Pow2(bits - 1) <==> AsSigned(u, bits) >= 0
    ensures u < Pow2(bits - 1) ==> AsSigned(u, bits) == u
  {
  }

  // ------------------------------------------------------------------ big-endian integers

  function BigEndian(v: nat, n: nat): (bytes: seq<byte>)
    ensures |bytes| == n
  {
    if n == 0 then [] else BigEndian(v / 256, n - 1) + [v % 256]
  }

  function FromBigEndian(bytes: seq<byte>): nat {
    if |bytes| == 0 then 0 else FromBigEndian(bytes[..|bytes| - 1]) * 256 + bytes[|bytes| - 1]
  }

  /** The most significant byte comes first. */
  lemma {:induction false} BigEndianDigit(v: nat, n: nat, k: nat)
    requires k < n
    ensures BigEndian(v, n)[k] == Rem(Quot(v, Pow2(8 * (n - 1 - k))), 256)
  {
    if k == n - 1 {
      assert Pow2(0) == 1;
      QuotUnique(v, 1, v, 0);
      DivideBack(v, 256);
      QuotIsDivision(v, 256);
    } else {
      BigEndianDigit(v / 256, n - 1, k);
      QuotIsDivision(v, 256);
      QuotTwice(v, 256, Pow2(8 * (n - 2 - k)));
      Pow2Plus8(8 * (n - 2 - k));
    }
  }

  lemma {:induction false} BigEndianRoundTrip(v: nat, n: nat)
    requires v < Pow2(8 * n)
    ensures FromBigEndian(BigEndian(v, n)) == v
  {
    if n == 0 {
    } else {
      Pow2Plus8(8 * (n - 1));
      BigEndianRoundTrip(v / 256, n - 1);
      assert BigEndian(v, n)[..n - 1] == BigEndian(v / 256, n - 1);
    }
  }

  lemma {:induction false} FromBigEndianBound(bytes: seq<byte>)
    ensures FromBigEndian(bytes) < Pow2(8 * |bytes|)
  {
    if |bytes| == 0 {
    } else {
      FromBigEndianBound(bytes[..|bytes| - 1]);
      Pow2Plus8(8 * (|bytes| - 1));
    }
  }
}
