/**
  VarInt and VarLong: little-endian groups of seven bits, the top bit of a byte saying that
  another follows. Both widths share one specification, with the byte limit and the integer
  width as parameters.
 */
module Varints {
  import opened Arithmetic
  import opened Powers
  import opened Bytes
  import opened Wrappers

  const MAX_VARINT_BYTES: nat := 5
  const MAX_VARLONG_BYTES: nat := 10

  /** The written form of an unsigned value. */
  function VarBytes(u: nat): (bytes: seq<byte>)
    ensures |bytes| >= 1
  {
    if u < 128 then [u] else [u % 128 + 128] + VarBytes(u / 128)
  }

  /** The closed-form length: bits in use, minus one, in sevens. */
  function VarLen(u: nat): nat {
    var bits := BitLength(u);
    (if bits == 0 then 0 else bits - 1) / 7 + 1
  }

  /** The value of the seven-bit groups, without any wrapping. */
  function Payload(bytes: seq<byte>): nat {
    if |bytes| == 0 then 0 else bytes[0] % 128 + 128 * Payload(bytes[1..])
  }

  /** Length of the first complete group sequence within `max` bytes. */
  function Terminator(buf: seq<byte>, max: nat): (n: Option<nat>)
    ensures n.Some? ==> 1 <= n.value <= |buf| && n.value <= max
  {
    if |buf| == 0 || max == 0 then None
    else if buf[0] < 128 then Some(1)
    else match Terminator(buf[1..], max - 1)
      case None => None
      case Some(k) => Some(k + 1)
  }

  /** Value and length of the integer at the front of `buf`; bits beyond the width are dropped. */
  function ReadVar(buf: seq<byte>, max: nat, bits: nat): (r: Result<(nat, nat), ProtocolError>)
    ensures r.Success? ==> r.value.0 < Pow2(bits) && 1 <= r.value.1 <= |buf| && r.value.1 <= max
  {
    match Terminator(buf, max)
    case Some(n) => Success((Rem(Payload(buf[..n]), Pow2(bits)), n))
    case None => Failure(if |buf| < max then UnexpectedEof(1, 0) else VarIntTooLong(max))
  }

  // ------------------------------------------------------------------ laws

  lemma {:induction false} VarBytesReads(u: nat, rest: seq<byte>, max: nat)
    requires |VarBytes(u)| <= max
    ensures Terminator(VarBytes(u) + rest, max) == Some(|VarBytes(u)|)
    ensures Payload(VarBytes(u)) == u
  {
    if u >= 128 {
      VarBytesReads(u / 128, rest, max - 1);
      assert (VarBytes(u) + rest)[1..] == VarBytes(u / 128) + rest;
      assert VarBytes(u)[1..] == VarBytes(u / 128);
    } else {
      assert VarBytes(u)[1..] == [];
    }
  }

  /** Byte `k` holds bits 7k to 7k + 6, and its top bit says whether another follows. */
  lemma {:induction false} VarBytesDigit(u: nat, k: nat)
    requires k < |VarBytes(u)|
    ensures VarBytes(u)[k] % 128 == Rem(Quot(u, Pow2(7 * k)), 128)
    ensures VarBytes(u)[k] >= 128 <==> k < |VarBytes(u)| - 1
  {
    QuotIsDivision(u, 128);
    DivideBack(u, 128);
    if k == 0 {
      assert Pow2(0) == 1;
      QuotUnique(u, 1, u, 0);
    } else {
      VarBytesDigit(u / 128, k - 1);
      QuotTwice(u, 128, Pow2(7 * (k - 1)));
      Pow2Plus7(7 * (k - 1));
    }
  }

  /** An integer is refused exactly when none of its first `max` bytes ends it: as incomplete while fewer
      have arrived, as too long once they all have. */
  lemma {:induction false} VarRefusals(buf: seq<byte>, max: nat, bits: nat)
    ensures ReadVar(buf, max, bits).Failure? <==> forall k :: 0 <= k < |buf| && k < max ==> buf[k] >= 128
    ensures ReadVar(buf, max, bits).Failure? ==>
      ReadVar(buf, max, bits).error == if |buf| < max then UnexpectedEof(1, 0) else VarIntTooLong(max)
  {
    TerminatorIsFirst(buf, max);
  }

  lemma {:induction false} TerminatorIsFirst(buf: seq<byte>, max: nat)
    ensures Terminator(buf, max).None? <==> forall k :: 0 <= k < |buf| && k < max ==> buf[k] >= 128
    ensures Terminator(buf, max).Some? ==>
      var n := Terminator(buf, max).value; buf[n - 1] < 128 && forall k :: 0 <= k < n - 1 ==> buf[k] >= 128
  {
    if |buf| == 0 || max == 0 {
    } else if buf[0] < 128 {
    } else {
      TerminatorIsFirst(buf[1..], max - 1);
      if Terminator(buf[1..], max - 1).None? {
        forall k | 0 <= k < |buf| && k < max ensures buf[k] >= 128 {
          if k > 0 { assert buf[k] == buf[1..][k - 1]; }
        }
      } else {
        var n := Terminator(buf[1..], max - 1).value;
        assert buf[n] == buf[1..][n - 1];
        forall k | 0 <= k < n ensures buf[k] >= 128 {
          if k > 0 { assert buf[k] == buf[1..][k - 1]; }
        }
      }
    }
  }

  /** An `i32` has five bytes at most, whatever they are. */
  lemma VarintRefusals(buf: seq<byte>)
    ensures ReadVarint(buf).Failure? <==> forall k :: 0 <= k < |buf| && k < 5 ==> buf[k] >= 128
    ensures ReadVarint(buf).Failure? ==>
      ReadVarint(buf).error == if |buf| < 5 then UnexpectedEof(1, 0) else VarIntTooLong(5)
  {
    hide Terminator, Payload, Pow2;
    VarRefusals(buf, MAX_VARINT_BYTES, 32);
  }

  /** A value needs at most `n` bytes exactly when it has at most `7 * n` bits. */
  lemma {:induction false} VarBytesFit(u: nat, n: nat)
    requires n >= 1
    ensures |VarBytes(u)| <= n <==> u < Pow2(7 * n)
  {
    Pow2Plus7(7 * (n - 1));
    if n > 1 && u >= 128 {
      VarBytesFit(u / 128, n - 1);
    } else if n > 1 {
      Pow2Mono(0, 7 * (n - 1));
    }
  }

  /** Reading a written value followed by anything returns it and its exact length. */
  lemma ReadWritten(u: nat, rest: seq<byte>, max: nat, bits: nat)
    requires u < Pow2(bits) && 1 <= bits <= 7 * max
    ensures |VarBytes(u)| <= max
    ensures ReadVar(VarBytes(u) + rest, max, bits) == Success((u, |VarBytes(u)|))
  {
    Pow2Mono(bits, 7 * max);
    VarBytesFit(u, max);
    VarBytesReads(u, rest, max);
    assert (VarBytes(u) + rest)[..|VarBytes(u)|] == VarBytes(u);
  }

  /** The closed form is the length that is written. */
  lemma {:induction false} VarLenIsLength(u: nat)
    ensures VarLen(u) == |VarBytes(u)|
  {
    if u >= 128 {
      VarLenIsLength(u / 128);
      SevenBitsFewer(u);
    } else {
      BitLengthLeast(u, 7);
      assert Pow2(7) == 128;
    }
  }

  lemma SevenBitsFewer(u: nat)
    requires u >= 128
    ensures BitLength(u) == BitLength(u / 128) + 7 && BitLength(u / 128) >= 1
  {
    var a := u / 2;
    var b := a / 2;
    var c := b / 2;
    var d := c / 2;
    var e := d / 2;
    var f := e / 2;
    assert f / 2 == u / 128;
    assert BitLength(u) == 1 + BitLength(a) && BitLength(a) == 1 + BitLength(b) && BitLength(b) == 1 + BitLength(c);
    assert BitLength(c) == 1 + BitLength(d) && BitLength(d) == 1 + BitLength(e) && BitLength(e) == 1 + BitLength(f);
  }

  lemma {:induction false} NoTerminatorInPrefix(u: nat, k: nat, max: nat)
    requires k < |VarBytes(u)|
    ensures Terminator(VarBytes(u)[..k], max) == None
  {
    if k > 0 && max > 0 {
      NoTerminatorInPrefix(u / 128, k - 1, max - 1);
      assert VarBytes(u)[..k][1..] == VarBytes(u / 128)[..k - 1];
    }
  }

  /** Every proper prefix of a written value asks for more bytes. */
  lemma PrefixIsEof(u: nat, k: nat, max: nat, bits: nat)
    requires u < Pow2(bits) && 1 <= bits <= 7 * max && k < |VarBytes(u)|
    ensures ReadVar(VarBytes(u)[..k], max, bits) == Failure(UnexpectedEof(1, 0))
  {
    NoTerminatorInPrefix(u, k, max);
    ReadWritten(u, [], max, bits);
  }

  lemma {:induction false} PayloadBound(bytes: seq<byte>)
    ensures Payload(bytes) < Pow2(7 * |bytes|)
  {
    if |bytes| == 0 {
    } else {
      PayloadBound(bytes[1..]);
      Pow2Plus7(7 * (|bytes| - 1));
    }
  }

  /** No accepted spelling of a value, canonical or not, is shorter than the written one. */
  lemma WrittenIsShortest(buf: seq<byte>, max: nat, bits: nat)
    requires ReadVar(buf, max, bits).Success?
    ensures |VarBytes(ReadVar(buf, max, bits).value.0)| <= ReadVar(buf, max, bits).value.1
  {
    var n := ReadVar(buf, max, bits).value.1;
    PayloadBound(buf[..n]);
    DivideBack(Payload(buf[..n]), Pow2(bits));
    VarBytesFit(ReadVar(buf, max, bits).value.0, n);
  }

  lemma {:induction false} TerminatorStable(buf: seq<byte>, more: seq<byte>, max: nat)
    ensures Terminator(buf, max).Some? ==> Terminator(buf + more, max) == Terminator(buf, max)
    ensures Terminator(buf, max).None? && |buf| >= max ==> Terminator(buf + more, max).None?
  {
    if |buf| > 0 && max > 0 {
      TerminatorStable(buf[1..], more, max - 1);
      assert (buf + more)[1..] == buf[1..] + more;
    }
  }

  /** More input never changes an answer that was not a request for more input. */
  lemma ReadVarStable(buf: seq<byte>, more: seq<byte>, max: nat, bits: nat)
    requires !ReadVar(buf, max, bits).Failure? || !ReadVar(buf, max, bits).error.UnexpectedEof?
    ensures ReadVar(buf + more, max, bits) == ReadVar(buf, max, bits)
  {
    TerminatorStable(buf, more, max);
    match Terminator(buf, max)
    case Some(n) => assert (buf + more)[..n] == buf[..n];
    case None =>
  }

  // ------------------------------------------------------------------ VarInt and VarLong

  function WriteVarintBytes(value: int): seq<byte>
    requires InSigned(value, 32)
  {
    VarBytes(AsUnsigned(value, 32))
  }

  function ReadVarint(buf: seq<byte>): (r: Result<(int, nat), ProtocolError>)
    ensures r.Success? ==> 1 <= r.value.1 <= |buf| && r.value.1 <= 5
  {
    var (u, used) :- ReadVar(buf, MAX_VARINT_BYTES, 32);
    Success((AsSigned(u, 32), used))
  }

  /** The value of up to five bytes: the top four bits of a fifth are lost. */
  lemma VarintInNumbers(buf: seq<byte>)
    requires ReadVarint(buf).Success?
    ensures var (v, n) := ReadVarint(buf).value;
      && InSigned(v, 32) && 1 <= n <= 5 && buf[n - 1] < 128
      && AsUnsigned(v, 32)
         == buf[0] as int % 128 + (if n < 2 then 0 else 0x80 * (buf[1] as int % 128))
            + (if n < 3 then 0 else 0x4000 * (buf[2] as int % 128))
            + (if n < 4 then 0 else 0x20_0000 * (buf[3] as int % 128))
            + (if n < 5 then 0 else 0x1000_0000 * (buf[4] as int % 16))
  {
    hide Payload, Rem, AsUnsigned, InSigned, ReadVarint, Pow2;
    var n := ReadVarint(buf).value.1;
    ValueIsPayload(buf);
    var b := buf[..n];
    FivePayload(b);
    if n == 5 {
      WrapAround(Payload(b) - 0x1000_0000 * (b[4] as int % 128), b[4] as int % 128);
    } else {
      WrapAround(Payload(b), 0);
    }
  }

  lemma WrapAround(low: nat, top: nat)
    requires low < 0x1000_0000 && top < 128
    ensures Rem(low + 0x1000_0000 * top, Pow2(32)) == low + 0x1000_0000 * (top % 16)
  {
    hide Rem;
    Pow2Of32();
    QuotUnique(low + 0x1000_0000 * top, Pow2(32), top / 16, low + 0x1000_0000 * (top % 16));
  }

  lemma ValueIsPayload(buf: seq<byte>)
    requires ReadVarint(buf).Success?
    ensures var (v, n) := ReadVarint(buf).value;
      buf[n - 1] < 128 && InSigned(v, 32) && AsUnsigned(v, 32) == Rem(Payload(buf[..n]), Pow2(32))
  {
    hide Payload, Rem, Pow2, Terminator, AsUnsigned, AsSigned;
    TerminatorIsFirst(buf, MAX_VARINT_BYTES);
    UnsignedRoundTrip(Rem(Payload(buf[..ReadVarint(buf).value.1]), Pow2(32)), 32);
  }

  lemma FivePayload(b: seq<byte>)
    requires 1 <= |b| <= 5
    ensures Payload(b)
      == b[0] as int % 128 + (if |b| < 2 then 0 else 0x80 * (b[1] as int % 128))
         + (if |b| < 3 then 0 else 0x4000 * (b[2] as int % 128))
         + (if |b| < 4 then 0 else 0x20_0000 * (b[3] as int % 128))
         + (if |b| < 5 then 0 else 0x1000_0000 * (b[4] as int % 128))
  {
    if |b| > 1 {
      TailPayload(b[1..]);
    }
  }

  lemma TailPayload(b: seq<byte>)
    requires 1 <= |b| <= 4
    ensures Payload(b)
      == b[0] as int % 128 + (if |b| < 2 then 0 else 0x80 * (b[1] as int % 128))
         + (if |b| < 3 then 0 else 0x4000 * (b[2] as int % 128))
         + (if |b| < 4 then 0 else 0x20_0000 * (b[3] as int % 128))
  {
    if |b| > 1 {
      assert Payload(b[1..]) == b[1] as int % 128 + 128 * Payload(b[1..][1..]);
      if |b| > 2 {
        assert Payload(b[1..][1..]) == b[2] as int % 128 + 128 * Payload(b[1..][1..][1..]);
      }
    }
  }

  /** For every `i32`: reading back, the closed-form length, and proper prefixes. */
  lemma VarintRoundTrip(value: int, rest: seq<byte>)
    requires InSigned(value, 32)
    ensures ReadVarint(WriteVarintBytes(value) + rest) == Success((value, VarLen(AsUnsigned(value, 32))))
    ensures VarLen(AsUnsigned(value, 32)) == |WriteVarintBytes(value)| <= MAX_VARINT_BYTES
    ensures forall k :: 0 <= k < |WriteVarintBytes(value)| ==>
      ReadVarint(WriteVarintBytes(value)[..k]) == Failure(UnexpectedEof(1, 0))
  {
    var u := AsUnsigned(value, 32);
    SignedRoundTrip(value, 32);
    ReadWritten(u, rest, MAX_VARINT_BYTES, 32);
    VarLenIsLength(u);
    forall k | 0 <= k < |WriteVarintBytes(value)|
      ensures ReadVarint(WriteVarintBytes(value)[..k]) == Failure(UnexpectedEof(1, 0))
    {
      PrefixIsEof(u, k, MAX_VARINT_BYTES, 32);
    }
  }

  /** A count or id as the program writes it: cast to `i32`, then a VarInt. */
  function VarintOf(n: nat): seq<byte> {
    WriteVarintBytes(AsSigned(n, 32))
  }

  lemma ReadVarintOf(n: nat, rest: seq<byte>)
    ensures ReadVarint(VarintOf(n) + rest) == Success((AsSigned(n, 32), |VarintOf(n)|))
    ensures 1 <= |VarintOf(n)| <= 5
    ensures forall k :: 0 <= k < |VarintOf(n)| ==>
      ReadVarint(VarintOf(n)[..k]) == Failure(UnexpectedEof(1, 0))
  {
    VarintRoundTrip(AsSigned(n, 32), rest);
  }

  /** The same for every `i64`. */
  lemma VarlongRoundTrip(value: int, rest: seq<byte>)
    requires InSigned(value, 64)
    ensures var u := AsUnsigned(value, 64);
      ReadVar(VarBytes(u) + rest, MAX_VARLONG_BYTES, 64) == Success((u, VarLen(u)))
      && AsSigned(u, 64) == value && VarLen(u) == |VarBytes(u)| <= MAX_VARLONG_BYTES
      && forall k :: 0 <= k < |VarBytes(u)| ==>
        ReadVar(VarBytes(u)[..k], MAX_VARLONG_BYTES, 64) == Failure(UnexpectedEof(1, 0))
  {
    var u := AsUnsigned(value, 64);
    SignedRoundTrip(value, 64);
    ReadWritten(u, rest, MAX_VARLONG_BYTES, 64);
    VarLenIsLength(u);
    forall k | 0 <= k < |VarBytes(u)|
      ensures ReadVar(VarBytes(u)[..k], MAX_VARLONG_BYTES, 64) == Failure(UnexpectedEof(1, 0))
    {
      PrefixIsEof(u, k, MAX_VARLONG_BYTES, 64);
    }
  }

  // ------------------------------------------------------------------ the loops

  /** Both writers' loop; the or of the continuation bit is an addition, bit 7 being clear. */
  method WriteVar(out: Buffer, u: nat)
    modifies out
    ensures out.bytes == old(out.bytes) + VarBytes(u)
  {
    var v := u;
    while true
      invariant out.bytes + VarBytes(v) == old(out.bytes) + VarBytes(u)
      decreases v
    {
      if v < 128 {
        out.bytes := out.bytes + [v];
        return;
      }
      ghost var was := out.bytes;
      out.bytes := out.bytes + [v % 128 + 128];
      assert was + VarBytes(v) == out.bytes + VarBytes(v / 128);
      v := v / 128;
    }
  }

  method WriteVarint(out: Buffer, value: int)
    requires InSigned(value, 32)
    modifies out
    ensures out.bytes == old(out.bytes) + WriteVarintBytes(value)
  {
    WriteVar(out, AsUnsigned(value, 32));
  }

  method WriteCast(out: Buffer, n: nat)
    modifies out
    ensures out.bytes == old(out.bytes) + VarintOf(n)
  {
    WriteVarint(out, AsSigned(n, 32));
  }

  /** Both readers' loop. The groups share no bit, so or-ing one in is an addition in the width. */
  method ReadVarLoop(buf: seq<byte>, max: nat, bits: nat) returns (r: Result<(nat, nat), ProtocolError>)
    ensures r == ReadVar(buf, max, bits)
  {
    hide Payload, Rem, Terminator, Pow2;
    var value, shift := 0, 0;
    EmptyPayload(bits);
    var limit := if |buf| < max then |buf| else max;
    assert buf[..0] == [];
    for i := 0 to limit
      invariant shift == 7 * i
      invariant value == Rem(Payload(buf[..i]), Pow2(bits))
      invariant forall j :: 0 <= j < i ==> buf[j] >= 128
    {
      GroupAdded(buf, i, bits);
      value := Rem(value + buf[i] % 128 * Pow2(shift), Pow2(bits));
      if buf[i] < 128 {
        TerminatorAt(buf, max, i);
        return Success((value, i + 1));
      }
      shift := shift + 7;
    }
    NoTerminator(buf, max);
    return Failure(if |buf| < max then UnexpectedEof(1, 0) else VarIntTooLong(max));
  }

  lemma EmptyPayload(bits: nat)
    ensures Rem(Payload([]), Pow2(bits)) == 0
  {
  }

  lemma GroupAdded(buf: seq<byte>, i: nat, bits: nat)
    requires i < |buf|
    ensures Rem(Rem(Payload(buf[..i]), Pow2(bits)) + buf[i] % 128 * Pow2(7 * i), Pow2(bits))
         == Rem(Payload(buf[..i + 1]), Pow2(bits))
  {
    hide Payload, Rem, Pow2;
    PayloadAppend(buf[..i], buf[i]);
    assert buf[..i] + [buf[i]] == buf[..i + 1];
    AddMod(Payload(buf[..i]), buf[i] % 128 * Pow2(7 * i), Pow2(bits));
  }

  lemma {:induction false} PayloadAppend(bytes: seq<byte>, last: byte)
    ensures Payload(bytes + [last]) == Payload(bytes) + last % 128 * Pow2(7 * |bytes|)
  {
    if |bytes| == 0 {
      assert (bytes + [last])[1..] == [];
    } else {
      PayloadAppend(bytes[1..], last);
      assert (bytes + [last])[1..] == bytes[1..] + [last];
      Pow2Plus7(7 * (|bytes| - 1));
      var p := Pow2(7 * (|bytes| - 1));
      assert 128 * (last % 128 * p) == last % 128 * (128 * p);
    }
  }

  lemma AddMod(a: nat, b: nat, m: nat)
    requires m > 0
    ensures Rem(Rem(a, m) + b, m) == Rem(a + b, m)
  {
    var x, q := Rem(a, m) + b, Quot(a, m);
    DivideBack(a, m);
    DivideBack(x, m);
    MulDistributes(Quot(x, m), q, m);
    QuotUnique(a + b, m, Quot(x, m) + q, Rem(x, m));
  }

  lemma {:induction false} TerminatorAt(buf: seq<byte>, max: nat, i: nat)
    requires i < |buf| && i < max && buf[i] < 128 && forall j :: 0 <= j < i ==> buf[j] >= 128
    ensures Terminator(buf, max) == Some(i + 1)
  {
    if i == 0 {
    } else {
      TerminatorAt(buf[1..], max - 1, i - 1);
    }
  }

  lemma {:induction false} NoTerminator(buf: seq<byte>, max: nat)
    requires forall j :: 0 <= j < |buf| && j < max ==> buf[j] >= 128
    ensures Terminator(buf, max) == None
  {
    if |buf| > 0 && max > 0 { NoTerminator(buf[1..], max - 1); }
  }
}
