/**
  Java's modified UTF-8 (the "Modified UTF-8" section of `java.io.DataInput`): U+0000 takes two
  bytes and supplementary characters are surrogate pairs of three bytes each. A `char` is a
  Unicode scalar value, so a `string` is what the program calls a string. The bit fields that the
  program joins with `|` have no bit in common, and appear here as sums.
 */
module ModifiedUtf8s {
  import opened Powers
  import opened Bytes
  import opened Wrappers

  const MAX_STRING_BYTES: nat := 65535

  // ------------------------------------------------------------------ encoding

  function CharLen(c: char): (n: nat)
    ensures 1 <= n <= 6
  {
    var cp := c as int;
    if cp == 0 then 2 else if cp < 0x80 then 1 else if cp < 0x800 then 2 else if cp < 0x1_0000 then 3 else 6
  }

  /** `modified_utf8_len`. */
  function ModLen(s: string): nat {
    if |s| == 0 then 0 else CharLen(s[0]) + ModLen(s[1..])
  }

  function Unit3(unit: nat): seq<byte>
    requires unit < 0x1_0000
  {
    [0xE0 + unit / 0x1000, 0x80 + unit / 0x40 % 0x40, 0x80 + unit % 0x40]
  }

  function EncodeChar(c: char): (bytes: seq<byte>)
    ensures |bytes| == CharLen(c)
  {
    var cp := c as int;
    if cp != 0 && cp < 0x80 then [cp]
    else if cp < 0x800 then [0xC0 + cp / 0x40, 0x80 + cp % 0x40]
    else if cp < 0x1_0000 then Unit3(cp)
    else
      var v := cp - 0x1_0000;
      Unit3(0xD800 + v / 0x400) + Unit3(0xDC00 + v % 0x400)
  }

  function Encode(s: string): (bytes: seq<byte>)
    ensures |bytes| == ModLen(s)
  {
    if |s| == 0 then [] else EncodeChar(s[0]) + Encode(s[1..])
  }

  /** Characters kept by the scan that stops before the first one that does not fit. */
  function CutFrom(s: string, used: nat): (k: nat)
    ensures k <= |s|
    decreases |s|
  {
    if |s| == 0 || used + CharLen(s[0]) > MAX_STRING_BYTES then 0
    else 1 + CutFrom(s[1..], used + CharLen(s[0]))
  }

  function Truncated(s: string): string {
    if ModLen(s) > MAX_STRING_BYTES then s[..CutFrom(s, 0)] else s
  }

  /** The written form: a `u16` length, then that many bytes. */
  function WriteString(s: string): seq<byte> {
    BigEndian(ModLen(Truncated(s)), 2) + Encode(Truncated(s))
  }

  // ------------------------------------------------------------------ decoding

  function Continuation(bytes: seq<byte>, i: nat): (r: Result<nat, ProtocolError>)
    ensures r.Success? ==> i < |bytes| && r.value < 0x40
  {
    if i >= |bytes| then Failure(Nbt("truncated modified UTF-8 sequence"))
    else if bytes[i] / 0x40 != 2 then Failure(Nbt("bad continuation byte"))
    else Success(bytes[i] % 0x40)
  }

  /** `char::from_u32`. */
  function FromCodePoint(cp: nat): Result<char, ProtocolError> {
    if cp < 0xD800 || 0xE000 <= cp < 0x11_0000 then Success(cp as char) else Failure(Nbt("invalid code point"))
  }

  /** The code unit of a three-byte sequence whose lead byte has been recognised. */
  function UnitAt(bytes: seq<byte>, i: nat): (r: Result<nat, ProtocolError>)
    requires i < |bytes|
    ensures r.Success? ==> i + 2 < |bytes| && r.value < 0x1_0000
  {
    var mid :- Continuation(bytes, i + 1);
    var low :- Continuation(bytes, i + 2);
    Success(bytes[i] % 0x10 * 0x1000 + mid * 0x40 + low)
  }

  /** The character at the front and the bytes it takes. */
  function DecodeChar(bytes: seq<byte>): (r: Result<(char, nat), ProtocolError>)
    requires |bytes| > 0
    ensures r.Success? ==> 1 <= r.value.1 <= |bytes|
  {
    var b := bytes[0];
    if b < 0x80 then Success((b as char, 1))
    else if b / 0x20 == 6 then
      var low :- Continuation(bytes, 1);
      var c :- FromCodePoint(b % 0x20 * 0x40 + low);
      Success((c, 2))
    else if b / 0x10 == 14 then
      var unit :- UnitAt(bytes, 0);
      if 0xD800 <= unit < 0xDC00 then
        if |bytes| <= 3 || bytes[3] / 0x10 != 14 then Failure(Nbt("unpaired high surrogate"))
        else
          var low :- UnitAt(bytes, 3);
          if low < 0xDC00 || low >= 0xE000 then Failure(Nbt("unpaired high surrogate"))
          else
            var c :- FromCodePoint(0x1_0000 + (unit - 0xD800) * 0x400 + (low - 0xDC00));
            Success((c, 6))
      else if 0xDC00 <= unit < 0xE000 then Failure(Nbt("unpaired low surrogate"))
      else
        var c :- FromCodePoint(unit);
        Success((c, 3))
    else Failure(Nbt("invalid modified UTF-8 lead byte"))
  }

  function Decode(bytes: seq<byte>): Result<string, ProtocolError> {
    if |bytes| == 0 then Success("")
    else
      var (c, used) :- DecodeChar(bytes);
      var s :- Decode(bytes[used..]);
      Success([c] + s)
  }

  /** A string at the front of `bytes`, and what follows it. */
  function ReadString(bytes: seq<byte>): (r: Result<(string, seq<byte>), ProtocolError>)
    ensures r.Success? ==> |r.value.1| + 2 <= |bytes|
  {
    if |bytes| < 2 then Failure(UnexpectedEof(2, |bytes|))
    else
      var len, rest := FromBigEndian(bytes[..2]), bytes[2..];
      if |rest| < len then Failure(UnexpectedEof(len, |rest|))
      else
        var s :- Decode(rest[..len]);
        Success((s, rest[len..]))
  }

  // ------------------------------------------------------------------ the format in numbers

  /** The forms of a character: one byte but for NUL, two, three, or, above U+FFFF, a surrogate pair whose
      halves share the twenty bits of what exceeds it. */
  lemma CharForms(c: char)
    ensures var cp := c as int;
      && (cp == 0 ==> EncodeChar(c) == [0xC0, 0x80])
      && (1 <= cp <= 0x7F ==> EncodeChar(c) == [cp])
      && (0x80 <= cp <= 0x7FF ==> EncodeChar(c) == [0xC0 + cp / 64, 0x80 + cp % 64])
      && (0x800 <= cp <= 0xFFFF ==> EncodeChar(c) == [0xE0 + cp / 4096, 0x80 + cp / 64 % 64, 0x80 + cp % 64])
      && (cp > 0xFFFF ==>
            var v := cp - 0x1_0000;
            EncodeChar(c) == [0xED, 0xA0 + v / 65536, 0x80 + v / 1024 % 64, 0xED, 0xB0 + v / 64 % 16, 0x80 + v % 64])
  {
    if c as int > 0xFFFF {
      HighForm(c as int - 0x1_0000);
      LowForm(c as int - 0x1_0000);
    }
  }

  lemma HighForm(v: nat)
    requires v < 0x10_0000
    ensures Unit3(0xD800 + v / 1024) == [0xED, 0xA0 + v / 65536, 0x80 + v / 1024 % 64]
  {
    var u := v / 1024;
    assert u / 64 == v / 65536;
    assert (0xD800 + u) / 0x1000 == 13 && (0xD800 + u) / 0x40 % 0x40 == 0x20 + u / 64;
    assert (0xD800 + u) % 0x40 == u % 64;
  }

  lemma LowForm(v: nat)
    requires v < 0x10_0000
    ensures Unit3(0xDC00 + v % 1024) == [0xED, 0xB0 + v / 64 % 16, 0x80 + v % 64]
  {
    var u := v % 1024;
    assert u / 64 == v / 64 % 16;
    assert (0xDC00 + u) / 0x1000 == 13 && (0xDC00 + u) / 0x40 % 0x40 == 0x30 + u / 64;
    assert (0xDC00 + u) % 0x40 == v % 64;
  }

  predicate IsContinuation(bytes: seq<byte>, i: nat) {
    i < |bytes| && 0x80 <= bytes[i] <= 0xBF
  }

  /** The number in a three-byte form. */
  function ThreeBytes(bytes: seq<byte>, i: nat): int
    requires i + 2 < |bytes|
  {
    (bytes[i] as int - 0xE0) * 4096 + (bytes[i + 1] as int - 0x80) * 64 + (bytes[i + 2] as int - 0x80)
  }

  predicate IsThreeBytes(bytes: seq<byte>, i: nat) {
    i < |bytes| && 0xE0 <= bytes[i] <= 0xEF && IsContinuation(bytes, i + 1) && IsContinuation(bytes, i + 2)
  }

  /** Just these beginnings are accepted, overlong ones included, and stand for these characters. */
  lemma Accepted(bytes: seq<byte>, c: char, n: nat)
    requires |bytes| > 0
    ensures DecodeChar(bytes) == Success((c, n)) <==>
      || (bytes[0] < 0x80 && n == 1 && c as int == bytes[0])
      || (0xC0 <= bytes[0] <= 0xDF && IsContinuation(bytes, 1) && n == 2
          && c as int == (bytes[0] as int - 0xC0) * 64 + (bytes[1] as int - 0x80))
      || (IsThreeBytes(bytes, 0) && n == 3 && c as int == ThreeBytes(bytes, 0)
          && !(0xD800 <= ThreeBytes(bytes, 0) <= 0xDFFF))
      || (IsThreeBytes(bytes, 0) && 0xD800 <= ThreeBytes(bytes, 0) <= 0xDBFF
          && IsThreeBytes(bytes, 3) && 0xDC00 <= ThreeBytes(bytes, 3) <= 0xDFFF && n == 6
          && c as int == 0x1_0000 + (ThreeBytes(bytes, 0) - 0xD800) * 1024 + (ThreeBytes(bytes, 3) - 0xDC00))
  {
    hide FromCodePoint, UnitAt, Continuation;
    ContinuationLaw(bytes, 1);
    if bytes[0] / 0x10 == 14 { UnitLaw(bytes, 0); }
    if |bytes| > 3 && bytes[3] / 0x10 == 14 { UnitLaw(bytes, 3); }
    CodePointLaw();
  }

  lemma ContinuationLaw(bytes: seq<byte>, i: nat)
    ensures Continuation(bytes, i).Success? <==> IsContinuation(bytes, i)
    ensures IsContinuation(bytes, i) ==> Continuation(bytes, i).value == bytes[i] - 0x80
    ensures i >= |bytes| ==> Continuation(bytes, i) == Failure(Nbt("truncated modified UTF-8 sequence"))
    ensures i < |bytes| && !IsContinuation(bytes, i) ==> Continuation(bytes, i) == Failure(Nbt("bad continuation byte"))
  {
  }

  lemma UnitLaw(bytes: seq<byte>, i: nat)
    requires i < |bytes| && bytes[i] / 0x10 == 14
    ensures UnitAt(bytes, i).Success? <==> IsThreeBytes(bytes, i)
    ensures IsThreeBytes(bytes, i) ==> UnitAt(bytes, i).value == ThreeBytes(bytes, i)
  {
    hide Continuation;
    ContinuationLaw(bytes, i + 1);
    ContinuationLaw(bytes, i + 2);
  }

  lemma CodePointLaw()
    ensures forall cp: nat ::
      FromCodePoint(cp).Success? <==> cp < 0xD800 || 0xE000 <= cp < 0x11_0000
    ensures forall cp: nat :: FromCodePoint(cp).Success? ==> FromCodePoint(cp).value as int == cp
  {
  }

  /** A string has the length of its two-byte prefix, and is refused when that much has not come. */
  lemma StringRefusals(bytes: seq<byte>)
    ensures |bytes| < 2 ==> ReadString(bytes) == Failure(UnexpectedEof(2, |bytes|))
    ensures |bytes| >= 2 ==>
      var len := bytes[0] as int * 256 + bytes[1] as int;
      && (|bytes| < 2 + len ==> ReadString(bytes) == Failure(UnexpectedEof(len, |bytes| - 2)))
      && (|bytes| >= 2 + len ==>
            && (ReadString(bytes).Success? <==> Decode(bytes[2..2 + len]).Success?)
            && (ReadString(bytes).Success? ==>
                  ReadString(bytes).value == (Decode(bytes[2..2 + len]).value, bytes[2 + len..])))
  {
    hide Decode;
    if |bytes| >= 2 {
      var b := bytes[..2];
      assert b[..1] == [bytes[0]] && FromBigEndian(b) == FromBigEndian([bytes[0]]) * 256 + bytes[1] as int;
      assert [bytes[0]][..0] == [] && FromBigEndian([bytes[0]]) == bytes[0];
      var len := bytes[0] as int * 256 + bytes[1] as int;
      if |bytes| >= 2 + len { assert bytes[2..][..len] == bytes[2..2 + len]; }
    }
  }

  // ------------------------------------------------------------------ laws

  lemma Unit3Reads(unit: nat, bytes: seq<byte>, i: nat)
    requires unit < 0x1_0000 && i + 3 <= |bytes| && bytes[i..i + 3] == Unit3(unit)
    ensures bytes[i] / 0x10 == 14 && UnitAt(bytes, i) == Success(unit)
  {
    assert bytes[i] == Unit3(unit)[0] && bytes[i + 1] == Unit3(unit)[1] && bytes[i + 2] == Unit3(unit)[2];
    assert unit == unit / 0x1000 * 0x1000 + unit / 0x40 % 0x40 * 0x40 + unit % 0x40 by {
      assert unit / 0x40 / 0x40 == unit / 0x1000;
    }
  }

  /** Every character is read back, whatever follows it. */
  lemma CharRoundTrip(c: char, rest: seq<byte>)
    ensures DecodeChar(EncodeChar(c) + rest) == Success((c, |EncodeChar(c)|))
  {
    var cp, bytes := c as int, EncodeChar(c) + rest;
    if cp >= 0x1_0000 {
      var v := cp - 0x1_0000;
      var high, low := 0xD800 + v / 0x400, 0xDC00 + v % 0x400;
      assert bytes[0..3] == Unit3(high) && bytes[3..6] == Unit3(low);
      Unit3Reads(high, bytes, 0);
      Unit3Reads(low, bytes, 3);
      assert 0x1_0000 + (high - 0xD800) * 0x400 + (low - 0xDC00) == cp;
    } else if cp >= 0x800 {
      assert bytes[0..3] == Unit3(cp);
      Unit3Reads(cp, bytes, 0);
    } else if cp == 0 || cp >= 0x80 {
      assert bytes[0] == 0xC0 + cp / 0x40 && bytes[1] == 0x80 + cp % 0x40;
    }
  }

  /** Every string is read back. */
  lemma {:induction false} DecodeEncode(s: string)
    ensures Decode(Encode(s)) == Success(s)
  {
    hide DecodeChar, EncodeChar;
    if |s| == 0 {
    } else {
      CharRoundTrip(s[0], Encode(s[1..]));
      DecodeEncode(s[1..]);
      assert Encode(s)[|EncodeChar(s[0])|..] == Encode(s[1..]);
      assert [s[0]] + s[1..] == s;
    }
  }

  lemma {:induction false} CutIsLongest(s: string, used: nat)
    requires used <= MAX_STRING_BYTES
    ensures used + ModLen(s[..CutFrom(s, used)]) <= MAX_STRING_BYTES
    ensures forall j :: CutFrom(s, used) < j <= |s| ==> used + ModLen(s[..j]) > MAX_STRING_BYTES
    decreases |s|
  {
    if |s| == 0 {
    } else if used + CharLen(s[0]) > MAX_STRING_BYTES {
      forall j | 0 < j <= |s| ensures used + ModLen(s[..j]) > MAX_STRING_BYTES {
        assert s[..j][0] == s[0];
      }
    } else {
      var k := CutFrom(s[1..], used + CharLen(s[0]));
      CutIsLongest(s[1..], used + CharLen(s[0]));
      assert s[..k + 1][1..] == s[1..][..k];
      forall j | k + 1 < j <= |s| ensures used + ModLen(s[..j]) > MAX_STRING_BYTES {
        assert s[..j][1..] == s[1..][..j - 1];
      }
    }
  }

  /** What is written is the longest whole-character prefix that fits, the whole string if it does. */
  lemma TruncatedIsLongest(s: string)
    ensures Truncated(s) <= s && ModLen(Truncated(s)) <= 65535
    ensures forall j :: |Truncated(s)| < j <= |s| ==> ModLen(s[..j]) > 65535
    ensures Truncated(s) == s <==> ModLen(s) <= 65535
  {
    CutIsLongest(s, 0);
    assert s[..|s|] == s;
  }

  /** A written string reads back as its truncation, and exactly its own bytes are consumed. */
  lemma StringRoundTrip(s: string, rest: seq<byte>)
    ensures ReadString(WriteString(s) + rest) == Success((Truncated(s), rest))
  {
    hide Decode, Encode, ModLen, Truncated, BigEndian, FromBigEndian;
    var kept := Truncated(s);
    TruncatedIsLongest(s);
    Pow2Of16();
    BigEndianRoundTrip(ModLen(kept), 2);
    DecodeEncode(kept);
    var bytes := WriteString(s) + rest;
    assert bytes[..2] == BigEndian(ModLen(kept), 2);
    assert bytes[2..] == Encode(kept) + rest;
    assert (Encode(kept) + rest)[..ModLen(kept)] == Encode(kept) && (Encode(kept) + rest)[ModLen(kept)..] == rest;
  }

  /** The check for invalid code points never fires: surrogates are caught before it. */
  lemma CodePointsAreValid(bytes: seq<byte>)
    requires |bytes| > 0
    ensures DecodeChar(bytes).Failure? ==> DecodeChar(bytes).error != Nbt("invalid code point")
  {
    assert "invalid code point" != "truncated modified UTF-8 sequence" by {
      assert "invalid code point"[0] == 'i' && "truncated modified UTF-8 sequence"[0] == 't';
    }
    assert "invalid code point" != "bad continuation byte" by {
      assert "invalid code point"[0] == 'i' && "bad continuation byte"[0] == 'b';
    }
    assert "invalid code point" != "unpaired high surrogate" && "invalid code point" != "unpaired low surrogate" by {
      assert "invalid code point"[0] == 'i';
      assert "unpaired high surrogate"[0] == 'u' && "unpaired low surrogate"[0] == 'u';
    }
    assert "invalid code point" != "invalid modified UTF-8 lead byte" by {
      assert "invalid code point"[8] == 'c' && "invalid modified UTF-8 lead byte"[8] == 'm';
    }
  }

  /** A three-byte surrogate is accepted exactly when it is a high one followed by a low one,
      and then the two make one supplementary character. */
  lemma SurrogatesPair(unit: nat, rest: seq<byte>)
    requires 0xD800 <= unit < 0xE000
    ensures var r := DecodeChar(Unit3(unit) + rest);
      && (r.Success? <==>
            unit < 0xDC00 && |rest| > 0 && rest[0] / 0x10 == 14 && UnitAt(rest, 0).Success?
            && 0xDC00 <= UnitAt(rest, 0).value < 0xE000)
      && (r.Success? ==>
            r.value.1 == 6 && r.value.0 as int == 0x1_0000 + (unit - 0xD800) * 0x400 + (UnitAt(rest, 0).value - 0xDC00))
  {
    var bytes := Unit3(unit) + rest;
    assert bytes[0..3] == Unit3(unit);
    Unit3Reads(unit, bytes, 0);
    assert bytes[3..] == rest;
    if |rest| > 0 {
      assert UnitAt(bytes, 3) == UnitAt(rest, 0);
    }
  }

  function ZeroBytes(bytes: seq<byte>): nat {
    if |bytes| == 0 then 0 else (if bytes[0] == 0 then 1 else 0) + ZeroBytes(bytes[1..])
  }

  lemma {:induction false} ZeroBytesSplit(bytes: seq<byte>, n: nat)
    requires n <= |bytes|
    ensures ZeroBytes(bytes) == ZeroBytes(bytes[..n]) + ZeroBytes(bytes[n..])
  {
    if n > 0 {
      ZeroBytesSplit(bytes[1..], n - 1);
      assert bytes[..n][1..] == bytes[1..][..n - 1];
    } else {
      assert bytes[0..] == bytes;
    }
  }

  /** Only raw zero bytes, which the encoder never writes, make a decoded string longer than its source. */
  lemma {:induction false} DecodedLength(bytes: seq<byte>)
    requires Decode(bytes).Success?
    ensures ModLen(Decode(bytes).value) <= |bytes| + ZeroBytes(bytes)
  {
    if |bytes| == 0 {
    } else {
      var (c, used) := DecodeChar(bytes).value;
      DecodedLength(bytes[used..]);
      ZeroBytesSplit(bytes, used);
      DecodedCharLength(bytes);
      assert bytes[0] == bytes[..used][0];
    }
  }

  lemma DecodedCharLength(bytes: seq<byte>)
    requires |bytes| > 0 && DecodeChar(bytes).Success?
    ensures CharLen(DecodeChar(bytes).value.0) <= DecodeChar(bytes).value.1 + if bytes[0] == 0 then 1 else 0
  {
  }

  // ------------------------------------------------------------------ the loops

  method WriteModifiedUtf8(s: string, out: Buffer)
    modifies out
    ensures out.bytes == old(out.bytes) + WriteString(s)
  {
    hide EncodeChar, CharLen, BigEndian, CutFrom;
    var kept, len := s, ModLen(s);
    if len > MAX_STRING_BYTES {
      kept, len := CutToFit(s);
    }
    out.bytes := out.bytes + BigEndian(len, 2);
    ghost var before := out.bytes;
    for i := 0 to |kept|
      invariant out.bytes == before + Encode(kept[..i])
    {
      EncodeAppend(kept[..i], kept[i]);
      assert kept[..i] + [kept[i]] == kept[..i + 1];
      out.bytes := out.bytes + EncodeChar(kept[i]);
    }
    assert kept[..|kept|] == kept;
  }

  /** The scan for the cut, character by character. */
  method CutToFit(s: string) returns (kept: string, used: nat)
    ensures kept == s[..CutFrom(s, 0)] && used == ModLen(kept)
  {
    hide CharLen;
    var cut := 0;
    used := 0;
    assert s[0..] == s;
    while cut < |s|
      invariant 0 <= cut <= |s|
      invariant used == ModLen(s[..cut])
      invariant CutFrom(s, 0) == cut + CutFrom(s[cut..], used)
    {
      var need := CharLen(s[cut]);
      if used + need > MAX_STRING_BYTES {
        break;
      }
      ModLenAppend(s[..cut], s[cut]);
      assert s[..cut] + [s[cut]] == s[..cut + 1];
      assert s[cut..][1..] == s[cut + 1..];
      used := used + need;
      cut := cut + 1;
    }
    kept := s[..cut];
  }

  lemma {:induction false} ModLenAppend(s: string, c: char)
    ensures ModLen(s + [c]) == ModLen(s) + CharLen(c)
  {
    if |s| == 0 {
      assert [] + [c] == [c] && [c][1..] == [];
    } else {
      ModLenAppend(s[1..], c);
      assert (s + [c])[1..] == s[1..] + [c];
    }
  }

  lemma {:induction false} EncodeAppend(s: string, c: char)
    ensures Encode(s + [c]) == Encode(s) + EncodeChar(c)
  {
    hide EncodeChar, CharLen;
    if |s| == 0 {
      assert [] + [c] == [c] && [c][1..] == [];
    } else {
      EncodeAppend(s[1..], c);
      assert (s + [c])[1..] == s[1..] + [c];
    }
  }

  method DecodeModifiedUtf8(bytes: seq<byte>) returns (r: Result<string, ProtocolError>)
    ensures r == Decode(bytes)
  {
    hide DecodeChar;
    var out := "";
    var i := 0;
    assert bytes[0..] == bytes;
    if Decode(bytes).Success? { assert "" + Decode(bytes).value == Decode(bytes).value; }
    while i < |bytes|
      invariant 0 <= i <= |bytes|
      invariant match Decode(bytes[i..])
        case Success(s) => Decode(bytes) == Success(out + s)
        case Failure(e) => Decode(bytes) == Failure(e)
    {
      match DecodeChar(bytes[i..]) {
        case Failure(e) => return Failure(e);
        case Success((c, used)) =>
          assert bytes[i..][used..] == bytes[i + used..];
          ghost var rest := Decode(bytes[i + used..]);
          if rest.Success? { assert out + ([c] + rest.value) == out + [c] + rest.value; }
          out := out + [c];
          i := i + used;
      }
    }
    assert out + "" == out;
    return Success(out);
  }
}
