/**
  CFB-8 stream encryption: each byte is combined with the first byte of the enciphered shift
  register, and the ciphertext byte is then shifted in (section 6.3 of NIST SP 800-38A, with
  8-bit segments). The block cipher is a parameter: `keystream(key, register)` is the leading
  byte of its output.
 */
module Crypts {
  import opened Arithmetic
  import opened Powers
  import opened Bytes
  import opened Wrappers

  const SHARED_SECRET_LEN: nat := 16

  // ------------------------------------------------------------------ exclusive or

  /** Bitwise exclusive or of the low `n` bits. */
  function Xor(a: nat, b: nat, n: nat): (x: nat)
    ensures x < Pow2(n)
  {
    if n == 0 then 0 else (a % 2 + b % 2) % 2 + 2 * Xor(a / 2, b / 2, n - 1)
  }

  lemma {:induction false} XorUndoes(a: nat, b: nat, n: nat)
    requires a < Pow2(n)
    ensures Xor(Xor(a, b, n), b, n) == a
  {
    if n == 0 {
    } else {
      var p, q := a % 2, b % 2;
      var bit, half := (p + q) % 2, Xor(a / 2, b / 2, n - 1);
      XorUndoes(a / 2, b / 2, n - 1);
      BitAndRest(bit, half);
      assert (bit + q) % 2 == p by {
        if p == 0 { assert bit == q; } else { assert bit == 1 - q; }
      }
    }
  }

  lemma BitAndRest(bit: nat, half: nat)
    requires bit < 2
    ensures (bit + 2 * half) % 2 == bit && (bit + 2 * half) / 2 == half
  {
  }

  /** Bit by bit: 1 where the two bits differ. */
  lemma {:induction false} XorBits(a: nat, b: nat, n: nat, k: nat)
    requires k < n
    ensures Rem(Quot(Xor(a, b, n), Pow2(k)), 2) == 1
      <==> Rem(Quot(a, Pow2(k)), 2) != Rem(Quot(b, Pow2(k)), 2)
  {
    hide Quot, Rem;
    var half, x := Xor(a / 2, b / 2, n - 1), Xor(a, b, n);
    BitAndRest((a % 2 + b % 2) % 2, half);
    if k == 0 {
      BitAbove(a, 0);
      BitAbove(b, 0);
      BitAbove(x, 0);
    } else {
      XorBits(a / 2, b / 2, n - 1, k - 1);
      BitAbove(a, k);
      BitAbove(b, k);
      BitAbove(x, k);
    }
  }

  lemma BitAbove(a: nat, k: nat)
    ensures k == 0 ==> Rem(Quot(a, Pow2(k)), 2) == a % 2
    ensures k > 0 ==> Quot(a, Pow2(k)) == Quot(a / 2, Pow2(k - 1))
  {
    hide Quot, Rem;
    QuotIsDivision(a, 2);
    if k == 0 {
      QuotUnique(a, 1, a, 0);
    } else {
      QuotTwice(a, 2, Pow2(k - 1));
    }
  }

  function XorByte(a: byte, b: byte): byte {
    Pow2Plus8(0);
    Xor(a, b, 8)
  }

  // ------------------------------------------------------------------ the mode as functions

  type Keystream = (seq<byte>, seq<byte>) -> byte

  function ShiftIn(register: seq<byte>, c: byte): seq<byte> {
    if |register| == 0 then [] else register[1..] + [c]
  }

  /** The register after a run of ciphertext. */
  function RegisterAfter(register: seq<byte>, ciphertext: seq<byte>): seq<byte>
    decreases |ciphertext|
  {
    if |ciphertext| == 0 then register
    else RegisterAfter(ShiftIn(register, ciphertext[0]), ciphertext[1..])
  }

  function Encipher(f: Keystream, key: seq<byte>, register: seq<byte>, plain: seq<byte>): (c: seq<byte>)
    ensures |c| == |plain|
    decreases |plain|
  {
    if |plain| == 0 then []
    else
      var c := XorByte(plain[0], f(key, register));
      [c] + Encipher(f, key, ShiftIn(register, c), plain[1..])
  }

  function Decipher(f: Keystream, key: seq<byte>, register: seq<byte>, ciphertext: seq<byte>): (p: seq<byte>)
    ensures |p| == |ciphertext|
    decreases |ciphertext|
  {
    if |ciphertext| == 0 then []
    else
      [XorByte(ciphertext[0], f(key, register))]
      + Decipher(f, key, ShiftIn(register, ciphertext[0]), ciphertext[1..])
  }

  /** Deciphering undoes enciphering, whatever the block cipher is. */
  lemma {:induction false} DecipherInverts(f: Keystream, key: seq<byte>, register: seq<byte>, plain: seq<byte>)
    ensures Decipher(f, key, register, Encipher(f, key, register, plain)) == plain
    decreases |plain|
  {
    if |plain| == 0 {
    } else {
      var c := XorByte(plain[0], f(key, register));
      Pow2Plus8(0);
      XorUndoes(plain[0], f(key, register), 8);
      DecipherInverts(f, key, ShiftIn(register, c), plain[1..]);
      assert Encipher(f, key, register, plain)[1..] == Encipher(f, key, ShiftIn(register, c), plain[1..]);
    }
  }

  lemma {:induction false} RegisterSplits(register: seq<byte>, a: seq<byte>, b: seq<byte>)
    ensures RegisterAfter(register, a + b) == RegisterAfter(RegisterAfter(register, a), b)
    decreases |a|
  {
    if |a| == 0 {
      assert a + b == b;
    } else {
      RegisterSplits(ShiftIn(register, a[0]), a[1..], b);
      assert (a + b)[1..] == a[1..] + b;
    }
  }

  /** The register is a window: the last bytes of what it held and the ciphertext since. */
  lemma {:induction false} RegisterIsWindow(register: seq<byte>, ciphertext: seq<byte>)
    ensures RegisterAfter(register, ciphertext) == (register + ciphertext)[|ciphertext|..]
    decreases |ciphertext|
  {
    if |ciphertext| == 0 {
    } else {
      var next := ShiftIn(register, ciphertext[0]);
      RegisterIsWindow(next, ciphertext[1..]);
      if |register| == 0 {
        assert next + ciphertext[1..] == ciphertext[1..];
      } else {
        assert next + ciphertext[1..] == (register + ciphertext)[1..];
      }
    }
  }

  /** Each ciphertext byte is the plaintext byte with the leading byte of the block cipher's output on the
      register's length of ciphertext before it, the initial register standing in for what is missing. */
  lemma {:induction false} EncipherByte(f: Keystream, key: seq<byte>, register: seq<byte>, plain: seq<byte>, i: nat)
    requires i < |plain|
    ensures var c := Encipher(f, key, register, plain);
      c[i] == XorByte(plain[i], f(key, (register + c[..i])[i..]))
    decreases |plain|
  {
    var c := Encipher(f, key, register, plain);
    assert plain[..i] + plain[i..] == plain;
    EncipherSplits(f, key, register, plain[..i], plain[i..]);
    assert c[..i] == Encipher(f, key, register, plain[..i]);
    RegisterIsWindow(register, c[..i]);
    assert plain[i..][0] == plain[i];
  }

  lemma EncipherFirst(f: Keystream, key: seq<byte>, register: seq<byte>, first: byte, rest: seq<byte>)
    ensures var c := XorByte(first, f(key, register));
      Encipher(f, key, register, [first] + rest) == [c] + Encipher(f, key, ShiftIn(register, c), rest)
  {
    hide XorByte, ShiftIn;
    assert ([first] + rest)[1..] == rest;
  }

  lemma DecipherFirst(f: Keystream, key: seq<byte>, register: seq<byte>, first: byte, rest: seq<byte>)
    ensures Decipher(f, key, register, [first] + rest)
      == [XorByte(first, f(key, register))] + Decipher(f, key, ShiftIn(register, first), rest)
  {
    hide XorByte, ShiftIn;
    assert ([first] + rest)[1..] == rest;
  }

  lemma RegisterFirst(register: seq<byte>, first: byte, rest: seq<byte>)
    ensures RegisterAfter(register, [first] + rest) == RegisterAfter(ShiftIn(register, first), rest)
  {
    hide ShiftIn;
    assert ([first] + rest)[1..] == rest;
  }

  /** The state is continuous: enciphering in two calls is enciphering in one. */
  lemma {:induction false} EncipherSplits(
    f: Keystream, key: seq<byte>, register: seq<byte>, a: seq<byte>, b: seq<byte>)
    ensures Encipher(f, key, register, a + b)
         == Encipher(f, key, register, a)
            + Encipher(f, key, RegisterAfter(register, Encipher(f, key, register, a)), b)
    decreases |a|
  {
    hide XorByte, ShiftIn;
    if |a| == 0 {
      assert a + b == b;
    } else {
      hide Encipher, RegisterAfter;
      var c, tail := XorByte(a[0], f(key, register)), a[1..];
      var next := ShiftIn(register, c);
      EncipherSplits(f, key, next, tail, b);
      assert a == [a[0]] + tail && a + b == [a[0]] + (tail + b);
      EncipherFirst(f, key, register, a[0], tail);
      EncipherFirst(f, key, register, a[0], tail + b);
      var first := Encipher(f, key, next, tail);
      RegisterFirst(register, c, first);
      var second := Encipher(f, key, RegisterAfter(next, first), b);
      assert [c] + (first + second) == [c] + first + second;
    }
  }

  lemma {:induction false} DecipherSplits(
    f: Keystream, key: seq<byte>, register: seq<byte>, a: seq<byte>, b: seq<byte>)
    ensures Decipher(f, key, register, a + b)
         == Decipher(f, key, register, a) + Decipher(f, key, RegisterAfter(register, a), b)
    decreases |a|
  {
    hide XorByte, ShiftIn;
    if |a| == 0 {
      assert a + b == b;
    } else {
      hide Decipher, RegisterAfter;
      var p, tail, next := XorByte(a[0], f(key, register)), a[1..], ShiftIn(register, a[0]);
      DecipherSplits(f, key, next, tail, b);
      assert a == [a[0]] + tail && a + b == [a[0]] + (tail + b);
      DecipherFirst(f, key, register, a[0], tail);
      DecipherFirst(f, key, register, a[0], tail + b);
      RegisterFirst(register, a[0], tail);
      var first, second := Decipher(f, key, next, tail), Decipher(f, key, RegisterAfter(next, tail), b);
      assert [p] + (first + second) == [p] + first + second;
    }
  }

  function Concat(chunks: seq<seq<byte>>): seq<byte> {
    if |chunks| == 0 then [] else chunks[0] + Concat(chunks[1..])
  }

  /** Deciphering chunk by chunk with one continuing state. */
  function DecipherChunks(f: Keystream, key: seq<byte>, register: seq<byte>, chunks: seq<seq<byte>>): seq<byte>
    decreases |chunks|
  {
    if |chunks| == 0 then []
    else Decipher(f, key, register, chunks[0])
         + DecipherChunks(f, key, RegisterAfter(register, chunks[0]), chunks[1..])
  }

  lemma {:induction false} ChunksDecipherAsWhole(
    f: Keystream, key: seq<byte>, register: seq<byte>, chunks: seq<seq<byte>>)
    ensures DecipherChunks(f, key, register, chunks) == Decipher(f, key, register, Concat(chunks))
    decreases |chunks|
  {
    if |chunks| == 0 {
    } else {
      ChunksDecipherAsWhole(f, key, RegisterAfter(register, chunks[0]), chunks[1..]);
      DecipherSplits(f, key, register, chunks[0], Concat(chunks[1..]));
    }
  }

  /** Enciphering chunk by chunk with one continuing state. */
  function EncipherChunks(f: Keystream, key: seq<byte>, register: seq<byte>, chunks: seq<seq<byte>>): seq<byte>
    decreases |chunks|
  {
    if |chunks| == 0 then []
    else
      var c := Encipher(f, key, register, chunks[0]);
      c + EncipherChunks(f, key, RegisterAfter(register, c), chunks[1..])
  }

  lemma {:induction false} ChunksEncipherAsWhole(
    f: Keystream, key: seq<byte>, register: seq<byte>, chunks: seq<seq<byte>>)
    ensures EncipherChunks(f, key, register, chunks) == Encipher(f, key, register, Concat(chunks))
    decreases |chunks|
  {
    hide Encipher, RegisterAfter;
    if |chunks| == 0 {
      assert Encipher(f, key, register, []) == [];
    } else {
      var next := RegisterAfter(register, Encipher(f, key, register, chunks[0]));
      ChunksEncipherAsWhole(f, key, next, chunks[1..]);
      EncipherSplits(f, key, register, chunks[0], Concat(chunks[1..]));
    }
  }

  /** However the plaintext was cut into calls, and however the ciphertext is, it comes back. */
  lemma AnyCuttingInverts(
    f: Keystream, key: seq<byte>, register: seq<byte>, plain: seq<seq<byte>>, secret: seq<seq<byte>>)
    requires Concat(secret) == EncipherChunks(f, key, register, plain)
    ensures DecipherChunks(f, key, register, secret) == Concat(plain)
  {
    ChunksEncipherAsWhole(f, key, register, plain);
    ChunksDecipherAsWhole(f, key, register, secret);
    DecipherInverts(f, key, register, Concat(plain));
  }

  // ------------------------------------------------------------------ deciphering too late

  lemma {:induction false} XorChanges(a: nat, b: nat, n: nat)
    requires a < Pow2(n) && b < Pow2(n)
    ensures Xor(a, b, n) == a <==> b == 0
  {
    if n == 0 {
    } else {
      XorChanges(a / 2, b / 2, n - 1);
      BitAndRest((a % 2 + b % 2) % 2, Xor(a / 2, b / 2, n - 1));
    }
  }

  /** If the first `k` bytes of a ciphertext are taken as they come and only the rest is deciphered,
      the first byte is right exactly when its keystream byte is zero; so unless it is, the plaintext
      comes out exactly when nothing was taken too early. */
  lemma LateDeciphering(f: Keystream, key: seq<byte>, register: seq<byte>, plain: seq<byte>, k: nat)
    requires k <= |plain|
    ensures var c := Encipher(f, key, register, plain);
      var out := c[..k] + Decipher(f, key, register, c[k..]);
      && (k > 0 ==> (out[0] == plain[0] <==> f(key, register) == 0))
      && (f(key, register) != 0 ==> (out == plain <==> k == 0))
  {
    var c := Encipher(f, key, register, plain);
    var out := c[..k] + Decipher(f, key, register, c[k..]);
    if k == 0 {
      assert c[..0] == [] && c[0..] == c;
      DecipherInverts(f, key, register, plain);
    } else {
      Pow2Plus8(0);
      XorChanges(plain[0], f(key, register), 8);
      assert out[0] == c[0] == XorByte(plain[0], f(key, register));
    }
  }

  // ------------------------------------------------------------------ the cipher objects

  class Encryptor {
    const keystream: Keystream
    const key: seq<byte>
    var register: seq<byte>

    constructor (keystream: Keystream, secret: seq<byte>)
      requires |secret| == SHARED_SECRET_LEN
      ensures this.keystream == keystream && key == secret && register == secret
    {
      this.keystream := keystream;
      this.key := secret;
      this.register := secret;
    }

    /** The secret is key and initial register at once; any other length is refused. */
    static method New(keystream: Keystream, secret: seq<byte>) returns (r: Result<Encryptor, nat>)
      ensures if |secret| == 16
        then r.Success? && fresh(r.value) && r.value.keystream == keystream
             && r.value.key == secret && r.value.register == secret
        else r == Failure(|secret|)
    {
      if |secret| != SHARED_SECRET_LEN {
        return Failure(|secret|);
      }
      var e := new Encryptor(keystream, secret);
      return Success(e);
    }

    /** Enciphers the tail of a buffer in place. */
    method Encrypt(data: Buffer, start: nat)
      requires start <= |data.bytes| && data as object != this
      modifies this, data
      ensures data.bytes
           == old(data.bytes)[..start] + Encipher(keystream, key, old(register), old(data.bytes)[start..])
      ensures register == RegisterAfter(old(register), data.bytes[start..])
    {
      hide XorByte, ShiftIn;
      ghost var before, reg := data.bytes, register;
      assert before[start..start] == [];
      for i := start to |data.bytes|
        invariant |data.bytes| == |before| && data.bytes[..start] == before[..start]
        invariant data.bytes[i..] == before[i..]
        invariant data.bytes[start..i] == Encipher(keystream, key, reg, before[start..i])
        invariant register == RegisterAfter(reg, data.bytes[start..i])
      {
        ghost var done := data.bytes[start..i];
        EncipherOn(keystream, key, reg, before[start..i], before[i]);
        assert before[start..i] + [before[i]] == before[start..i + 1];
        var c := XorByte(data.bytes[i], keystream(key, register));
        data.bytes := data.bytes[i := c];
        register := ShiftIn(register, c);
        assert data.bytes[start..i + 1] == done + [c];
      }
      assert before[start..|before|] == before[start..];
      assert data.bytes[start..|before|] == data.bytes[start..];
    }
  }

  /** One byte more. */
  lemma EncipherOn(f: Keystream, key: seq<byte>, register: seq<byte>, plain: seq<byte>, b: byte)
    ensures var done := Encipher(f, key, register, plain);
      var next := RegisterAfter(register, done);
      var c := XorByte(b, f(key, next));
      Encipher(f, key, register, plain + [b]) == done + [c]
      && RegisterAfter(register, done + [c]) == ShiftIn(next, c)
  {
    hide XorByte, ShiftIn, Encipher, RegisterAfter;
    var done := Encipher(f, key, register, plain);
    var next := RegisterAfter(register, done);
    EncipherSplits(f, key, register, plain, [b]);
    OneByte(f, key, next, b);
    RegisterSplits(register, done, [XorByte(b, f(key, next))]);
    OneByte(f, key, next, XorByte(b, f(key, next)));
  }

  lemma OneByte(f: Keystream, key: seq<byte>, register: seq<byte>, b: byte)
    ensures Encipher(f, key, register, [b]) == [XorByte(b, f(key, register))]
    ensures Decipher(f, key, register, [b]) == [XorByte(b, f(key, register))]
    ensures RegisterAfter(register, [b]) == ShiftIn(register, b)
  {
  }

  class Decryptor {
    const keystream: Keystream
    const key: seq<byte>
    var register: seq<byte>

    constructor (keystream: Keystream, secret: seq<byte>)
      requires |secret| == SHARED_SECRET_LEN
      ensures this.keystream == keystream && key == secret && register == secret
    {
      this.keystream := keystream;
      this.key := secret;
      this.register := secret;
    }

    static method New(keystream: Keystream, secret: seq<byte>) returns (r: Result<Decryptor, nat>)
      ensures if |secret| == 16
        then r.Success? && fresh(r.value) && r.value.keystream == keystream
             && r.value.key == secret && r.value.register == secret
        else r == Failure(|secret|)
    {
      if |secret| != SHARED_SECRET_LEN {
        return Failure(|secret|);
      }
      var d := new Decryptor(keystream, secret);
      return Success(d);
    }

    /** Deciphers a buffer in place. */
    method Decrypt(data: Buffer)
      requires data as object != this
      modifies this, data
      ensures data.bytes == Decipher(keystream, key, old(register), old(data.bytes))
      ensures register == RegisterAfter(old(register), old(data.bytes))
    {
      ghost var before, reg := data.bytes, register;
      for i := 0 to |data.bytes|
        invariant |data.bytes| == |before| && data.bytes[i..] == before[i..]
        invariant data.bytes[..i] == Decipher(keystream, key, reg, before[..i])
        invariant register == RegisterAfter(reg, before[..i])
      {
        ghost var done := data.bytes[..i];
        DecipherSplits(keystream, key, reg, before[..i], [before[i]]);
        RegisterSplits(reg, before[..i], [before[i]]);
        assert before[..i] + [before[i]] == before[..i + 1];
        OneByte(keystream, key, RegisterAfter(reg, before[..i]), before[i]);
        var c := data.bytes[i];
        data.bytes := data.bytes[i := XorByte(c, keystream(key, register))];
        register := ShiftIn(register, c);
        assert data.bytes[..i + 1] == done + [data.bytes[i]];
      }
      assert before[..|before|] == before && data.bytes[..|before|] == data.bytes;
    }
  }
}
