/** Powers of two and bit widths, shared by the storage and the varint codecs. */
module Powers {

  function Pow2(n: nat): (p: nat)
    ensures p >= 1
  {
    if n == 0 then 1 else 2 * Pow2(n - 1)
  }

  lemma {:induction false} Pow2Add(a: nat, b: nat)
    ensures Pow2(a + b) == Pow2(a) * Pow2(b)
  {
    if a == 0 {
    } else {
      Pow2Add(a - 1, b);
      calc {
        Pow2(a + b);
        2 * Pow2(a - 1 + b);
        2 * (Pow2(a - 1) * Pow2(b));
        (2 * Pow2(a - 1)) * Pow2(b);
        Pow2(a) * Pow2(b);
      }
    }
  }

  lemma {:induction false} Pow2Mono(a: nat, b: nat)
    requires a <= b
    ensures Pow2(a) <= Pow2(b)
    decreases b
  {
    if a < b { Pow2Mono(a, b - 1); }
  }

  lemma Pow2Plus7(k: nat)
    ensures Pow2(k + 7) == 128 * Pow2(k)
  {
    assert Pow2(k + 7) == 2 * Pow2(k + 6) && Pow2(k + 6) == 2 * Pow2(k + 5) && Pow2(k + 5) == 2 * Pow2(k + 4);
    assert Pow2(k + 4) == 2 * Pow2(k + 3) && Pow2(k + 3) == 2 * Pow2(k + 2) && Pow2(k + 2) == 2 * Pow2(k + 1);
  }

  lemma Pow2Plus8(k: nat)
    ensures Pow2(k + 8) == 256 * Pow2(k)
  {
    Pow2Plus7(k);
    assert Pow2(k + 8) == 2 * Pow2(k + 7);
  }

  lemma Pow2Of16()
    ensures Pow2(16) == 0x1_0000
  {
    Pow2Plus8(0);
    Pow2Plus8(8);
  }

  lemma Pow2Of32()
    ensures Pow2(32) == 0x1_0000_0000
  {
    Pow2Of16();
    Pow2Plus8(16);
    Pow2Plus8(24);
  }

  /** Position of the highest set bit plus one: the type's width minus `leading_zeros`. */
  function BitLength(v: nat): (n: nat)
  {
    if v == 0 then 0 else 1 + BitLength(v / 2)
  }

  lemma {:induction false} BitLengthBounds(v: nat)
    ensures v < Pow2(BitLength(v))
    ensures v > 0 ==> BitLength(v) > 0 && Pow2(BitLength(v) - 1) <= v
  {
    if v > 1 { BitLengthBounds(v / 2); }
  }

  lemma {:induction false} BitLengthLeast(v: nat, n: nat)
    ensures BitLength(v) <= n <==> v < Pow2(n)
  {
    BitLengthBounds(v);
    if BitLength(v) <= n {
      Pow2Mono(BitLength(v), n);
    } else {
      Pow2Mono(n, BitLength(v) - 1);
    }
  }

  /** Width of a slot that has to tell `count` values apart, never zero. */
  function BitsFor(count: nat): (n: nat)
  {
    if count <= 1 then 1 else BitLength(count - 1)
  }

  /** `BitsFor` is the least positive width with room for `count` values. */
  lemma BitsForIsLeast(count: nat, n: nat)
    requires n >= 1
    ensures BitsFor(count) >= 1
    ensures count <= Pow2(n) <==> BitsFor(count) <= n
  {
    Pow2Mono(0, n);
    if count > 1 {
      BitLengthLeast(count - 1, n);
      BitLengthBounds(count - 1);
    }
  }
}
