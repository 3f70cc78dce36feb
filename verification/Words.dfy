/**
  Machine words. A `u64` is its 64 bits, least significant first, so that the masks and
  shifts of the packed storage are the bitwise operations they are in the program, and the
  number a run of bits stands for is recovered by `ToNat`.
 */
module Words {
  import opened Powers

  const WORD_BITS: nat := 64

  type Word = w: seq<bool> | |w| == WORD_BITS witness seq(WORD_BITS, _ => false)

  const ZERO: Word := seq(WORD_BITS, _ => false)

  function And(a: Word, b: Word): Word {
    seq(WORD_BITS, i requires 0 <= i < WORD_BITS => a[i] && b[i])
  }

  function Or(a: Word, b: Word): Word {
    seq(WORD_BITS, i requires 0 <= i < WORD_BITS => a[i] || b[i])
  }

  function Not(a: Word): Word {
    seq(WORD_BITS, i requires 0 <= i < WORD_BITS => !a[i])
  }

  function Shl(a: Word, n: nat): Word {
    seq(WORD_BITS, i requires 0 <= i < WORD_BITS => i >= n && a[i - n])
  }

  function Shr(a: Word, n: nat): Word {
    seq(WORD_BITS, i requires 0 <= i < WORD_BITS => i + n < WORD_BITS && a[i + n])
  }

  function ToNat(bits: seq<bool>): nat {
    if |bits| == 0 then 0 else (if bits[0] then 1 else 0) + 2 * ToNat(bits[1..])
  }

  /** The low `width` bits of `v`. */
  function FromNat(v: nat, width: nat): (bits: seq<bool>)
    ensures |bits| == width
  {
    if width == 0 then [] else [v % 2 == 1] + FromNat(v / 2, width - 1)
  }

  lemma {:induction false} ToNatFromNat(v: nat, width: nat)
    requires v < Pow2(width)
    ensures ToNat(FromNat(v, width)) == v
  {
    if width == 0 {
    } else {
      ToNatFromNat(v / 2, width - 1);
      assert FromNat(v, width)[1..] == FromNat(v / 2, width - 1);
    }
  }

  lemma {:induction false} FromNatToNat(bits: seq<bool>)
    ensures FromNat(ToNat(bits), |bits|) == bits
    ensures ToNat(bits) < Pow2(|bits|)
  {
    if |bits| == 0 {
    } else {
      FromNatToNat(bits[1..]);
    }
  }

  lemma {:induction false} ToNatPadded(bits: seq<bool>, padded: seq<bool>)
    requires |bits| <= |padded|
    requires forall i :: 0 <= i < |padded| ==> padded[i] == (i < |bits| && bits[i])
    ensures ToNat(padded) == ToNat(bits)
  {
    if |bits| > 0 {
      ToNatPadded(bits[1..], padded[1..]);
    } else if |padded| > 0 {
      ToNatPadded(bits, padded[1..]);
    }
  }

  /** Widening a number that already fits adds only zero bits. */
  lemma {:induction false} FromNatWide(v: nat, narrow: nat, wide: nat)
    requires v < Pow2(narrow) && narrow <= wide
    ensures forall i :: 0 <= i < wide ==> FromNat(v, wide)[i] == (i < narrow && FromNat(v, narrow)[i])
  {
    if narrow > 0 {
      FromNatWide(v / 2, narrow - 1, wide - 1);
    } else if wide > 0 {
      FromNatWide(v / 2, narrow, wide - 1);
    }
  }

  /** `(1 << bits) - 1`: the low `bits` bits set, as `MaskValue` says. */
  function Mask(bits: nat): Word {
    seq(WORD_BITS, i => i < bits)
  }

  lemma {:induction false} MaskValue(bits: nat, width: nat)
    requires bits <= width
    ensures FromNat(Pow2(bits) - 1, width) == seq(width, i => i < bits)
  {
    if bits > 0 {
      MaskValue(bits - 1, width - 1);
      assert (Pow2(bits) - 1) % 2 == 1 && (Pow2(bits) - 1) / 2 == Pow2(bits - 1) - 1;
    } else if width > 0 {
      MaskValue(0, width - 1);
      assert FromNat(0, width) == [false] + FromNat(0, width - 1);
    }
  }

  /** A shift and a mask read exactly the bits of one field, and the cast to `u32` keeps them all. */
  lemma ReadField(w: Word, offset: nat, bits: nat)
    requires bits <= 32 && offset + bits <= WORD_BITS
    ensures ToNat(And(Shr(w, offset), Mask(bits))[..32]) == ToNat(w[offset..offset + bits])
  {
    ToNatPadded(w[offset..offset + bits], And(Shr(w, offset), Mask(bits))[..32]);
  }

  lemma ClearedBits(w: Word, offset: nat, bits: nat)
    requires offset + bits <= WORD_BITS
    ensures forall i :: 0 <= i < WORD_BITS ==>
      And(w, Not(Shl(Mask(bits), offset)))[i] == (w[i] && !(offset <= i < offset + bits))
  {
  }

  lemma PlacedBits(wide: Word, field: seq<bool>, offset: nat)
    requires offset + |field| <= WORD_BITS
    requires forall i :: 0 <= i < WORD_BITS ==> wide[i] == (i < |field| && field[i])
    ensures forall i :: 0 <= i < WORD_BITS ==>
      Shl(wide, offset)[i] == (offset <= i < offset + |field| && field[i - offset])
  {
  }

  /** Clearing a field and or-ing a value into it replaces those bits and no others. */
  lemma WriteField(w: Word, offset: nat, bits: nat, value: nat)
    requires offset + bits <= WORD_BITS && value < Pow2(bits)
    ensures Or(And(w, Not(Shl(Mask(bits), offset))), Shl(FromNat(value, WORD_BITS), offset))
         == w[..offset] + FromNat(value, bits) + w[offset + bits..]
  {
    var cleared := And(w, Not(Shl(Mask(bits), offset)));
    var placed := Shl(FromNat(value, WORD_BITS), offset);
    ClearedBits(w, offset, bits);
    var field := FromNat(value, bits);
    FromNatWide(value, bits, WORD_BITS);
    PlacedBits(FromNat(value, WORD_BITS), field, offset);
    assert forall i :: 0 <= i < WORD_BITS ==> Or(cleared, placed)[i] == (cleared[i] || placed[i]);
    MergedBits(w, Or(cleared, placed), field, offset);
  }

  lemma MergedBits(w: Word, merged: Word, field: seq<bool>, offset: nat)
    requires offset + |field| <= WORD_BITS
    requires forall i :: 0 <= i < WORD_BITS ==>
      merged[i] == if offset <= i < offset + |field| then field[i - offset] else w[i]
    ensures merged == w[..offset] + field + w[offset + |field|..]
  {
  }
}
