/**
  The few facts about products and division that the layout proofs rest on. Quotients and
  remainders by a variable are the recursive `Quot` and `Rem`, which `QuotIsDivision` ties to
  `/` and `%`; their facts are then used by name instead of being rediscovered by the solver.
 */
module Arithmetic {

  lemma MulMono(a: int, b: int, d: nat)
    requires a <= b
    ensures a * d <= b * d
  {
  }

  lemma MulAssoc(a: int, b: int, c: int)
    ensures a * b * c == a * (b * c)
  {
  }

  lemma MulDistributes(a: int, b: int, c: int)
    ensures (a + b) * c == a * c + b * c
  {
  }

  function Quot(a: nat, d: nat): nat
    requires d > 0
    decreases a
  {
    if a < d then 0 else 1 + Quot(a - d, d)
  }

  function Rem(a: nat, d: nat): (r: nat)
    requires d > 0
    ensures r < d
    decreases a
  {
    if a < d then a else Rem(a - d, d)
  }

  lemma {:induction false} DivideBack(a: nat, d: nat)
    requires d > 0
    ensures Quot(a, d) * d + Rem(a, d) == a
    decreases a
  {
    if a >= d {
      DivideBack(a - d, d);
      MulDistributes(Quot(a - d, d), 1, d);
    }
  }

  /** Quotient and remainder are determined by the division equation. */
  lemma QuotUnique(a: nat, d: nat, q: nat, r: nat)
    requires d > 0 && a == q * d + r && r < d
    ensures Quot(a, d) == q && Rem(a, d) == r
  {
    DivideBack(a, d);
    var p := Quot(a, d);
    if p < q { MulMono(p + 1, q, d); }
    if q < p { MulMono(q + 1, p, d); }
  }

  lemma QuotIsDivision(a: nat, d: nat)
    requires d > 0
    ensures Quot(a, d) == a / d && Rem(a, d) == a % d
  {
    QuotUnique(a, d, a / d, a % d);
  }

  /** An index below `q * d` has a quotient below `q`. */
  lemma QuotBelow(a: nat, d: nat, q: nat)
    requires d > 0 && a < q * d
    ensures Quot(a, d) < q
  {
    DivideBack(a, d);
    if q <= Quot(a, d) { MulMono(q, Quot(a, d), d); }
  }

  lemma SlotOf(d: nat, q: nat, r: nat)
    requires r < d
    ensures Quot(q * d + r, d) == q && Rem(q * d + r, d) == r
  {
    QuotUnique(q * d + r, d, q, r);
  }

  lemma SameSlot(a: nat, b: nat, d: nat)
    requires d > 0 && Quot(a, d) == Quot(b, d) && Rem(a, d) == Rem(b, d)
    ensures a == b
  {
    DivideBack(a, d);
    DivideBack(b, d);
  }

  lemma SlotsDisjoint(d: nat, s: nat, t: nat)
    requires s < t
    ensures s * d + d <= t * d
  {
    MulMono(s + 1, t, d);
    MulDistributes(s, 1, d);
  }

  /** Dividing twice is dividing by the product. */
  lemma QuotTwice(a: nat, b: nat, c: nat)
    requires b > 0 && c > 0
    ensures b * c > 0 && Quot(Quot(a, b), c) == Quot(a, b * c)
  {
    hide Quot, Rem;
    var q, r := Quot(a, b), Rem(a, b);
    DivideBack(a, b);
    DivideBack(q, c);
    Regroup(Quot(q, c), c, Rem(q, c), b, r, a);
    QuotUnique(a, b * c, Quot(q, c), Rem(q, c) * b + r);
  }

  lemma Regroup(p: nat, c: nat, t: nat, b: nat, r: nat, a: nat)
    requires t < c && r < b && a == (p * c + t) * b + r
    ensures 0 < b * c && t * b + r < b * c && a == p * (b * c) + (t * b + r)
  {
    MulDistributes(p * c, t, b);
    MulAssoc(p, c, b);
    Commutes(c, b);
    MulMono(t + 1, c, b);
    MulDistributes(t, 1, b);
  }

  lemma Commutes(a: nat, b: nat)
    ensures a * b == b * a
  {
  }

  function DivCeil(a: nat, b: nat): nat
    requires b > 0
  {
    if Rem(a, b) == 0 then Quot(a, b) else Quot(a, b) + 1
  }

  /** In built-in division. */
  lemma DivCeilIsRounding(a: nat, b: nat)
    requires b > 0
    ensures DivCeil(a, b) == (a + b - 1) / b
  {
    DivideBack(a, b);
    MulDistributes(Quot(a, b), 1, b);
    if Rem(a, b) == 0 {
      QuotUnique(a + b - 1, b, Quot(a, b), b - 1);
    } else {
      QuotUnique(a + b - 1, b, Quot(a, b) + 1, Rem(a, b) - 1);
    }
    QuotIsDivision(a + b - 1, b);
  }

  /** Rounding up covers `a` with less than one divisor to spare. */
  lemma DivCeilBounds(a: nat, b: nat)
    requires b > 0
    ensures a <= DivCeil(a, b) * b < a + b
  {
    DivideBack(a, b);
    MulDistributes(Quot(a, b), 1, b);
  }
}
