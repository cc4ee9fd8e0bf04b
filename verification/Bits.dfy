/** Natural numbers as words of bits, with the C operators on them. */
module Bits {

  function Pow2(n: nat): (p: nat)
    ensures p > 0
  {
    if n == 0 then 1 else 2 * Pow2(n - 1)
  }

  predicate Bit(w: nat, i: nat) {
    if i == 0 then w % 2 == 1 else Bit(w / 2, i - 1)
  }

  /** The bits that both numbers have. */
  function And(a: nat, b: nat): (r: nat) {
    if a == 0 || b == 0 then 0 else 2 * And(a / 2, b / 2) + (if a % 2 == 1 && b % 2 == 1 then 1 else 0)
  }

  /** The bits that either number has. */
  function Or(a: nat, b: nat): (r: nat)
    decreases a + b
  {
    if a == 0 && b == 0 then 0 else 2 * Or(a / 2, b / 2) + (if a % 2 == 1 || b % 2 == 1 then 1 else 0)
  }

  /** The bits of the first number that the second one does not have. */
  function AndNot(a: nat, b: nat): (r: nat) {
    if a == 0 then 0 else 2 * AndNot(a / 2, b / 2) + (if a % 2 == 1 && b % 2 == 0 then 1 else 0)
  }

  lemma {:induction false} ZeroBits(i: nat)
    ensures !Bit(0, i)
  {
    if i > 0 {
      ZeroBits(i - 1);
    }
  }

  lemma {:induction false} OrBits(a: nat, b: nat, i: nat)
    ensures Bit(Or(a, b), i) <==> Bit(a, i) || Bit(b, i)
  {
    if a == 0 && b == 0 {
      ZeroBits(i);
    } else if i > 0 {
      OrBits(a / 2, b / 2, i - 1);
    }
  }

  lemma {:induction false} AndNotBits(a: nat, b: nat, i: nat)
    ensures Bit(AndNot(a, b), i) <==> Bit(a, i) && !Bit(b, i)
  {
    if a == 0 {
      ZeroBits(i);
    } else if i > 0 {
      AndNotBits(a / 2, b / 2, i - 1);
    }
  }

  lemma {:induction false} Pow2Bits(n: nat, i: nat)
    ensures Bit(Pow2(n), i) <==> i == n
  {
    if n == 0 {
      if i > 0 {
        ZeroBits(i - 1);
      }
    } else if i > 0 {
      Pow2Bits(n - 1, i - 1);
    }
  }

  /** Testing a word against a mask of one bit tests that bit. */
  lemma {:induction false} AndPow2(w: nat, n: nat)
    ensures And(w, Pow2(n)) != 0 <==> Bit(w, n)
  {
    if w == 0 {
      ZeroBits(n);
    } else if n > 0 {
      AndPow2(w / 2, n - 1);
      assert Pow2(n) / 2 == Pow2(n - 1);
    } else {
      assert And(w / 2, 0) == 0;
    }
  }

  lemma {:induction false} OnesBits(n: nat, i: nat)
    requires i < n
    ensures Bit(Pow2(n) - 1, i)
  {
    var w, p := Pow2(n) - 1, Pow2(n - 1);
    assert w == 2 * (p - 1) + 1;
    assert w % 2 == 1 && w / 2 == p - 1;
    if i > 0 {
      OnesBits(n - 1, i - 1);
    }
  }

  /** A word that is not the largest one of n bits has a clear bit. */
  lemma {:induction false} ClearBit(w: nat, n: nat) returns (i: nat)
    requires w < Pow2(n) - 1
    ensures i < n && !Bit(w, i)
  {
    if w % 2 == 0 {
      i := 0;
    } else {
      i := ClearBit(w / 2, n - 1);
      i := i + 1;
    }
  }

  /** All the bits from s up to n. */
  lemma {:induction false} HighBits(s: nat, n: nat, i: nat)
    requires s <= n
    ensures Pow2(s) <= Pow2(n)
    ensures Bit(Pow2(n) - Pow2(s), i) <==> s <= i < n
  {
    Pow2Grows(s, n);
    if s == 0 {
      if i < n {
        OnesBits(n, i);
      } else {
        SmallBits(Pow2(n) - 1, n, i);
      }
    } else if i > 0 {
      HighBits(s - 1, n - 1, i - 1);
    }
  }

  lemma {:induction false} Pow2Grows(s: nat, n: nat)
    requires s <= n
    ensures Pow2(s) <= Pow2(n)
  {
    if s < n {
      Pow2Grows(s, n - 1);
    }
  }

  lemma {:induction false} SmallBits(w: nat, n: nat, i: nat)
    requires w < Pow2(n) && n <= i
    ensures !Bit(w, i)
  {
    if n == 0 {
      ZeroBits(i);
    } else {
      SmallBits(w / 2, n - 1, i - 1);
    }
  }

  /** Words of n bits stay words of n bits. */
  lemma {:induction false} OrSmall(a: nat, b: nat, n: nat)
    requires a < Pow2(n) && b < Pow2(n)
    ensures Or(a, b) < Pow2(n)
  {
    if n > 0 {
      OrSmall(a / 2, b / 2, n - 1);
    }
  }

  lemma {:induction false} AndNotSmall(a: nat, b: nat)
    ensures AndNot(a, b) <= a
  {
    if a > 0 {
      AndNotSmall(a / 2, b / 2);
    }
  }
}
