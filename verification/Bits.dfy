/** Bitwise operators on natural numbers. */
module Bits {

  function Pow2(n: nat): (p: nat)
    ensures p >= 1
  {
    if n == 0 then 1 else 2 * Pow2(n - 1)
  }

  function Xor(a: nat, b: nat): nat
    decreases a + b
  {
    if a == 0 && b == 0 then 0 else 2 * Xor(a / 2, b / 2) + (if a % 2 == b % 2 then 0 else 1)
  }

  function And(a: nat, b: nat): nat
    decreases a + b
  {
    if a == 0 && b == 0 then 0 else 2 * And(a / 2, b / 2) + (a % 2) * (b % 2)
  }

  function Or(a: nat, b: nat): nat
    decreases a + b
  {
    if a == 0 && b == 0 then 0 else 2 * Or(a / 2, b / 2) + (if a % 2 == 1 || b % 2 == 1 then 1 else 0)
  }

  // --- Exclusive or -----------------------------------------------------------------

  lemma XorHalves(a: nat, b: nat)
    ensures Xor(a, b) / 2 == Xor(a / 2, b / 2) && Xor(a, b) % 2 == (if a % 2 == b % 2 then 0 else 1)
  {
  }

  lemma {:induction false} XorCommutes(a: nat, b: nat)
    ensures Xor(a, b) == Xor(b, a)
    decreases a + b
  {
    if a != 0 || b != 0 {
      XorCommutes(a / 2, b / 2);
    }
  }

  lemma {:induction false} XorAssociates(a: nat, b: nat, c: nat)
    ensures Xor(Xor(a, b), c) == Xor(a, Xor(b, c))
    decreases a + b + c
  {
    var x, y := Xor(a, b), Xor(b, c);
    if a != 0 || b != 0 || c != 0 {
      hide Xor;
      XorHalves(a, b);
      XorHalves(b, c);
      XorHalves(x, c);
      XorHalves(a, y);
      XorAssociates(a / 2, b / 2, c / 2);
      assert Xor(x, c) % 2 == Xor(a, y) % 2;
    }
  }

  lemma {:induction false} XorZero(a: nat)
    ensures Xor(a, 0) == a && Xor(0, a) == a
    decreases a
  {
    if a != 0 {
      XorZero(a / 2);
    }
  }

  lemma {:induction false} XorSelf(a: nat)
    ensures Xor(a, a) == 0
    decreases a
  {
    if a != 0 {
      XorSelf(a / 2);
    }
  }

  /** `b` undoes itself. */
  lemma XorCancels(a: nat, b: nat)
    ensures Xor(Xor(a, b), b) == a
  {
    XorAssociates(a, b, b);
    XorSelf(b);
    XorZero(a);
  }

  lemma XorInjective(a: nat, a': nat, b: nat)
    requires Xor(a, b) == Xor(a', b)
    ensures a == a'
  {
    XorCancels(a, b);
    XorCancels(a', b);
  }

  lemma {:induction false} XorBound(a: nat, b: nat, n: nat)
    requires a < Pow2(n) && b < Pow2(n)
    ensures Xor(a, b) < Pow2(n)
    decreases n
  {
    if n > 0 {
      XorBound(a / 2, b / 2, n - 1);
    } else {
      assert a == 0 && b == 0;
    }
  }

  /** Four terms in either pairing. */
  lemma XorSwapsMiddle(a: nat, b: nat, c: nat, d: nat)
    ensures Xor(Xor(a, b), Xor(c, d)) == Xor(Xor(a, c), Xor(b, d))
  {
    XorAssociates(a, b, Xor(c, d));
    XorAssociates(b, c, d);
    XorCommutes(b, c);
    XorAssociates(c, b, d);
    XorAssociates(a, c, Xor(b, d));
  }

  /** Where the bits of one operand are all below the other's, exclusive or adds. */
  lemma {:induction false} XorAdds(high: nat, low: nat, n: nat)
    requires low < Pow2(n)
    ensures Xor(high * Pow2(n), low) == high * Pow2(n) + low
    decreases n
  {
    if n == 0 {
      XorZero(high);
    } else {
      var h := high * Pow2(n - 1);
      assert high * Pow2(n) == 2 * h;
      XorAdds(high, low / 2, n - 1);
    }
  }

  // --- Bit sets -----------------------------------------------------------------------

  /** Every bit of `a` is a bit of `b`. */
  predicate Within(a: nat, b: nat) {
    And(a, b) == a
  }

  lemma {:induction false} AndHalves(a: nat, b: nat)
    ensures And(a, b) / 2 == And(a / 2, b / 2) && And(a, b) % 2 == (a % 2) * (b % 2)
  {
    var p := (a % 2) * (b % 2);
    assert p == 0 || p == 1;
  }

  lemma OrHalves(a: nat, b: nat)
    ensures Or(a, b) / 2 == Or(a / 2, b / 2)
    ensures Or(a, b) % 2 == if a % 2 == 1 || b % 2 == 1 then 1 else 0
  {
  }

  /** Containment, bit by bit. */
  lemma {:induction false} WithinHalves(a: nat, b: nat)
    ensures Within(a, b) <==> Within(a / 2, b / 2) && (a % 2 == 1 ==> b % 2 == 1)
  {
    AndHalves(a, b);
    assert a == 2 * (a / 2) + a % 2;
    assert a % 2 == 0 || a % 2 == 1;
    assert b % 2 == 0 || b % 2 == 1;
  }

  lemma {:induction false} WithinRefl(a: nat)
    ensures Within(a, a) && Within(0, a)
    decreases a
  {
    if a != 0 {
      WithinRefl(a / 2);
      WithinHalves(a, a);
      WithinHalves(0, a);
    }
  }

  lemma {:induction false} WithinTrans(a: nat, b: nat, c: nat)
    requires Within(a, b) && Within(b, c)
    ensures Within(a, c)
    decreases a + b + c
  {
    if a != 0 || b != 0 || c != 0 {
      WithinHalves(a, b);
      WithinHalves(b, c);
      WithinHalves(a, c);
      WithinTrans(a / 2, b / 2, c / 2);
    }
  }

  /** What two sets share lies in both. */
  lemma {:induction false} AndWithin(a: nat, b: nat)
    ensures Within(And(a, b), a) && Within(And(a, b), b)
    decreases a + b
  {
    if a != 0 || b != 0 {
      AndWithin(a / 2, b / 2);
      AndHalves(a, b);
      WithinHalves(And(a, b), a);
      WithinHalves(And(a, b), b);
      assert a % 2 == 0 || a % 2 == 1;
      assert b % 2 == 0 || b % 2 == 1;
    }
  }

  /** A union lies in whatever both parts lie in, and contains both parts. */
  lemma {:induction false} OrWithin(a: nat, b: nat, c: nat)
    ensures Within(a, c) && Within(b, c) ==> Within(Or(a, b), c)
    ensures Within(a, Or(a, b)) && Within(b, Or(a, b))
    decreases a + b + c
  {
    if a != 0 || b != 0 || c != 0 {
      OrWithin(a / 2, b / 2, c / 2);
      OrHalves(a, b);
      WithinHalves(a, c);
      WithinHalves(b, c);
      WithinHalves(Or(a, b), c);
      WithinHalves(a, Or(a, b));
      WithinHalves(b, Or(a, b));
    }
  }

  /** A mask met by a subset is met by the set. */
  lemma {:induction false} MeetsMore(a: nat, b: nat, mask: nat)
    requires Within(a, b) && And(a, mask) != 0
    ensures And(b, mask) != 0
    decreases a + b + mask
  {
    WithinHalves(a, b);
    AndHalves(a, mask);
    AndHalves(b, mask);
    if And(a / 2, mask / 2) != 0 {
      MeetsMore(a / 2, b / 2, mask / 2);
    } else {
      assert a % 2 == 1 && mask % 2 == 1;
    }
  }

  /** Masks of one bit. */
  lemma BitHeld(caps: nat)
    ensures (And(caps, 1) != 0 <==> caps % 2 == 1) && (And(caps, 2) != 0 <==> caps / 2 % 2 == 1)
    ensures And(caps, 4) != 0 <==> caps / 4 % 2 == 1
  {
    AndHalves(caps, 1);
    AndHalves(caps, 2);
    AndHalves(caps / 2, 1);
    AndHalves(caps, 4);
    AndHalves(caps / 2, 2);
    AndHalves(caps / 4, 1);
    AndNone(caps / 2);
    AndNone(caps / 4);
    AndNone(caps / 8);
    hide And;
    assert caps / 2 / 2 == caps / 4 && caps / 4 / 2 == caps / 8;
  }

  lemma {:induction false} AndNone(a: nat)
    ensures And(a, 0) == 0
    decreases a
  {
    if a != 0 {
      AndNone(a / 2);
    }
  }
}
