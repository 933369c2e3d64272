/** Bitwise exclusive or on naturals. */
module BitXor {

  function Xor(a: nat, b: nat): (r: nat)
    decreases a + b
  {
    if a == 0 then b else if b == 0 then a else 2 * Xor(a / 2, b / 2) + (a + b) % 2
  }

  /** The last bit and the rest. */
  lemma {:induction false} XorStep(a: nat, b: nat)
    ensures Xor(a, b) / 2 == Xor(a / 2, b / 2)
    ensures Xor(a, b) % 2 == (a + b) % 2
  {
  }

  /** The two parts tell the number. */
  lemma Parts(a: nat, b: nat)
    requires a / 2 == b / 2 && a % 2 == b % 2
    ensures a == b
  {
  }

  lemma {:induction false} XorComm(a: nat, b: nat)
    ensures Xor(a, b) == Xor(b, a)
    decreases a + b
  {
    if a > 0 && b > 0 {
      XorComm(a / 2, b / 2);
    }
  }

  lemma ParityAssoc(a: nat, b: nat, c: nat, p: nat, q: nat)
    requires p % 2 == (a + b) % 2 && q % 2 == (b + c) % 2
    ensures (p + c) % 2 == (a + q) % 2
  {
  }

  lemma {:induction false} SameParts(p: nat, c: nat, a: nat, q: nat)
    requires Xor(p / 2, c / 2) == Xor(a / 2, q / 2)
    requires (p + c) % 2 == (a + q) % 2
    ensures Xor(p, c) == Xor(a, q)
  {
    XorStep(p, c);
    XorStep(a, q);
    Parts(Xor(p, c), Xor(a, q));
  }

  lemma {:induction false} XorAssoc(a: nat, b: nat, c: nat)
    ensures Xor(Xor(a, b), c) == Xor(a, Xor(b, c))
    decreases a + b + c
  {
    if a > 0 && b > 0 && c > 0 {
      XorAssoc(a / 2, b / 2, c / 2);
      AssocStep(a, b, c, Xor(a, b), Xor(b, c));
    }
  }

  lemma {:induction false} AssocStep(a: nat, b: nat, c: nat, p: nat, q: nat)
    requires p == Xor(a, b) && q == Xor(b, c)
    requires Xor(Xor(a / 2, b / 2), c / 2) == Xor(a / 2, Xor(b / 2, c / 2))
    ensures Xor(p, c) == Xor(a, q)
  {
    XorStep(a, b);
    XorStep(b, c);
    ParityAssoc(a, b, c, p, q);
    SameParts(p, c, a, q);
  }

  lemma {:induction false} XorSelf(a: nat)
    ensures Xor(a, a) == 0
  {
    if a > 0 {
      XorSelf(a / 2);
    }
  }

  /** (a ^ b) ^ (c ^ d) regrouped. */
  lemma {:induction false} XorSwap(a: nat, b: nat, c: nat, d: nat)
    ensures Xor(Xor(a, b), Xor(c, d)) == Xor(Xor(a, c), Xor(b, d))
  {
    XorAssoc(a, b, Xor(c, d));
    XorAssoc(b, c, d);
    XorComm(b, c);
    XorAssoc(c, b, d);
    XorAssoc(a, c, Xor(b, d));
  }

  lemma {:induction false} XorCancel(a: nat, b: nat, c: nat)
    requires Xor(a, b) == Xor(a, c)
    ensures b == c
  {
    XorAssoc(a, a, b);
    XorAssoc(a, a, c);
    XorSelf(a);
  }

  lemma {:induction false} XorDiffers(a: nat, b: nat)
    requires Xor(a, b) == 0
    ensures a == b
  {
    XorSelf(a);
    XorCancel(a, b, a);
  }

  /** a times two to the power k. */
  function Up(a: nat, k: nat): nat { if k == 0 then a else 2 * Up(a, k - 1) }

  lemma {:induction false} UpAdd(a: nat, j: nat, k: nat)
    ensures Up(a, j + k) == Up(Up(a, j), k)
  {
    if k > 0 {
      UpAdd(a, j, k - 1);
    }
  }

  lemma Halves(c: nat, u: nat, x: nat)
    requires c == 2 * u + x
    ensures c / 2 == u + x / 2 && c % 2 == x % 2
  {
  }

  /** A last bit added on both sides. */
  lemma {:induction false} XorDouble(c: nat, d: nat, x: nat, y: nat, h: nat)
    requires Xor(c / 2, d / 2) == h + Xor(x / 2, y / 2)
    requires c % 2 == x % 2 && d % 2 == y % 2
    ensures Xor(c, d) == 2 * h + Xor(x, y)
  {
    XorStep(c, d);
    XorStep(x, y);
    ParitySum(c, d, x, y);
  }

  lemma ParitySum(c: nat, d: nat, x: nat, y: nat)
    requires c % 2 == x % 2 && d % 2 == y % 2
    ensures (c + d) % 2 == (x + y) % 2
  {
  }

  /** High and low parts do not mix. */
  lemma {:induction false} XorSplit(a: nat, b: nat, p: nat, x: nat, q: nat, y: nat, k: nat)
    requires a == Up(p, k) + x && b == Up(q, k) + y && x < Up(1, k) && y < Up(1, k)
    ensures Xor(a, b) == Up(Xor(p, q), k) + Xor(x, y)
    ensures Xor(x, y) < Up(1, k)
    decreases k
  {
    if k > 0 {
      Halves(a, Up(p, k - 1), x);
      Halves(b, Up(q, k - 1), y);
      XorSplit(a / 2, b / 2, p, x / 2, q, y / 2, k - 1);
      XorDouble(a, b, x, y, Up(Xor(p, q), k - 1));
      XorStep(x, y);
    }
  }
}
