/** Little-endian base-2^32 numerals. */
module Limbs {
  import opened Powers

  const BASE := 0x1_0000_0000

  type Limb = x: int | 0 <= x < 0x1_0000_0000

  /** a moved up by k limbs: a times BASE to the power k. */
  function Up(a: int, k: nat): int {
    if k == 0 then a else BASE * Up(a, k - 1)
  }

  /** The modulus of w limbs. */
  function P(w: nat): (p: int)
    ensures p >= 1
  {
    UpPositive(w);
    Up(1, w)
  }

  lemma {:induction false} UpPositive(w: nat)
    ensures Up(1, w) >= 1
  {
    if w > 0 {
      UpPositive(w - 1);
    }
  }

  function Value(s: seq<Limb>): int {
    if |s| == 0 then 0 else Value(s[..|s| - 1]) + Up(s[|s| - 1], |s| - 1)
  }

  lemma {:induction false} UpAdd(a: int, b: int, k: nat)
    ensures Up(a + b, k) == Up(a, k) + Up(b, k)
    ensures Up(a - b, k) == Up(a, k) - Up(b, k)
  {
    if k > 0 {
      UpAdd(a, b, k - 1);
    }
  }

  lemma {:induction false} UpUp(a: int, i: nat, j: nat)
    ensures Up(Up(a, i), j) == Up(a, i + j)
  {
    if j > 0 {
      UpUp(a, i, j - 1);
    }
  }

  lemma {:induction false} UpMono(a: int, b: int, k: nat)
    requires a <= b
    ensures Up(a, k) <= Up(b, k)
    ensures Up(0, k) == 0
  {
    if k > 0 {
      UpMono(a, b, k - 1);
    }
  }

  lemma {:induction false} UpIs(a: int, k: nat)
    ensures Up(a, k) == a * P(k)
  {
    if k > 0 {
      UpIs(a, k - 1);
      assert a * (BASE * P(k - 1)) == BASE * (a * P(k - 1));
    }
  }

  /** A factor may be multiplied in before or after moving up. */
  lemma {:induction false} UpTimes(b: int, a: int, k: nat)
    ensures b * Up(a, k) == Up(b * a, k)
  {
    UpIs(a, k);
    UpIs(b * a, k);
    MulAssoc(b, a, P(k));
  }

  lemma {:induction false} PIsPow2(k: nat)
    ensures P(k) == Pow2(32 * k)
  {
    if k > 0 {
      PIsPow2(k - 1);
      Pow2Add(32, 32 * (k - 1));
      Pow2Values();
    }
  }

  lemma {:induction false} ValueBound(s: seq<Limb>)
    ensures 0 <= Value(s) < P(|s|)
  {
    if |s| > 0 {
      var n := |s| - 1;
      ValueBound(s[..n]);
      UpMono(s[n], BASE - 1, n);
      UpMono(0, s[n], n);
      UpAdd(BASE, 1, n);
      UpUp(1, 1, n);
    }
  }

  /** One more limb. */
  lemma ValueNext(s: seq<Limb>, i: nat)
    requires i < |s|
    ensures Value(s[..i + 1]) == Value(s[..i]) + Up(s[i], i)
  {
    assert s[..i + 1][..i] == s[..i];
  }

  /** Replacing one limb. */
  lemma {:induction false} ValueUpdate(s: seq<Limb>, p: nat, v: Limb)
    requires p < |s|
    ensures Value(s[p := v]) == Value(s) + Up(v, p) - Up(s[p], p)
  {
    var n := |s| - 1;
    var t := s[p := v];
    if p == n {
      assert t[..n] == s[..n];
    } else {
      ValueUpdate(s[..n], p, v);
      assert t[..n] == s[..n][p := v];
    }
  }

  lemma {:induction false} ValueSplit(s: seq<Limb>, i: nat)
    requires i <= |s|
    ensures Value(s) == Value(s[..i]) + Up(Value(s[i..]), i)
  {
    if i == |s| {
      assert s[..i] == s;
      UpMono(0, 0, i);
    } else {
      var n := |s| - 1;
      ValueSplit(s[..n], i);
      assert s[..n][..i] == s[..i];
      assert s[i..][..n - i] == s[..n][i..];
      assert s[i..][n - i] == s[n];
      UpUp(s[n], n - i, i);
      UpAdd(Value(s[..n][i..]), Up(s[n], n - i), i);
    }
  }

  lemma {:induction false} ValueZeros(s: seq<Limb>)
    requires forall i | 0 <= i < |s| :: s[i] == 0
    ensures Value(s) == 0
  {
    if |s| > 0 {
      ValueZeros(s[..|s| - 1]);
      UpMono(0, 0, |s| - 1);
    }
  }

  /** Adding at one limb and passing the carry on. */
  lemma CarryStep(v: int, c: int, i: nat, t: int, lo: int, c2: int, add: int)
    requires v + Up(c, i) == t && c + add == lo + BASE * c2
    ensures v + Up(lo, i) + Up(c2, i + 1) == t + Up(add, i)
  {
    UpAdd(lo, BASE * c2, i);
    UpAdd(c, add, i);
    assert Up(c2, 1) == BASE * Up(c2, 0);
    UpUp(c2, 1, i);
  }

  // --------------------------------------------------------------- bit tricks

  /** The bitwise or of two naturals. */
  function BitOr(x: nat, y: nat): nat
    decreases x + y
  {
    if x == 0 then y else if y == 0 then x
    else (if x % 2 == 1 || y % 2 == 1 then 1 else 0) + 2 * BitOr(x / 2, y / 2)
  }

  /** v moved up by s bits: v times 2^s. */
  function Bits(v: int, s: nat): int {
    if s == 0 then v else 2 * Bits(v, s - 1)
  }

  lemma {:induction false} BitsIs(v: int, s: nat)
    ensures Bits(v, s) == v * Pow2(s)
  {
    if s > 0 {
      BitsIs(v, s - 1);
      assert v * (2 * Pow2(s - 1)) == 2 * (v * Pow2(s - 1));
    }
  }

  lemma {:induction false} BitsAdd(a: int, b: int, s: nat)
    ensures Bits(a + b, s) == Bits(a, s) + Bits(b, s)
  {
    if s > 0 {
      BitsAdd(a, b, s - 1);
    }
  }

  lemma {:induction false} BitsBits(v: int, s: nat, t: nat)
    ensures Bits(Bits(v, s), t) == Bits(v, s + t)
  {
    if t > 0 {
      BitsBits(v, s, t - 1);
    }
  }

  /** Moving up by limbs and by bits commute. */
  lemma {:induction false} BitsUp(v: int, k: nat, s: nat)
    ensures Bits(Up(v, k), s) == Up(Bits(v, s), k)
  {
    if s > 0 {
      BitsUp(v, k, s - 1);
      UpAdd(Bits(v, s - 1), Bits(v, s - 1), k);
    }
  }

  lemma {:induction false} BitsMono(a: int, b: int, s: nat)
    requires a <= b
    ensures Bits(a, s) <= Bits(b, s) && Bits(0, s) == 0 && Bits(1, s) == Pow2(s)
  {
    if s > 0 {
      BitsMono(a, b, s - 1);
    }
  }

  /** Or of a multiple of 2^s with something below 2^s adds them. */
  lemma {:induction false} OrIsSum(x: nat, q: nat, s: nat)
    requires x < Pow2(s)
    ensures Bits(q, s) >= 0 && BitOr(x, Bits(q, s)) == x + Bits(q, s) == BitOr(Bits(q, s), x)
  {
    if s > 0 {
      OrIsSum(x / 2, q, s - 1);
    }
  }
}
