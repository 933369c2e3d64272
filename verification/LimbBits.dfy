/** Comparing numerals, finding their highest bit, setting single bits, and the
    arithmetic of the shift-and-subtract division. */
module LimbBits {
  import opened Powers
  import opened Limbs
  import opened LimbShifts

  /** The first differing limb from the top decides. */
  lemma {:induction false} TopDecides(x: seq<Limb>, y: seq<Limb>, i: nat)
    requires |x| == |y| && i < |x| && x[i] < y[i]
    requires forall j | i < j < |x| :: x[j] == y[j]
    ensures Value(x) < Value(y)
  {
    ValueSplit(x, i + 1);
    ValueSplit(y, i + 1);
    assert x[i + 1..] == y[i + 1..];
    ValueNext(x, i);
    ValueNext(y, i);
    ValueBound(x[..i]);
    ValueBound(y[..i]);
    UpAdd(x[i], 1, i);
    UpMono(x[i] + 1, y[i], i);
  }

  lemma TailZeros(x: seq<Limb>, i: nat)
    requires i <= |x| && forall j | i <= j < |x| :: x[j] == 0
    ensures Value(x[i..]) == 0
  {
    ValueZeros(x[i..]);
  }

  /** Limbs above i being zero, the value is that of limb i and those below. */
  lemma {:induction false} TopZero(x: seq<Limb>, i: nat)
    requires i < |x| && forall j | i < j < |x| :: x[j] == 0
    ensures Value(x) == Value(x[..i]) + Up(x[i], i)
  {
    TailZeros(x, i + 1);
    ValueSplit(x, i + 1);
    ValueNext(x, i);
    UpMono(0, 0, i + 1);
  }

  /** n is the position of the highest set bit plus one, or zero for zero. */
  ghost predicate BitLength(v: int, n: nat) {
    if v == 0 then n == 0 else n > 0 && Pow2(n - 1) <= v < Pow2(n)
  }

  lemma TopBit(x: seq<Limb>, i: nat, n: nat)
    requires i < |x| && forall j | i < j < |x| :: x[j] == 0
    requires 0 < n <= 32 && Pow2(n - 1) <= x[i] < Pow2(n)
    ensures BitLength(Value(x), 32 * i + n)
  {
    TopZero(x, i);
    ValueBound(x[..i]);
    UpPow2(i, n - 1);
    UpPow2(i, n);
    var t: int := x[i];
    UpMono(Pow2(n - 1), t, i);
    UpAdd(t, 1, i);
    UpMono(t + 1, Pow2(n), i);
  }

  lemma {:induction false} UpPow2(i: nat, n: nat)
    ensures Up(Pow2(n), i) == Pow2(32 * i + n)
  {
    BitsMono(0, 1, n);
    UpShift(1, i, n, 32 * i + n);
  }

  /** The bit length is unique. */
  lemma BitLengthUnique(v: int, n: nat, m: nat)
    requires BitLength(v, n) && BitLength(v, m)
    ensures n == m
  {
    if n < m {
      Pow2Mono(n, m - 1);
    } else if m < n {
      Pow2Mono(m, n - 1);
    }
  }

  // ------------------------------------------------------------ setting a bit

  /** All bits below position m are clear. */
  ghost predicate LowClear(x: seq<Limb>, m: nat) {
    && (forall j | 0 <= j < |x| && j < m / 32 :: x[j] == 0)
    && (m / 32 < |x| && m % 32 != 0 ==> exists q: nat :: x[m / 32] == Bits(q, m % 32))
  }

  /** The limb that holds bit 32j + e, when bits up to that one are clear. */
  lemma LimbAt(x: seq<Limb>, j: nat, e: nat) returns (q: nat)
    requires e < 32 && j < |x| && LowClear(x, 32 * j + e + 1)
    ensures x[j] == Bits(q, e + 1) && forall i | 0 <= i < j :: x[i] == 0
  {
    var m := 32 * j + e + 1;
    if e == 31 {
      assert m / 32 == j + 1;
      q := 0;
      BitsMono(0, 0, e + 1);
    } else {
      assert m / 32 == j && m % 32 == e + 1;
      q :| x[j] == Bits(q, e + 1);
    }
  }

  lemma {:induction false} LowClearBy(x: seq<Limb>, j: nat, e: nat, q: nat)
    requires e < 32 && j < |x| && x[j] == Bits(q, e) && forall i | 0 <= i < j :: x[i] == 0
    ensures LowClear(x, 32 * j + e)
  {
    var m := 32 * j + e;
    assert m / 32 == j && m % 32 == e;
  }

  /** One bit more: 2q + 1 in place of 2q. */
  lemma {:induction false} OddBits(q: nat, e: nat)
    ensures Bits(2 * q, e) == Bits(q, e + 1) && Bits(2 * q + 1, e) == Bits(q, e + 1) + Pow2(e)
  {
    BitsAdd(2 * q, 1, e);
    BitsBits(q, 1, e);
    BitsMono(0, 1, e);
    assert Bits(q, 1) == 2 * Bits(q, 0);
  }

  lemma SetBit(x: seq<Limb>, j: nat, e: nat, r: seq<Limb>)
    requires e < 32 && j < |x| && LowClear(x, 32 * j + e + 1)
    requires Pow2(e) < BASE && r == x[j := Or(x[j], Pow2(e))]
    ensures Value(r) == Value(x) + Pow2(32 * j + e) && LowClear(r, 32 * j + e)
  {
    var q := LimbAt(x, j, e);
    OrIsSum(Pow2(e), q, e + 1);
    ValueUpdate(x, j, r[j]);
    UpAdd(x[j], Pow2(e), j);
    UpPow2(j, e);
    OddBits(q, e);
    LowClearBy(r, j, e, 2 * q + 1);
  }

  lemma LowClearDown(x: seq<Limb>, j: nat, e: nat)
    requires e < 32 && j < |x| && LowClear(x, 32 * j + e + 1)
    ensures LowClear(x, 32 * j + e)
  {
    var q := LimbAt(x, j, e);
    OddBits(q, e);
    LowClearBy(x, j, e, 2 * q);
  }

  // ------------------------------------------------------------------ division

  /** Before trying bit `shift`: q, a multiple of 2^(shift+1), times d plus what is
      left is the dividend, and what is left is less than d moved up by shift + 1. */
  ghost predicate Dividing(n: int, d: int, q: int, num: int, shift: int) {
    shift >= -1 && n == q * d + num && 0 <= num < Bits(d, shift + 1)
  }

  lemma DivideStep(n: int, d: int, q: int, num: int, shift: nat)
    requires Dividing(n, d, q, num, shift)
    ensures num >= Bits(d, shift) ==> Dividing(n, d, q + Pow2(shift), num - Bits(d, shift), shift - 1)
    ensures num < Bits(d, shift) ==> Dividing(n, d, q, num, shift - 1)
  {
    BitsIs(d, shift);
    MulDist(q, Pow2(shift), d);
    assert Pow2(shift) * d == d * Pow2(shift);
  }

  lemma {:induction false} DivideStart(n: int, d: int, a: nat, b: nat)
    requires d > 0 && n >= 0 && BitLength(n, a) && BitLength(d, b) && a >= b
    ensures Dividing(n, d, 0, n, a - b)
    ensures 0 <= Bits(d, a - b) < Pow2(a)
  {
    BitsLength(d, b, a - b);
    BitsLength(d, b, a - b + 1);
    if n > 0 {
      assert n < Pow2(a);
    }
    assert 0 * d == 0;
  }

  lemma {:induction false} BitsLength(d: int, b: nat, s: nat)
    requires d > 0 && BitLength(d, b)
    ensures Pow2(b - 1 + s) <= Bits(d, s) < Pow2(b + s)
  {
    BitsMono(Pow2(b - 1), d, s);
    BitsMono(d + 1, Pow2(b), s);
    BitsAdd(d, 1, s);
    BitsIs(Pow2(b - 1), s);
    BitsIs(Pow2(b), s);
    Pow2Add(b - 1, s);
    Pow2Add(b, s);
  }

  lemma DivideEnd(n: int, d: int, q: int, num: int)
    requires d > 0 && Dividing(n, d, q, num, -1)
    ensures q == n / d && num == n % d
  {
    assert Bits(d, 0) == d;
    ModIs(num, q, d, n);
  }

  /** A divisor with more bits is larger. */
  lemma LongerIsLarger(n: int, d: int, a: nat, b: nat)
    requires n >= 0 && d > 0 && BitLength(n, a) && BitLength(d, b) && b > a
    ensures n / d == 0
  {
    Pow2Mono(a, b - 1);
    ModIs(n, 0, d, n);
  }

  /** Moving a shifted divisor back by one bit. */
  lemma HalfBits(d: int, shift: nat)
    requires shift > 0
    ensures Bits(d, shift) / 2 == Bits(d, shift - 1)
  {
  }
}
