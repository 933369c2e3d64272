/** What each limb loop computes, limb by limb, and the number that is. */
module LimbOps {
  import opened Powers
  import opened Limbs

  /** The limbs done so far and the carry into the next. */
  datatype Partial = Partial(limbs: seq<Limb>, carry: nat)

  /** One step of a carry loop: n is the carry in plus what is added at this limb. */
  function Push(r: Partial, n: nat): Partial { Partial(r.limbs + [n % BASE], n / BASE) }

  /** Congruence modulo P(w). */
  ghost predicate Same(a: int, b: int, w: nat) { exists k: int :: a + Up(k, w) == b }

  /** Limbs congruent to t hold t modulo P(w). */
  lemma {:induction false} SameIsMod(s: seq<Limb>, w: nat, t: int)
    requires |s| == w && Same(Value(s), t, w)
    ensures Value(s) == t % P(w)
  {
    var k: int :| Value(s) + Up(k, w) == t;
    ValueBound(s);
    UpIs(k, w);
    ModIs(Value(s), k, P(w), t);
  }

  lemma {:induction false} SameBy(a: int, b: int, w: nat, k: int)
    requires a + Up(k, w) == b
    ensures Same(a, b, w)
  {
  }

  /** The value of a partial result, carry included. */
  function Worth(r: Partial): int { Value(r.limbs) + Up(r.carry, |r.limbs|) }

  lemma {:induction false} PushValue(r: Partial, add: nat, q: Partial)
    requires q == Push(r, r.carry + add)
    ensures Worth(q) == Worth(r) + Up(add, |r.limbs|)
  {
    var n := r.carry + add;
    assert q.limbs[..|r.limbs|] == r.limbs;
    CarryStep(Value(r.limbs), r.carry, |r.limbs|, Worth(r), n % BASE, n / BASE, add);
  }

  // ----------------------------------------------------------------- addition

  function Add(a: int, b: int): int { a + b }

  function SumLimbs(x: seq<Limb>, y: seq<Limb>, i: nat): (r: Partial)
    requires i <= |x| == |y|
    ensures |r.limbs| == i
  {
    if i == 0 then Partial([], 0)
    else
      var r := SumLimbs(x, y, i - 1);
      Push(r, r.carry + Add(x[i - 1], y[i - 1]))
  }

  lemma {:induction false} SumValue(x: seq<Limb>, y: seq<Limb>, i: nat, r: Partial)
    requires i <= |x| == |y| && r == SumLimbs(x, y, i)
    ensures Worth(r) == Value(x[..i]) + Value(y[..i])
  {
    if i > 0 {
      var q := SumLimbs(x, y, i - 1);
      SumValue(x, y, i - 1, q);
      PushValue(q, Add(x[i - 1], y[i - 1]), r);
      ValueNext(x, i - 1);
      ValueNext(y, i - 1);
      UpAdd(x[i - 1], y[i - 1], i - 1);
    }
  }

  /** Addition is addition modulo 2^(32w). */
  lemma {:induction false} SumIs(x: seq<Limb>, y: seq<Limb>, r: Partial)
    requires |x| == |y| && r == SumLimbs(x, y, |x|)
    ensures Same(Value(r.limbs), Value(x) + Value(y), |x|)
  {
    SumValue(x, y, |x|, r);
    assert x[..|x|] == x && y[..|y|] == y;
    SameBy(Value(r.limbs), Value(x) + Value(y), |x|, r.carry);
  }

  // ------------------------------------------------- complement, plus and minus one

  function ComplementLimbs(x: seq<Limb>): seq<Limb> { seq(|x|, i requires 0 <= i < |x| => BASE - 1 - x[i]) }

  lemma {:induction false} ComplementIs(x: seq<Limb>)
    ensures Value(ComplementLimbs(x)) == P(|x|) - 1 - Value(x)
  {
    var n := |x| - 1;
    if |x| > 0 {
      ComplementIs(x[..n]);
      assert ComplementLimbs(x)[..n] == ComplementLimbs(x[..n]);
      UpAdd(BASE - 1, x[n], n);
      UpCarry(n);
    }
  }

  function Inc(x: seq<Limb>, i: nat): (r: seq<Limb>)
    requires i <= |x|
    ensures |r| == |x|
    decreases |x| - i
  {
    if i == |x| then x
    else
      var y := x[i := (x[i] + 1) % BASE];
      if y[i] == 0 then Inc(y, i + 1) else y
  }

  lemma {:induction false} IncIs(x: seq<Limb>, i: nat, r: seq<Limb>)
    requires i <= |x| && r == Inc(x, i)
    ensures Same(Value(r), Value(x) + P(i), |x|)
    decreases |x| - i
  {
    if i == |x| {
      SameBy(Value(x), Value(x) + P(i), i, 1);
    } else {
      var v := (x[i] + 1) % BASE;
      ValueUpdate(x, i, v);
      if v == 0 {
        IncIs(x[i := v], i + 1, r);
        UpCarry(i);
        assert Value(x[i := v]) + P(i + 1) == Value(x) + P(i);
      } else {
        UpAdd(x[i], 1, i);
        UpMono(0, 0, |x|);
        SameBy(Value(r), Value(x) + P(i), |x|, 0);
      }
    }
  }

  /** Nought and the largest digit, moved up. */
  lemma UpCarry(i: nat)
    ensures Up(0, i) == 0 && Up(BASE - 1, i) == P(i + 1) - P(i)
  {
    UpMono(0, 0, i);
    UpAdd(BASE, 1, i);
    UpUp(1, 1, i);
  }

  function Dec(x: seq<Limb>, i: nat): (r: seq<Limb>)
    requires i <= |x|
    ensures |r| == |x|
    decreases |x| - i
  {
    if i == |x| then x
    else
      var y := x[i := (x[i] - 1) % BASE];
      if y[i] == BASE - 1 then Dec(y, i + 1) else y
  }

  lemma {:induction false} DecIs(x: seq<Limb>, i: nat, r: seq<Limb>)
    requires i <= |x| && r == Dec(x, i)
    ensures Same(Value(r), Value(x) - P(i), |x|)
    decreases |x| - i
  {
    if i == |x| {
      UpAdd(0, 1, i);
      UpMono(0, 0, i);
      SameBy(Value(x), Value(x) - P(i), i, -1);
    } else {
      var v := (x[i] - 1) % BASE;
      ValueUpdate(x, i, v);
      if v == BASE - 1 {
        DecIs(x[i := v], i + 1, r);
        UpCarry(i);
        assert Value(x[i := v]) - P(i + 1) == Value(x) - P(i);
      } else {
        UpAdd(x[i], 1, i);
        UpMono(0, 0, |x|);
        SameBy(Value(r), Value(x) - P(i), |x|, 0);
      }
    }
  }

  // ----------------------------------------------------------- multiplication

  /** The product of two limbs, as repeated addition: the carry loops then stay linear. */
  function Mul(a: nat, b: nat): nat { if a == 0 then 0 else b + Mul(a - 1, b) }

  lemma {:induction false} MulIs(a: nat, b: nat)
    ensures Mul(a, b) == a * b
  {
    if a > 0 {
      MulIs(a - 1, b);
    }
  }

  function ScaleLimbs(x: seq<Limb>, b: Limb, i: nat): (r: Partial)
    requires i <= |x|
    ensures |r.limbs| == i
  {
    if i == 0 then Partial([], 0)
    else
      var r := ScaleLimbs(x, b, i - 1);
      Push(r, r.carry + Mul(b, x[i - 1]))
  }

  /** b times the numeral, limb by limb. */
  function Scaled(b: Limb, s: seq<Limb>): int {
    if |s| == 0 then 0 else Scaled(b, s[..|s| - 1]) + Up(Mul(b, s[|s| - 1]), |s| - 1)
  }

  lemma {:induction false} ScaledIs(b: Limb, s: seq<Limb>)
    ensures Scaled(b, s) == b * Value(s)
  {
    if |s| > 0 {
      var n := |s| - 1;
      ScaledIs(b, s[..n]);
      MulIs(b, s[n]);
      ScaledStep(b, Value(s[..n]), s[n], n);
    }
  }

  lemma {:induction false} ScaledStep(b: int, v: int, x: int, n: nat)
    ensures b * (v + Up(x, n)) == b * v + Up(b * x, n)
  {
    UpTimes(b, x, n);
    MulDist(v, Up(x, n), b);
  }

  lemma {:induction false} ScaledNext(b: Limb, s: seq<Limb>, i: nat)
    requires i < |s|
    ensures Scaled(b, s[..i + 1]) == Scaled(b, s[..i]) + Up(Mul(b, s[i]), i)
  {
    assert s[..i + 1][..i] == s[..i];
  }

  lemma {:induction false} ScaleValue(x: seq<Limb>, b: Limb, i: nat, r: Partial)
    requires i <= |x| && r == ScaleLimbs(x, b, i)
    ensures Worth(r) == Scaled(b, x[..i])
  {
    if i > 0 {
      var q := ScaleLimbs(x, b, i - 1);
      ScaleValue(x, b, i - 1, q);
      PushValue(q, Mul(b, x[i - 1]), r);
      ScaledNext(b, x, i - 1);
    }
  }

  /** Multiplication by one limb. */
  lemma {:induction false} ScaleIs(x: seq<Limb>, b: Limb, r: Partial)
    requires r == ScaleLimbs(x, b, |x|)
    ensures Same(Value(r.limbs), b * Value(x), |x|)
  {
    ScaleValue(x, b, |x|, r);
    assert x[..|x|] == x;
    ScaledIs(b, x);
    SameBy(Value(r.limbs), b * Value(x), |x|, r.carry);
  }

  /** One step of a row: limb p takes the carry and one limb product. */
  function Place(r: Partial, p: nat, add: nat): Partial
    requires p < |r.limbs|
  {
    var n := r.carry + r.limbs[p] + add;
    Partial(r.limbs[p := n % BASE], n / BASE)
  }

  lemma PlaceValue(r: Partial, p: nat, add: nat, q: Partial)
    requires p < |r.limbs| && q == Place(r, p, add)
    ensures Value(q.limbs) + Up(q.carry, p + 1) == Value(r.limbs) + Up(r.carry, p) + Up(add, p)
  {
    var s, c := r.limbs, r.carry;
    var n := c + s[p] + add;
    ValueUpdate(s, p, n % BASE);
    UpAdd(c, s[p], p);
    CarryStep(Value(s) - Up(s[p], p), c + s[p], p, Value(s) + Up(c, p), n % BASE, n / BASE, add);
  }

  lemma UpPlus(v: int, add: int, i: nat, j: nat)
    ensures Up(v + Up(add, i), j) == Up(v, j) + Up(add, i + j)
  {
    UpUp(add, i, j);
    UpAdd(v, Up(add, i), j);
  }

  /** Adding i limbs of xj times y into the accumulator from limb j on. */
  function RowLimbs(a: seq<Limb>, xj: Limb, y: seq<Limb>, j: nat, i: nat): (r: Partial)
    requires |a| == |y| && i + j <= |a|
    ensures |r.limbs| == |a|
  {
    if i == 0 then Partial(a, 0)
    else Place(RowLimbs(a, xj, y, j, i - 1), i - 1 + j, Mul(xj, y[i - 1]))
  }

  lemma {:induction false} RowValue(a: seq<Limb>, xj: Limb, y: seq<Limb>, j: nat, i: nat, r: Partial)
    requires |a| == |y| && i + j <= |a| && r == RowLimbs(a, xj, y, j, i)
    ensures Value(r.limbs) + Up(r.carry, i + j) == Value(a) + Up(Scaled(xj, y[..i]), j)
  {
    if i == 0 {
      UpMono(0, 0, j);
    } else {
      var q, add, v := RowLimbs(a, xj, y, j, i - 1), Mul(xj, y[i - 1]), Scaled(xj, y[..i - 1]);
      RowValue(a, xj, y, j, i - 1, q);
      PlaceValue(q, i - 1 + j, add, r);
      ScaledNext(xj, y, i - 1);
      UpPlus(v, add, i - 1, j);
    }
  }

  /** The accumulator after j limbs of x have been multiplied in. */
  function ProductLimbs(x: seq<Limb>, y: seq<Limb>, j: nat): (r: seq<Limb>)
    requires j <= |x| == |y|
    ensures |r| == |x|
  {
    if j == 0 then seq(|x|, _ => 0)
    else RowLimbs(ProductLimbs(x, y, j - 1), x[j - 1], y, j - 1, |x| - (j - 1)).limbs
  }

  lemma {:induction false} ProductValue(x: seq<Limb>, y: seq<Limb>, j: nat, a: seq<Limb>)
    requires j <= |x| == |y| && a == ProductLimbs(x, y, j)
    ensures Same(Value(a), Value(x[..j]) * Value(y), |x|)
  {
    if j == 0 {
      ValueZeros(a);
      UpMono(0, 0, |x|);
      assert Value(a) + Up(0, |x|) == Value(x[..0]) * Value(y);
    } else {
      var a0, xj, i := ProductLimbs(x, y, j - 1), x[j - 1], |x| - (j - 1);
      ProductValue(x, y, j - 1, a0);
      var r := RowLimbs(a0, xj, y, j - 1, i);
      RowValue(a0, xj, y, j - 1, i, r);
      ScaledIs(xj, y[..i]);
      ValueSplit(y, i);
      ValueNext(x, j - 1);
      RowDrops(Value(a), r.carry, Value(a0), xj, Value(y[..i]), Value(y[i..]), i, j - 1, Value(x[..j - 1]), Value(y));
    }
  }

  /** What a row drops is a multiple of the modulus. */
  lemma RowDrops(v: int, c: int, a: int, x: int, lo: int, hi: int, i: nat, j: nat, xs: int, y: int)
    requires v + Up(c, i + j) == a + Up(x * lo, j)
    requires y == lo + Up(hi, i)
    requires Same(a, xs * y, i + j)
    ensures Same(v, (xs + Up(x, j)) * y, i + j)
  {
    var k: int :| a + Up(k, i + j) == xs * y;
    RowParts(x, lo, hi, i, j, xs, y);
    UpAdd(c + k, x * hi, i + j);
    UpAdd(c, k, i + j);
    assert v + Up(c + k + x * hi, i + j) == (xs + Up(x, j)) * y;
  }

  lemma RowParts(x: int, lo: int, hi: int, i: nat, j: nat, xs: int, y: int)
    requires y == lo + Up(hi, i)
    ensures (xs + Up(x, j)) * y == xs * y + Up(x * lo, j) + Up(x * hi, i + j)
  {
    MulDist(xs, Up(x, j), y);
    UpTimes(y, x, j);
    assert x * y == x * lo + x * Up(hi, i) by {
      MulDist(lo, Up(hi, i), x);
    }
    UpTimes(x, hi, i);
    UpUp(x * hi, i, j);
    UpAdd(x * lo, Up(x * hi, i), j);
  }

  /** Multiplication is multiplication modulo 2^(32w). */
  lemma {:induction false} ProductIs(x: seq<Limb>, y: seq<Limb>, a: seq<Limb>)
    requires |x| == |y| && a == ProductLimbs(x, y, |x|)
    ensures Same(Value(a), Value(x) * Value(y), |x|)
  {
    ProductValue(x, y, |x|, a);
    assert x[..|x|] == x;
  }
}
