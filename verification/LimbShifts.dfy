/** The two shift loops: limbs are moved by whole limbs and by bits, the parts of
    neighbouring limbs being joined with a bitwise or. */
module LimbShifts {
  import opened Powers
  import opened Limbs
  import opened LimbOps

  /** Two numbers below 2^n or to one below 2^n. */
  lemma {:induction false} OrBound(x: nat, y: nat, n: nat)
    requires x < Pow2(n) && y < Pow2(n)
    ensures BitOr(x, y) < Pow2(n)
  {
    if n > 0 && x > 0 && y > 0 {
      OrBound(x / 2, y / 2, n - 1);
    }
  }

  function Or(x: Limb, y: Limb): Limb {
    Pow2Values();
    OrBound(x, y, 32);
    BitOr(x, y)
  }

  function Shl(x: Limb, s: nat): Limb { Bits(x, s) % BASE }

  function Shr(x: Limb, s: nat): Limb {
    QuotientLimb(x, Pow2(s));
    x / Pow2(s)
  }

  lemma QuotientLimb(x: Limb, d: int)
    requires d >= 1
    ensures 0 <= x / d <= x
  {
    var q := x / d;
    assert x == q * d + x % d;
    if q < 0 {
      MulMono(q, -1, d);
    } else {
      MulMono(1, d, q);
    }
  }

  /** What a right shift drops. */
  function Low(x: Limb, s: nat): int { x % Pow2(s) }

  /** A limb is its shifted-out part and its remaining part. */
  lemma Cut(x: Limb, s: nat)
    requires s <= 32
    ensures x == Bits(Shr(x, s), s) + Low(x, s)
    ensures 0 <= Low(x, s) < Pow2(s) && 0 <= Shr(x, s) < Pow2(32 - s)
  {
    var q, d := Shr(x, s), Pow2(s);
    BitsIs(q, s);
    assert x == q * d + x % d;
    if q >= Pow2(32 - s) {
      MulMono(Pow2(32 - s), q, d);
      Pow2Add(32 - s, s);
      Pow2Values();
    }
  }

  /** Shifting a limb left within 32 bits keeps what a right shift would drop. */
  lemma ShlCut(x: Limb, s: nat)
    requires s <= 32
    ensures Bits(x, s) == BASE * Shr(x, 32 - s) + Bits(Low(x, 32 - s), s)
    ensures Shl(x, s) == Bits(Low(x, 32 - s), s)
  {
    Cut(x, 32 - s);
    BitsWhole(Shr(x, 32 - s), Low(x, 32 - s), s);
    BitsBelow(Low(x, 32 - s), s);
    Remainder(Bits(x, s), Shr(x, 32 - s), Bits(Low(x, 32 - s), s));
  }

  lemma BitsWhole(hi: int, rest: int, s: nat)
    requires s <= 32
    ensures Bits(Bits(hi, 32 - s) + rest, s) == BASE * hi + Bits(rest, s)
  {
    BitsAdd(Bits(hi, 32 - s), rest, s);
    BitsBits(hi, 32 - s, s);
    BitsIs(hi, 32);
    Pow2Values();
  }

  lemma Remainder(t: int, hi: int, lo: int)
    requires t == BASE * hi + lo && 0 <= lo < BASE
    ensures t % BASE == lo
  {
  }

  lemma {:induction false} BitsBelow(rest: int, s: nat)
    requires s <= 32 && 0 <= rest < Pow2(32 - s)
    ensures 0 <= Bits(rest, s) < BASE
  {
    BitsMono(0, rest, s);
    BitsMono(rest + 1, Pow2(32 - s), s);
    BitsAdd(rest, 1, s);
    BitsIs(Pow2(32 - s), s);
    Pow2Add(32 - s, s);
    Pow2Values();
  }

  lemma OrZero(y: Limb)
    ensures Or(0, y) == y
  {
  }

  /** Limbs above m are clear and limb m holds less than 2^s. */
  ghost predicate ClearFrom(r: seq<Limb>, m: int, s: nat) {
    && (forall q | 0 <= q < |r| && q > m :: r[q] == 0)
    && (0 <= m < |r| ==> r[m] < Pow2(s))
  }

  // -------------------------------------------------------------- shift left

  /** One turn of the left-shift loop: limb x, the i-th, goes k limbs up. */
  function ShlStep(r: seq<Limb>, x: Limb, i: nat, k: nat, s: nat): (q: seq<Limb>)
    requires s < 32
    ensures |q| == |r|
  {
    var h := if i + k + 1 < |r| && s != 0 then r[i + k + 1 := Or(r[i + k + 1], Shr(x, 32 - s))] else r;
    if i + k < |r| then h[i + k := Or(h[i + k], Shl(x, s))] else h
  }

  function ShlLimbs(a: seq<Limb>, k: nat, s: nat, i: nat): (r: seq<Limb>)
    requires i <= |a| && s < 32
    ensures |r| == |a|
  {
    if i == 0 then seq(|a|, _ => 0) else ShlStep(ShlLimbs(a, k, s, i - 1), a[i - 1], i - 1, k, s)
  }

  /** One turn adds x * 2^s, moved up, modulo P(w). */
  lemma {:induction false} ShlStepValue(r: seq<Limb>, x: Limb, i: nat, k: nat, s: nat, q: seq<Limb>)
    requires s < 32 && ClearFrom(r, i + k, s) && q == ShlStep(r, x, i, k, s)
    ensures Same(Value(q), Value(r) + Up(Bits(x, s), i + k), |r|)
    ensures ClearFrom(q, i + 1 + k, s)
  {
    var lo, hi := Shl(x, s), Shr(x, 32 - s);
    Cut(x, 32 - s);
    ShlCut(x, s);
    if i + k < |r| {
      ShlPlaced(r, x, i + k, s, lo, hi, q);
    }
    ShlSame(Value(q), Value(r), Bits(x, s), lo, hi, i + k, |r|);
  }

  lemma ShlPlaced(r: seq<Limb>, x: Limb, p: nat, s: nat, lo: Limb, hi: Limb, q: seq<Limb>)
    requires s < 32 && ClearFrom(r, p, s) && p < |r| && lo == Shl(x, s) && hi == Shr(x, 32 - s) < Pow2(s)
    requires var h := if p + 1 < |r| && s != 0 then r[p + 1 := Or(r[p + 1], hi)] else r;
             q == h[p := Or(h[p], lo)]
    ensures Value(q) == Value(r) + Up(lo, p) + if p + 1 < |r| then Up(hi, p + 1) else 0
    ensures ClearFrom(q, p + 1, s)
  {
    var h := if p + 1 < |r| && s != 0 then r[p + 1 := Or(r[p + 1], hi)] else r;
    ShlLow(r[p], x, s);
    ValueUpdate(h, p, r[p] + lo);
    UpAdd(r[p], lo, p);
    if p + 1 < |r| {
      ShlHigh(r, x, p, s, hi, h);
    }
  }

  lemma ShlSame(q: int, r: int, t: int, lo: int, hi: int, p: nat, w: nat)
    requires t == BASE * hi + lo
    requires q == r + (if p < w then Up(lo, p) else 0) + (if p + 1 < w then Up(hi, p + 1) else 0)
    ensures Same(q, r + Up(t, p), w)
  {
    ShlParts(t, lo, hi, p);
    if p + 1 < w {
      UpMono(0, 0, w);
      SameBy(q, r + Up(t, p), w, 0);
    } else if p < w {
      SameBy(q, r + Up(t, p), w, hi);
    } else {
      UpUp(t, p - w, w);
      SameBy(q, r + Up(t, p), w, Up(t, p - w));
    }
  }

  lemma {:induction false} ShlLow(y: Limb, x: Limb, s: nat)
    requires s < 32 && y < Pow2(s)
    ensures Or(y, Shl(x, s)) == y + Shl(x, s)
  {
    Cut(x, 32 - s);
    ShlCut(x, s);
    OrIsSum(y, Low(x, 32 - s), s);
  }

  lemma ShlParts(t: int, lo: int, hi: int, p: nat)
    requires t == BASE * hi + lo
    ensures Up(t, p) == Up(lo, p) + Up(hi, p + 1)
  {
    UpAdd(lo, BASE * hi, p);
    UpUp(hi, 1, p);
    assert Up(hi, 1) == BASE * Up(hi, 0);
  }

  lemma ShlHigh(r: seq<Limb>, x: Limb, p: nat, s: nat, hi: Limb, h: seq<Limb>)
    requires s < 32 && p + 1 < |r| && r[p + 1] == 0 && hi == Shr(x, 32 - s)
    requires h == if s != 0 then r[p + 1 := Or(r[p + 1], hi)] else r
    ensures h[p] == r[p] && h[p + 1] == hi && Value(h) == Value(r) + Up(hi, p + 1)
  {
    UpMono(0, 0, p + 1);
    if s != 0 {
      OrZero(hi);
      ValueUpdate(r, p + 1, hi);
    } else {
      Pow2Values();
    }
  }

  lemma {:induction false} ShlValue(a: seq<Limb>, k: nat, s: nat, i: nat, r: seq<Limb>)
    requires i <= |a| && s < 32 && r == ShlLimbs(a, k, s, i)
    ensures ClearFrom(r, i + k, s)
    ensures Same(Value(r), Up(Bits(Value(a[..i]), s), k), |a|)
  {
    if i == 0 {
      ShlNone(r, k, s);
    } else {
      var q, v, x := ShlLimbs(a, k, s, i - 1), Value(a[..i - 1]), a[i - 1];
      ShlValue(a, k, s, i - 1, q);
      ShlStepValue(q, x, i - 1, k, s, r);
      ValueNext(a, i - 1);
      ShlGrows(v, x, s, i - 1, k);
      SamePlus(Value(r), Value(q), Up(Bits(v, s), k), Up(Bits(x, s), i - 1 + k), |a|);
    }
  }

  lemma {:induction false} ShlNone(r: seq<Limb>, k: nat, s: nat)
    requires forall i | 0 <= i < |r| :: r[i] == 0
    ensures ClearFrom(r, k, s) && Same(Value(r), Up(Bits(0, s), k), |r|)
  {
    ValueZeros(r);
    UpMono(0, 0, k);
    UpMono(0, 0, |r|);
    BitsMono(0, 0, s);
    SameBy(Value(r), Up(Bits(0, s), k), |r|, 0);
  }

  lemma ShlGrows(v: int, x: int, s: nat, i: nat, k: nat)
    ensures Up(Bits(v + Up(x, i), s), k) == Up(Bits(v, s), k) + Up(Bits(x, s), i + k)
  {
    BitsAdd(v, Up(x, i), s);
    BitsUp(x, i, s);
    UpPlus(Bits(v, s), Bits(x, s), i, k);
  }

  lemma SamePlus(a: int, b: int, c: int, d: int, w: nat)
    requires Same(a, b + d, w) && Same(b, c, w)
    ensures Same(a, c + d, w)
  {
    var j: int :| a + Up(j, w) == b + d;
    var k: int :| b + Up(k, w) == c;
    UpAdd(j, k, w);
    SameBy(a, c + d, w, j + k);
  }

  /** Moving up k limbs and s bits multiplies by 2^(32k + s). */
  lemma {:induction false} UpShift(v: int, k: nat, s: nat, shift: nat)
    requires shift == 32 * k + s
    ensures Up(Bits(v, s), k) == v * Pow2(shift)
  {
    BitsIs(v, s);
    UpIs(v * Pow2(s), k);
    PIsPow2(k);
    Pow2Add(s, 32 * k);
    MulAssoc(v, Pow2(s), Pow2(32 * k));
  }

  /** Shifting left multiplies by 2^shift modulo 2^(32w). */
  lemma {:induction false} ShlIs(a: seq<Limb>, shift: nat, k: nat, s: nat, r: seq<Limb>)
    requires s < 32 && shift == 32 * k + s && r == ShlLimbs(a, k, s, |a|)
    ensures Same(Value(r), Value(a) * Pow2(shift), |a|)
  {
    ShlValue(a, k, s, |a|, r);
    assert a[..|a|] == a;
    UpShift(Value(a), k, s, shift);
  }

  // -------------------------------------------------------------- shift right

  /** One turn of the right-shift loop: limb x, the i-th, goes k limbs down. */
  function ShrStep(r: seq<Limb>, x: Limb, i: nat, k: nat, s: nat): (q: seq<Limb>)
    requires s < 32 && i < |r|
    ensures |q| == |r|
  {
    var h := if i - k - 1 >= 0 && s != 0 then r[i - k - 1 := Or(r[i - k - 1], Shl(x, 32 - s))] else r;
    if i - k >= 0 then h[i - k := Or(h[i - k], Shr(x, s))] else h
  }

  function ShrLimbs(a: seq<Limb>, k: nat, s: nat, i: nat): (r: seq<Limb>)
    requires i <= |a| && s < 32
    ensures |r| == |a|
  {
    if i == 0 then seq(|a|, _ => 0) else ShrStep(ShrLimbs(a, k, s, i - 1), a[i - 1], i - 1, k, s)
  }

  /** r is the quotient of v by 2^(32k + s). */
  ghost predicate Quotient(r: int, v: int, k: nat, s: nat) {
    Up(Bits(r, s), k) <= v < Up(Bits(r, s), k) + Up(Pow2(s), k)
  }

  /** While i <= k every limb falls off the end. */
  lemma {:induction false} ShrNothing(a: seq<Limb>, k: nat, s: nat, i: nat, r: seq<Limb>)
    requires i <= |a| && i <= k && s < 32 && r == ShrLimbs(a, k, s, i)
    ensures forall q | 0 <= q < |r| :: r[q] == 0
  {
    if i > 0 {
      ShrNothing(a, k, s, i - 1, ShrLimbs(a, k, s, i - 1));
    }
  }

  /** The first limb that stays. */
  lemma {:induction false} ShrFirst(q: seq<Limb>, x: Limb, k: nat, s: nat, r: seq<Limb>)
    requires s < 32 && k < |q| && (forall j | 0 <= j < |q| :: q[j] == 0) && r == ShrStep(q, x, k, k, s)
    ensures ClearFrom(r, 0, 32 - s) && Value(r) == Shr(x, s)
  {
    Cut(x, s);
    OrZero(Shr(x, s));
    ValueZeros(q);
    ValueUpdate(q, 0, Shr(x, s));
  }

  lemma {:induction false} FirstQuotient(x: Limb, k: nat, s: nat, v: int)
    requires s < 32 && 0 <= v < P(k)
    ensures Quotient(Shr(x, s), v + Up(x, k), k, s)
  {
    var hi, rest := Shr(x, s), Low(x, s);
    Cut(x, s);
    UpAdd(Bits(hi, s), rest, k);
    UpAdd(rest, 1, k);
    UpMono(rest + 1, Pow2(s), k);
    UpMono(0, rest, k);
  }

  /** One turn adds both parts of the limb, the low one below the high one. */
  lemma {:induction false} ShrStepValue(q: seq<Limb>, x: Limb, i: nat, k: nat, s: nat, r: seq<Limb>)
    requires s < 32 && k < i < |q| && ClearFrom(q, i - k - 1, 32 - s) && r == ShrStep(q, x, i, k, s)
    ensures ClearFrom(r, i - k, 32 - s)
    ensures Value(r) == Value(q) + Up(Shr(x, s), i - k) + Up(Shl(x, 32 - s), i - k - 1)
  {
    var m, low := i - k - 1, Shl(x, 32 - s);
    Cut(x, s);
    ShrLow(q[m], x, s);
    var h := q[m := q[m] + low];
    if s == 0 {
      ShlAll(x);
      assert h == q;
    }
    OrZero(Shr(x, s));
    ShrPlaced(q, m, low, Shr(x, s));
  }

  lemma ShrPlaced(q: seq<Limb>, m: nat, low: int, hi: Limb)
    requires m + 1 < |q| && q[m + 1] == 0 && 0 <= q[m] + low < BASE
    ensures Value(q[m := q[m] + low][m + 1 := hi]) == Value(q) + Up(hi, m + 1) + Up(low, m)
  {
    ValueUpdate(q, m, q[m] + low);
    UpAdd(q[m], low, m);
    ValueUpdate(q[m := q[m] + low], m + 1, hi);
    UpMono(0, 0, m + 1);
  }

  lemma ShrLow(y: Limb, x: Limb, s: nat)
    requires s < 32 && y < Pow2(32 - s)
    ensures Or(y, Shl(x, 32 - s)) == y + Shl(x, 32 - s)
  {
    ShlCut(x, 32 - s);
    Cut(x, s);
    OrIsSum(y, Low(x, s), 32 - s);
  }

  lemma ShlAll(x: Limb)
    ensures Shl(x, 32) == 0
  {
    ShlCut(x, 32);
    BitsMono(0, 0, 32);
  }

  /** ... which, times 2^s, is the whole limb. */
  lemma ShrGrows(q: int, r: int, x: Limb, m: nat, k: nat, s: nat)
    requires s < 32
    requires r == q + Up(Shr(x, s), m + 1) + Up(Shl(x, 32 - s), m)
    ensures Up(Bits(r, s), k) == Up(Bits(q, s), k) + Up(x, m + 1 + k)
  {
    ShrLimb(x, m, s);
    BitsAdd(q + Up(Shr(x, s), m + 1), Up(Shl(x, 32 - s), m), s);
    BitsAdd(q, Up(Shr(x, s), m + 1), s);
    UpPlus(Bits(q, s), x, m + 1, k);
  }

  lemma ShrLimb(x: Limb, m: nat, s: nat)
    requires s < 32
    ensures Bits(Up(Shr(x, s), m + 1), s) + Bits(Up(Shl(x, 32 - s), m), s) == Up(x, m + 1)
  {
    var hi, rest := Shr(x, s), Low(x, s);
    Cut(x, s);
    ShlCut(x, 32 - s);
    BitsUp(hi, m + 1, s);
    BitsUp(Shl(x, 32 - s), m, s);
    BitsBits(rest, 32 - s, s);
    BitsIs(rest, 32);
    Pow2Values();
    UpUp(rest, 1, m);
    assert Up(rest, 1) == BASE * Up(rest, 0);
    UpAdd(Bits(hi, s), rest, m + 1);
  }

  lemma {:induction false} ShrValue(a: seq<Limb>, k: nat, s: nat, i: nat, r: seq<Limb>)
    requires i <= |a| && s < 32 && r == ShrLimbs(a, k, s, i) && i > k
    ensures ClearFrom(r, i - k - 1, 32 - s)
    ensures Quotient(Value(r), Value(a[..i]), k, s)
  {
    var q, x, v := ShrLimbs(a, k, s, i - 1), a[i - 1], Value(a[..i - 1]);
    ValueNext(a, i - 1);
    if i - 1 == k {
      ShrNothing(a, k, s, k, q);
      ValueBound(a[..k]);
      ShrFirst(q, x, k, s, r);
      FirstQuotient(x, k, s, v);
    } else {
      ShrValue(a, k, s, i - 1, q);
      ShrStepValue(q, x, i - 1, k, s, r);
      NextQuotient(Value(q), Value(r), v, x, i - 2 - k, k, s, Value(a[..i]));
    }
  }

  lemma NextQuotient(q: int, r: int, v: int, x: Limb, m: nat, k: nat, s: nat, v2: int)
    requires s < 32 && Quotient(q, v, k, s) && v2 == v + Up(x, m + 1 + k)
    requires r == q + Up(Shr(x, s), m + 1) + Up(Shl(x, 32 - s), m)
    ensures Quotient(r, v2, k, s)
  {
    ShrGrows(q, r, x, m, k, s);
  }

  /** Shifting right divides by 2^shift, rounding down. */
  lemma {:induction false} ShrIs(a: seq<Limb>, shift: nat, k: nat, s: nat, r: seq<Limb>)
    requires s < 32 && shift == 32 * k + s && r == ShrLimbs(a, k, s, |a|)
    ensures Value(r) == Value(a) / Pow2(shift)
  {
    assert a[..|a|] == a;
    if |a| > k {
      ShrValue(a, k, s, |a|, r);
    } else {
      ShrNothing(a, k, s, |a|, r);
      ValueZeros(r);
      ValueBound(a);
      ShrAll(Value(a), |a|, k, s);
    }
    QuotientIs(Value(r), Value(a), k, s, shift);
  }

  lemma ShrAll(v: int, w: nat, k: nat, s: nat)
    requires 0 <= v < P(w) && w <= k
    ensures Quotient(0, v, k, s)
  {
    PIsPow2(w);
    PIsPow2(k);
    Pow2Mono(32 * w, 32 * k);
    BitsMono(0, 0, s);
    UpMono(0, 0, k);
    UpMono(1, Pow2(s), k);
  }

  lemma {:induction false} QuotientIs(r: int, v: int, k: nat, s: nat, shift: nat)
    requires Quotient(r, v, k, s) && shift == 32 * k + s
    ensures r == v / Pow2(shift)
  {
    UpShift(r, k, s, shift);
    UpShift(1, k, s, shift);
    BitsMono(0, 1, s);
    ModIs(v - r * Pow2(shift), r, Pow2(shift), v);
  }
}
