/** The buffer sizes of the Base58 codec: powers of 256 and 58 compared. */
module PowerBounds {
  import opened Powers
  import opened Radix

  lemma {:induction false} ShiftShift(x: int, i: nat, j: nat, b: Base)
    ensures Shift(Shift(x, i, b), j, b) == Shift(x, i + j, b)
  {
    if j > 0 {
      ShiftShift(x, i, j - 1, b);
    }
  }

  /** Shifts in two bases commute. */
  lemma {:induction false} ShiftSwap(x: int, i: nat, a: Base, j: nat, b: Base)
    ensures Shift(Shift(x, i, a), j, b) == Shift(Shift(x, j, b), i, a)
  {
    if i > 0 {
      ShiftSwap(x, i - 1, a, j, b);
      ShiftMul(a, Shift(x, i - 1, a), j, b);
    }
  }

  lemma {:induction false} ShiftStrict(x: int, y: int, k: nat, b: Base)
    requires x < y
    ensures Shift(x, k, b) < Shift(y, k, b)
  {
    if k > 0 {
      ShiftStrict(x, y, k - 1, b);
    }
  }

  /** a^x <= b^y and a^r <= b^s give a^(x+r) <= b^(y+s). */
  lemma Join(a: Base, b: Base, x: nat, y: nat, r: nat, s: nat)
    requires Shift(1, x, a) <= Shift(1, y, b) && Shift(1, r, a) <= Shift(1, s, b)
    ensures Shift(1, x + r, a) <= Shift(1, y + s, b)
  {
    ShiftShift(1, x, r, a);
    ShiftMono(Shift(1, x, a), Shift(1, y, b), r, a);
    ShiftSwap(1, y, b, r, a);
    ShiftMono(Shift(1, r, a), Shift(1, s, b), y, b);
    ShiftShift(1, s, y, b);
  }

  lemma JoinStrict(a: Base, b: Base, x: nat, y: nat, r: nat, s: nat)
    requires Shift(1, x, a) < Shift(1, y, b) && Shift(1, r, a) <= Shift(1, s, b)
    ensures Shift(1, x + r, a) < Shift(1, y + s, b)
  {
    ShiftShift(1, x, r, a);
    ShiftStrict(Shift(1, x, a), Shift(1, y, b), r, a);
    ShiftSwap(1, y, b, r, a);
    ShiftMono(Shift(1, r, a), Shift(1, s, b), y, b);
    ShiftShift(1, s, y, b);
  }

  /** n times k, as repeated addition. */
  function Times(n: nat, k: nat): nat { if n == 0 then 0 else Times(n - 1, k) + k }

  lemma {:induction false} TimesIs(n: nat, k: nat)
    ensures Times(n, k) == n * k
  {
    if n > 0 {
      TimesIs(n - 1, k);
    }
  }

  /** a^q <= b^p gives a^(nq) <= b^(np). */
  lemma {:induction false} Repeat(a: Base, b: Base, q: nat, p: nat, n: nat)
    requires Shift(1, q, a) <= Shift(1, p, b)
    ensures Shift(1, Times(n, q), a) <= Shift(1, Times(n, p), b)
  {
    if n > 0 {
      Repeat(a, b, q, p, n - 1);
      Join(a, b, Times(n - 1, q), Times(n - 1, p), q, p);
    }
  }

  lemma {:induction false} RepeatStrict(a: Base, b: Base, q: nat, p: nat, n: nat)
    requires Shift(1, q, a) < Shift(1, p, b) && n >= 1
    ensures Shift(1, Times(n, q), a) < Shift(1, Times(n, p), b)
  {
    if n == 1 {
      assert Times(1, q) == Times(0, q) + q && Times(1, p) == Times(0, p) + p;
    } else {
      RepeatStrict(a, b, q, p, n - 1);
      JoinStrict(a, b, Times(n - 1, q), Times(n - 1, p), q, p);
    }
  }

  /** From one comparison of powers to all: when a^q <= b^p and k is at least m * p / q,
      a^m <= b^k. */
  lemma {:induction false} Proportion(a: Base, b: Base, q: nat, p: nat, m: nat, k: nat)
    requires q >= 1 && Shift(1, q, a) <= Shift(1, p, b)
    requires Times(m, p) <= Times(q, k) && Times(q, m) == Times(m, q)
    ensures Shift(1, m, a) <= Shift(1, k, b)
  {
    if Shift(1, k, b) < Shift(1, m, a) {
      RepeatStrict(b, a, k, m, q);
      Repeat(a, b, q, p, m);
      ShiftGrows(Times(m, p), Times(q, k), b);
    }
  }

  // ------------------------------------------------- the constants of the codec

  /** 256^100 <= 58^138. */
  lemma {:induction false} BytesToDigits(q: nat, p: nat)
    requires q == 100 && p == 138
    ensures Shift(1, q, B256) <= Shift(1, p, B58)
  {
    var eight, eleven, four, six, n := 8, 11, 4, 6, 12;
    assert Shift(1, 8, B256) == 18446744073709551616 && Shift(1, 11, B58) == 24986644000165537792;
    assert Shift(1, 4, B256) == 4294967296 && Shift(1, 6, B58) == 38068692544;
    Repeat(B256, B58, eight, eleven, n);
    TimesIs(n, eight);
    TimesIs(n, eleven);
    Join(B256, B58, Times(n, eight), Times(n, eleven), four, six);
  }

  lemma {:induction false} ShiftScale(m: nat, k: nat, b: Base)
    ensures Shift(m, k, b) == m * Shift(1, k, b)
    decreases m
  {
    if m == 0 {
      ShiftMono(0, 0, k, b);
    } else {
      ShiftScale(m - 1, k, b);
      ShiftAdd(m - 1, 1, k, b);
    }
  }

  lemma {:induction false} ScaleMore(m: nat, x: int, k: nat, b: Base)
    requires x <= Shift(m, k, b)
    ensures m * x <= Shift(m * m, k, b)
  {
    ShiftScale(m, k, b);
    ShiftScale(m * m, k, b);
    ProductMore(m, x, Shift(1, k, b));
  }

  lemma ProductMore(m: nat, x: int, y: int)
    requires x <= m * y
    ensures m * x <= m * m * y
  {
    MulMono(x, m * y, m);
    MulAssoc(m, m, y);
    Commutes(m, x);
    Commutes(m, m * y);
  }

  lemma Commutes(a: int, b: int)
    ensures a * b == b * a
  {
  }

  /** From a bound with a small factor on 58^a to one on 58^(2a). */
  lemma {:induction false} Squared(a: nat, m: nat, b: nat, c: nat, d: nat)
    requires Shift(1, a, B58) <= Shift(m, b, B256) && c == a + a && d == b + b
    ensures Shift(1, c, B58) <= Shift(m * m, d, B256)
  {
    ShiftShift(1, a, a, B58);
    ShiftMono(Shift(1, a, B58), Shift(m, b, B256), a, B58);
    ShiftSwap(m, b, B256, a, B58);
    ShiftScale(m, a, B58);
    ScaleMore(m, Shift(1, a, B58), b, B256);
    ShiftMono(Shift(m, a, B58), Shift(m * m, b, B256), b, B256);
    ShiftShift(m * m, b, b, B256);
  }

  /** The factor rounded up. */
  lemma {:induction false} RoundedUp(x: int, m: nat, b: nat, n: nat, r: nat, d: nat)
    requires x <= Shift(m, b, B256) && m <= Shift(n, r, B256) && d == r + b
    ensures x <= Shift(n, d, B256)
  {
    ShiftMono(m, Shift(n, r, B256), b, B256);
    ShiftShift(n, r, b, B256);
  }

  /** 58^64 <= 30823 * 256^45, by squaring and rounding up. */
  lemma {:induction false} Pow58To64(e: nat, f: nat)
    requires e == 64 && f == 45
    ensures Shift(1, e, B58) <= Shift(30823, f, B256)
  {
    var e8, e16, e32 := 8, 16, 32;
    var f4, f8, f10, f20, f22, f44 := 4, 8, 10, 20, 22, 44;
    assert Shift(1, 8, B58) == 128063081718016 && Shift(29818, 4, B256) == 128067334832128;
    Squared(e8, 29818, f4, e16, f8);
    assert Shift(13567, 2, B256) == 889126912;
    RoundedUp(Shift(1, e16, B58), 29818 * 29818, f8, 13567, 2, f10);
    Squared(e16, 13567, f10, e32, f20);
    assert Shift(2809, 2, B256) == 184090624;
    RoundedUp(Shift(1, e32, B58), 13567 * 13567, f20, 2809, 2, f22);
    Squared(e32, 2809, f22, e, f44);
    assert Shift(30823, 1, B256) == 7890688;
    RoundedUp(Shift(1, e, B58), 2809 * 2809, f44, 30823, 1, f);
  }

  /** 58^71 <= 256^52. */
  lemma {:induction false} Pow58To71(e: nat, f: nat)
    requires e == 71 && f == 52
    ensures Shift(1, e, B58) <= Shift(1, f, B256)
  {
    var e64, f45, seven := 64, 45, 7;
    Pow58To64(e64, f45);
    ShiftShift(1, e64, seven, B58);
    ShiftMono(Shift(1, e64, B58), Shift(30823, f45, B256), seven, B58);
    ShiftSwap(30823, f45, B256, seven, B58);
    assert Shift(30823, 7, B58) == 68056695996455296 && Shift(1, 7, B256) == 72057594037927936;
    ShiftMono(Shift(30823, seven, B58), Shift(1, seven, B256), f45, B256);
    ShiftShift(1, seven, f45, B256);
  }

  /** 58^1000 <= 256^733. */
  lemma {:induction false} DigitsToBytes(q: nat, p: nat)
    requires q == 1000 && p == 733
    ensures Shift(1, q, B58) <= Shift(1, p, B256)
  {
    var n71, n52, six, five, n := 71, 52, 6, 5, 14;
    Pow58To71(n71, n52);
    assert Shift(1, 6, B58) == 38068692544 && Shift(1, 5, B256) == 1099511627776;
    Repeat(B58, B256, n71, n52, n);
    TimesIs(n, n71);
    TimesIs(n, n52);
    Join(B58, B256, Times(n, n71), Times(n, n52), six, five);
  }

  // --------------------------------------------------------------- buffer sizes

  /** Room for n bytes in base 58. */
  function EncodedSize(n: nat): nat { n * 138 / 100 + 1 }

  /** Room for n base-58 digits in bytes. */
  function DecodedSize(n: nat): nat { n * 733 / 1000 + 1 }

  lemma {:induction false} EncodedFits(n: nat)
    ensures Shift(1, n, B256) <= Shift(1, EncodedSize(n), B58)
  {
    var q, p, k := 100, 138, EncodedSize(n);
    BytesToDigits(q, p);
    TimesIs(n, p);
    TimesIs(q, k);
    TimesIs(q, n);
    TimesIs(n, q);
    Proportion(B256, B58, q, p, n, k);
  }

  lemma {:induction false} DecodedFits(n: nat)
    ensures Shift(1, n, B58) <= Shift(1, DecodedSize(n), B256)
  {
    var q, p, k := 1000, 733, DecodedSize(n);
    DigitsToBytes(q, p);
    TimesIs(n, p);
    TimesIs(q, k);
    TimesIs(q, n);
    TimesIs(n, q);
    Proportion(B58, B256, q, p, n, k);
  }
}
