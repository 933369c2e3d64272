/** Two changed symbols. Remainders can be multiplied by elements of GF(32), and one step of
    the checksum commutes with that; so how a change of one symbol spreads does not depend
    on the change, and no second change within 88 places can make up for it. */
module Bech32Pairs {
  import opened BitXor
  import opened Bech32Checksums
  import opened Bech32Fields

  // --------------------------------------------- doubling an element of GF(32)

  const MODULUS := 41           // the field's polynomial, as bits

  /** Twice an element. */
  function Double(d: nat): nat { Pick(2 * d, d >= 16, MODULUS) }

  lemma {:induction false} XorDoubled(x: nat, y: nat)
    ensures Xor(2 * x, 2 * y) == 2 * Xor(x, y)
  {
    XorStep(2 * x, 2 * y);
  }

  lemma {:induction false} XorSmall(x: nat, y: nat)
    requires x < 32 && y < 32
    ensures Xor(x, y) < 32
  {
    UpFive(0);
    UpFive(1);
    XorSplit(x, y, 0, x, 0, y, 5);
  }

  lemma SixteenOf(x: nat, v: nat, t: nat)
    requires x < 32 && v == x / 2 / 2 / 2 / 2
    ensures v <= 1 && (x >= 16 <==> v == 1)
  {
  }

  /** The leading bit of a sum. */
  lemma {:induction false} LeadBit(x: nat, y: nat)
    requires x < 32 && y < 32
    ensures (Xor(x, y) >= 16) == ((x >= 16) != (y >= 16))
  {
    XorSmall(x, y);
    XorStep(x, y);
    XorStep(x / 2, y / 2);
    XorStep(x / 2 / 2, y / 2 / 2);
    XorStep(x / 2 / 2 / 2, y / 2 / 2 / 2);
    var p, q := x / 2 / 2 / 2 / 2, y / 2 / 2 / 2 / 2;
    SixteenOf(x, p, 0);
    SixteenOf(y, q, 0);
    SixteenOf(Xor(x, y), Xor(p, q), 0);
    XorStep(p, q);
  }

  lemma {:induction false} DoubleLinear(x: nat, y: nat)
    requires x < 32 && y < 32
    ensures Double(Xor(x, y)) == Xor(Double(x), Double(y))
  {
    LeadBit(x, y);
    XorDoubled(x, y);
    PickLinear(2 * x, 2 * y, x >= 16, y >= 16, MODULUS);
  }

  lemma {:induction false} SixBits(x: nat, y: nat)
    requires 32 <= x < 64 && 32 <= y < 64
    ensures Xor(x, y) < 32
  {
    UpFive(0);
    UpFive(1);
    XorSelf(1);
    XorSplit(x, y, 1, x - 32, 1, y - 32, 5);
  }

  lemma {:induction false} DoubleBound(d: nat)
    requires d < 32
    ensures Double(d) < 32 && (Double(d) == 0 ==> d == 0)
  {
    if d >= 16 {
      SixBits(2 * d, MODULUS);
      if Double(d) == 0 {
        XorDiffers(2 * d, MODULUS);
      }
    }
  }

  lemma {:induction false} XorOne(x: nat)
    ensures Xor(x, 1) == if x % 2 == 0 then x + 1 else x - 1
  {
    XorStep(x, 1);
    XorComm(x / 2, 0);
  }

  lemma {:induction false} XorFour(e: nat)
    ensures Xor(e, 4) == if e / 2 / 2 % 2 == 0 then e + 4 else e - 4
  {
    XorStep(e, 4);
    XorStep(e / 2, 2);
    XorOne(e / 2 / 2);
  }

  lemma {:induction false} XorNine(e: nat)
    ensures Xor(2 * e, 9) == 2 * Xor(e, 4) + 1
  {
    XorStep(2 * e, 9);
  }

  /** r is twice d, by arithmetic. */
  predicate DoubleIs(d: nat, r: nat) {
    && d < 32
    && r == if d < 16 then 2 * d else if (d - 16) / 2 / 2 % 2 == 0 then 2 * (d - 12) + 1 else 2 * (d - 20) + 1
  }

  lemma {:induction false} DoubleHigh(d: nat, e: nat)
    requires 16 <= d < 32 && e == d - 16
    ensures Double(d) == 2 * Xor(e, 4) + 1
  {
    UpFive(1);
    XorSelf(1);
    XorSplit(2 * d, MODULUS, 1, 2 * e, 1, 9, 5);
    XorNine(e);
  }

  lemma {:induction false} DoubleOf(d: nat, r: nat)
    requires DoubleIs(d, r)
    ensures Double(d) == r
  {
    if d >= 16 {
      DoubleHigh(d, d - 16);
      XorFour(d - 16);
    }
  }

  // ------------------------------------------------- doubling all coefficients

  function Twice(v: nat): nat { if v == 0 then 0 else 32 * Twice(v / 32) + Double(v % 32) }

  lemma {:induction false} TwiceParts(v: nat)
    ensures Twice(v) / 32 == Twice(v / 32) && Twice(v) % 32 == Double(v % 32)
    ensures Twice(v) == 32 * Twice(v / 32) + Double(v % 32)
  {
    DoubleBound(v % 32);
    LowIs(Twice(v), Twice(v / 32), Double(v % 32));
  }

  lemma {:induction false} XorParts32(a: nat, b: nat)
    ensures Xor(a, b) / 32 == Xor(a / 32, b / 32) && Xor(a, b) % 32 == Xor(a % 32, b % 32)
    ensures Xor(a, b) == 32 * Xor(a / 32, b / 32) + Xor(a % 32, b % 32)
  {
    var p, x, q, y := a / 32, a % 32, b / 32, b % 32;
    UpFive(p);
    UpFive(q);
    UpFive(1);
    UpFive(Xor(p, q));
    XorSplit(a, b, p, x, q, y, 5);
  }

  lemma {:induction false} TwiceLinear(a: nat, b: nat)
    ensures Twice(Xor(a, b)) == Xor(Twice(a), Twice(b))
    decreases a + b
  {
    if a == 0 || b == 0 {
      XorComm(Twice(a), 0);
    } else {
      TwiceLinear(a / 32, b / 32);
      TwiceJoin(a, b, Xor(a, b), Twice(a), Twice(b));
    }
  }

  lemma {:induction false} TwiceJoin(a: nat, b: nat, c: nat, x: nat, y: nat)
    requires c == Xor(a, b) && x == Twice(a) && y == Twice(b)
    requires Twice(Xor(a / 32, b / 32)) == Xor(Twice(a / 32), Twice(b / 32))
    ensures Twice(c) == Xor(x, y)
  {
    XorParts32(a, b);
    DoubleLinear(a % 32, b % 32);
    TwiceParts(a);
    TwiceParts(b);
    TwiceParts(c);
    XorParts32(x, y);
  }

  lemma {:induction false} TwiceZero(v: nat)
    requires Twice(v) == 0
    ensures v == 0
  {
    if v > 0 {
      TwiceZero(v / 32);
      DoubleBound(v % 32);
    }
  }

  /** A constant stays one, and nothing else becomes one. */
  lemma {:induction false} TwiceHigh(v: nat)
    requires v >= 32
    ensures Twice(v) >= 32
  {
    TwiceParts(v);
    if Twice(v) < 32 {
      TwiceZero(v / 32);
    }
  }

  // --------------------------------------------------- the step and doubling

  lemma {:induction false} FeedApart(c: nat, h: nat, ks: seq<nat>)
    ensures Feed(c, h, ks) == Xor(c, Feed(0, h, ks))
  {
    FeedLinear(c, 0, 0, h, ks);
    FeedNone(c, ks);
    XorComm(c, 0);
  }

  /** What a leading coefficient h adds once it is pushed out. */
  function Pushed(h: nat, ks: seq<nat>): nat { Feed(0, h, ks) }

  lemma {:induction false} PushedLinear(x: nat, y: nat, ks: seq<nat>)
    ensures Pushed(Xor(x, y), ks) == Xor(Pushed(x, ks), Pushed(y, ks))
  {
    FeedLinear(0, 0, x, y, ks);
  }

  /** Doubling h doubles what it adds. */
  ghost predicate Doubles(h: nat, ks: seq<nat>) { Twice(Pushed(h, ks)) == Pushed(Double(h), ks) }

  lemma {:induction false} DoublesSum(x: nat, y: nat, ks: seq<nat>)
    requires x < 32 && y < 32 && Doubles(x, ks) && Doubles(y, ks)
    ensures Doubles(Xor(x, y), ks)
  {
    PushedLinear(x, y, ks);
    TwiceLinear(Pushed(x, ks), Pushed(y, ks));
    DoubleLinear(x, y);
    PushedLinear(Double(x), Double(y), ks);
  }

  lemma {:induction false} TwiceNext(v: nat, p: nat, d: nat, r: nat)
    requires v == 32 * p + d && DoubleIs(d, r)
    ensures Twice(v) == 32 * Twice(p) + r
  {
    TwiceParts(v);
    DoubleOf(d, r);
  }

  /** The six coefficients of a number. */
  function Six(d0: nat, d1: nat, d2: nat, d3: nat, d4: nat, d5: nat): nat {
    d0 + 32 * (d1 + 32 * (d2 + 32 * (d3 + 32 * (d4 + 32 * d5))))
  }

  lemma {:induction false} TwiceSix(d0: nat, d1: nat, d2: nat, d3: nat, d4: nat, d5: nat,
      r0: nat, r1: nat, r2: nat, r3: nat, r4: nat, r5: nat, v: nat, w: nat)
    requires DoubleIs(d0, r0) && DoubleIs(d1, r1) && DoubleIs(d2, r2)
    requires DoubleIs(d3, r3) && DoubleIs(d4, r4) && DoubleIs(d5, r5)
    requires v == Six(d0, d1, d2, d3, d4, d5) && w == Six(r0, r1, r2, r3, r4, r5)
    ensures Twice(v) == w
  {
    var v4 := d4 + 32 * d5;
    var v3 := d3 + 32 * v4;
    var v2 := d2 + 32 * v3;
    var v1 := d1 + 32 * v2;
    TwiceNext(v, v1, d0, r0);
    TwiceNext(v1, v2, d1, r1);
    TwiceNext(v2, v3, d2, r2);
    TwiceNext(v3, v4, d3, r3);
    TwiceNext(v4, d5, d4, r4);
    TwiceNext(d5, 0, d5, r5);
  }

  /** The entries that single bits, and the first and fourth together, select. */
  lemma {:induction false} Selected(h: nat, k0: nat, k1: nat, k2: nat, k3: nat, k4: nat)
    ensures h == 1 ==> Feed(0, h, [k0, k1, k2, k3, k4]) == k0
    ensures h == 2 ==> Feed(0, h, [k0, k1, k2, k3, k4]) == k1
    ensures h == 4 ==> Feed(0, h, [k0, k1, k2, k3, k4]) == k2
    ensures h == 8 ==> Feed(0, h, [k0, k1, k2, k3, k4]) == k3
    ensures h == 16 ==> Feed(0, h, [k0, k1, k2, k3, k4]) == k4
    ensures h == 9 ==> Feed(0, h, [k0, k1, k2, k3, k4]) == Xor(k0, k3)
  {
    FeedFive(0, h, k0, k1, k2, k3, k4);
  }

  // Doubling the entries of the generator.

  lemma {:induction false} TwiceEntry0(v: nat, w: nat)
    requires v == 0x3b6a57b2 && w == 0x26508e6d
    ensures Twice(v) == w
  {
    TwiceSix(18, 29, 21, 20, 22, 29, 13, 19, 3, 1, 5, 19, v, w);
  }

  lemma {:induction false} TwiceEntry1(v: nat, w: nat)
    requires v == 0x26508e6d && w == 0x1ea119fa
    ensures Twice(v) == w
  {
    TwiceSix(13, 19, 3, 1, 5, 19, 26, 15, 6, 2, 10, 15, v, w);
  }

  lemma {:induction false} TwiceEntry2(v: nat, w: nat)
    requires v == 0x1ea119fa && w == 0x3d4233dd
    ensures Twice(v) == w
  {
    TwiceSix(26, 15, 6, 2, 10, 15, 29, 30, 12, 4, 20, 30, v, w);
  }

  lemma {:induction false} TwiceEntry3(v: nat, w: nat)
    requires v == 0x3d4233dd && w == 0x2a1462b3
    ensures Twice(v) == w
  {
    TwiceSix(29, 30, 12, 4, 20, 30, 19, 21, 24, 8, 1, 21, v, w);
  }

  lemma {:induction false} TwiceEntry4(v: nat, w: nat)
    requires v == 0x2a1462b3 && w == 0x628646f
    ensures Twice(v) == w
  {
    TwiceSix(19, 21, 24, 8, 1, 21, 15, 3, 25, 16, 2, 3, v, w);
  }

  /** The sum of the first and the fourth entry. */
  lemma {:induction false} FirstAndFourth(n: nat, k0: nat, k3: nat, w: nat)
    requires n == 30 && k0 == 0x3b6a57b2 && k3 == 0x3d4233dd && w == 0x628646f
    ensures Xor(k0, k3) == w
  {
    Generator0(n);
    Generator3(n);
    ValXor(0x3b6a57b2, 0x3d4233dd, n);
    ValDigits(0x628646f, 0x314323, 0x18a19, 0xc50, 0x62, 0x3, n);
  }

  lemma {:induction false} DoublesEach(h: nat, k0: nat, k1: nat, k2: nat, k3: nat, k4: nat)
    requires Twice(k0) == k1 && Twice(k1) == k2 && Twice(k2) == k3 && Twice(k3) == k4 && Twice(k4) == Xor(k0, k3)
    requires h == 1 || h == 2 || h == 4 || h == 8 || h == 16
    ensures Doubles(h, [k0, k1, k2, k3, k4])
  {
    var r := if h == 16 then 9 else 2 * h;
    DoubleOf(h, r);
    Selected(h, k0, k1, k2, k3, k4);
    Selected(r, k0, k1, k2, k3, k4);
  }

  /** The entries of the generator are one another's doubles. */
  ghost predicate Doubling(ks: seq<nat>) {
    && |ks| == 5 && Twice(ks[0]) == ks[1] && Twice(ks[1]) == ks[2] && Twice(ks[2]) == ks[3] && Twice(ks[3]) == ks[4]
    && Twice(ks[4]) == Xor(ks[0], ks[3])
  }

  lemma {:induction false} DoublesBit(h: nat, ks: seq<nat>)
    requires Doubling(ks) && (h == 1 || h == 2 || h == 4 || h == 8 || h == 16)
    ensures Doubles(h, ks)
  {
    DoublesEach(h, ks[0], ks[1], ks[2], ks[3], ks[4]);
    assert ks == [ks[0], ks[1], ks[2], ks[3], ks[4]];
  }

  lemma {:induction false} GeneratorDoubling(ks: seq<nat>)
    requires ks == GENERATOR
    ensures Doubling(ks)
  {
    TwiceEntry0(ks[0], ks[1]);
    TwiceEntry1(ks[1], ks[2]);
    TwiceEntry2(ks[2], ks[3]);
    TwiceEntry3(ks[3], ks[4]);
    TwiceEntry4(ks[4], 0x628646f);
    FirstAndFourth(30, ks[0], ks[3], 0x628646f);
  }

  lemma {:induction false} XorTop(x: nat, k: nat)
    requires x < Up(1, k)
    ensures Xor(Up(1, k), x) == Up(1, k) + x
  {
    UpZero(k);
    XorSplit(Up(1, k), x, 1, 0, 0, x, k);
  }

  lemma {:induction false} UpZero(k: nat)
    ensures Up(0, k) == 0
    decreases k
  {
    if k > 0 {
      UpZero(k - 1);
    }
  }

  lemma {:induction false} UpSmall(k: nat, t: nat)
    requires k <= 5 && t == Up(1, k)
    ensures t == 1 || t == 2 || t == 4 || t == 8 || t == 16 || t == 32
    ensures k < 5 ==> t <= 16
    ensures k == 5 ==> t == 32
  {
    assert Up(1, 1) == 2;
    assert Up(1, 2) == 4;
    assert Up(1, 3) == 8;
    assert Up(1, 4) == 16;
    assert Up(1, 5) == 32;
  }

  lemma {:induction false} DoublesZero(ks: seq<nat>)
    ensures Doubles(0, ks)
  {
    FeedNone(0, ks);
  }

  lemma {:induction false} DoublesMore(h: nat, t: nat, x: nat, k: nat, ks: seq<nat>)
    requires Doubling(ks) && k < 5 && t == Up(1, k) && x < t && h == t + x && Doubles(x, ks)
    ensures Doubles(h, ks)
  {
    UpSmall(k, t);
    DoublesBit(t, ks);
    XorTop(x, k);
    DoublesSum(t, x, ks);
  }

  lemma {:induction false} DoublesBelow(h: nat, k: nat, ks: seq<nat>)
    requires Doubling(ks) && k <= 5 && h < Up(1, k)
    ensures Doubles(h, ks)
    decreases k
  {
    if k == 0 {
      DoublesZero(ks);
    } else {
      var t := Up(1, k - 1);
      if h < t {
        DoublesBelow(h, k - 1, ks);
      } else {
        DoublesBelow(h - t, k - 1, ks);
        DoublesMore(h, t, h - t, k - 1, ks);
      }
    }
  }

  lemma {:induction false} TwiceUp(v: nat, p: nat, x: nat, k: nat)
    requires v == Up(p, 5 * k) + x && x < Up(1, 5 * k)
    ensures Twice(v) == Up(Twice(p), 5 * k) + Twice(x) && Twice(x) < Up(1, 5 * k)
    decreases k
  {
    if k > 0 {
      var n := 5 * (k - 1);
      UpAdd(p, n, 5);
      UpAdd(1, n, 5);
      UpAdd(Twice(p), n, 5);
      UpFive(Up(p, n));
      UpFive(Up(1, n));
      UpFive(Up(Twice(p), n));
      TwiceUp(v / 32, p, x / 32, k - 1);
      TwiceParts(v);
      TwiceParts(x);
      DoubleBound(x % 32);
    }
  }

  lemma {:induction false} TwiceTop(c: nat, h: nat, l: nat, k: nat)
    requires k == 5 && c == TOP * h + l && l < TOP && h < 32
    ensures Twice(c) / TOP == Double(h) && Twice(c) % TOP == Twice(l)
  {
    UpValues(h);
    UpValues(1);
    UpValues(Twice(h));
    TwiceUp(c, h, l, k);
    TwiceParts(h);
    TopIs(Twice(c), Twice(h), Twice(l));
  }

  lemma {:induction false} StepApart(c: nat, l: nat, h: nat, ks: seq<nat>)
    requires c / TOP == h && c % TOP == l && ks == GENERATOR
    ensures Step(c, 0) == Xor(32 * l, Pushed(h, ks))
  {
    StepParts(c, l, h);
    FeedApart(32 * l, h, ks);
  }

  lemma {:induction false} TwiceShifted(l: nat)
    ensures Twice(32 * l) == 32 * Twice(l)
  {
    TwiceParts(32 * l);
    DoubleOf(0, 0);
  }

  lemma {:induction false} TwiceSum(l: nat, p: nat, q: nat)
    requires q == Twice(p)
    ensures Twice(Xor(32 * l, p)) == Xor(32 * Twice(l), q)
  {
    TwiceLinear(32 * l, p);
    TwiceShifted(l);
  }

  lemma {:induction false} StepTwiceOf(c: nat, h: nat, l: nat, ks: seq<nat>)
    requires c == TOP * h + l && l < TOP && h < 32 && ks == GENERATOR && Doubles(h, ks)
    ensures Step(Twice(c), 0) == Twice(Step(c, 0))
  {
    TopIs(c, h, l);
    TwiceTop(c, h, l, 5);
    StepApart(c, l, h, ks);
    StepApart(Twice(c), Twice(l), Double(h), ks);
    TwiceSum(l, Pushed(h, ks), Pushed(Double(h), ks));
  }

  /** Doubling commutes with the step. */
  lemma {:induction false} StepTwice(c: nat, ks: seq<nat>)
    requires c < LIMIT && ks == GENERATOR
    ensures Step(Twice(c), 0) == Twice(Step(c, 0))
  {
    var h, l := c / TOP, c % TOP;
    UpFive(1);
    GeneratorDoubling(ks);
    DoublesBelow(h, 5, ks);
    StepTwiceOf(c, h, l, ks);
  }

  lemma {:induction false} ZerosTwice(c: nat, k: nat)
    requires c < LIMIT
    ensures Zeros(Twice(c), k) == Twice(Zeros(c, k))
    decreases k
  {
    if k > 0 {
      StepTwice(c, GENERATOR);
      StepBound(c, 0);
      ZerosTwice(Step(c, 0), k - 1);
    }
  }

  // -------------------------------------------------- how a change spreads

  /** k symbols on, a change by d shows in more than the last coefficient. */
  ghost predicate Spreads(d: nat, k: nat) { Zeros(d, k) >= 32 }

  lemma {:induction false} SpreadTwice(d: nat, k: nat)
    requires d < 32 && Spreads(d, k)
    ensures Spreads(Double(d), k)
  {
    TwiceParts(d);
    ZerosTwice(d, k);
    TwiceHigh(Zeros(d, k));
  }

  /** Every element but zero is a power of two. */
  function Power(j: nat): nat { if j == 0 then 1 else Double(Power(j - 1)) }

  lemma {:induction false} PowerSpreads(j: nat, k: nat)
    requires 1 <= k <= 88
    ensures Power(j) < 32 && Spreads(Power(j), k)
    decreases j
  {
    if j == 0 {
      PowersHigh(k);
    } else {
      PowerSpreads(j - 1, k);
      DoubleBound(Power(j - 1));
      SpreadTwice(Power(j - 1), k);
    }
  }

  lemma {:induction false} Powers0(j: nat)
    requires j == 0
    ensures Power(j) == 1 && Power(j + 1) == 2 && Power(j + 2) == 4 && Power(j + 3) == 8
    ensures Power(j + 4) == 16 && Power(j + 5) == 9 && Power(j + 6) == 18 && Power(j + 7) == 13
  {
    DoubleOf(1, 2);
    DoubleOf(2, 4);
    DoubleOf(4, 8);
    DoubleOf(8, 16);
    DoubleOf(16, 9);
    DoubleOf(9, 18);
    DoubleOf(18, 13);
  }

  lemma {:induction false} Powers8(j: nat)
    requires j == 8
    ensures Power(j) == 26 && Power(j + 1) == 29 && Power(j + 2) == 19 && Power(j + 3) == 15
    ensures Power(j + 4) == 30 && Power(j + 5) == 21 && Power(j + 6) == 3 && Power(j + 7) == 6
  {
    Powers0(j - 8);
    DoubleOf(13, 26);
    DoubleOf(26, 29);
    DoubleOf(29, 19);
    DoubleOf(19, 15);
    DoubleOf(15, 30);
    DoubleOf(30, 21);
    DoubleOf(21, 3);
    DoubleOf(3, 6);
  }

  lemma {:induction false} Powers16(j: nat)
    requires j == 16
    ensures Power(j) == 12 && Power(j + 1) == 24 && Power(j + 2) == 25 && Power(j + 3) == 27
    ensures Power(j + 4) == 31 && Power(j + 5) == 23 && Power(j + 6) == 7 && Power(j + 7) == 14
  {
    Powers8(j - 8);
    DoubleOf(6, 12);
    DoubleOf(12, 24);
    DoubleOf(24, 25);
    DoubleOf(25, 27);
    DoubleOf(27, 31);
    DoubleOf(31, 23);
    DoubleOf(23, 7);
    DoubleOf(7, 14);
  }

  lemma {:induction false} Powers24(j: nat)
    requires j == 24
    ensures Power(j) == 28 && Power(j + 1) == 17 && Power(j + 2) == 11 && Power(j + 3) == 22
    ensures Power(j + 4) == 5 && Power(j + 5) == 10 && Power(j + 6) == 20
  {
    Powers16(j - 8);
    DoubleOf(14, 28);
    DoubleOf(28, 17);
    DoubleOf(17, 11);
    DoubleOf(11, 22);
    DoubleOf(22, 5);
    DoubleOf(5, 10);
    DoubleOf(10, 20);
  }

  /** The powers of two in order. */
  const POWERS: seq<nat> := [1, 2, 4, 8, 16, 9, 18, 13, 26, 29, 19, 15, 30, 21, 3, 6, 12, 24, 25, 27, 31, 23, 7, 14, 28,
    17, 11, 22, 5, 10, 20]

  lemma {:induction false} PowersAre(j: nat)
    requires j < 31
    ensures Power(j) == POWERS[j]
  {
    Powers0(0);
    Powers8(8);
    Powers16(16);
    Powers24(24);
  }

  lemma LogOf(d: nat) returns (j: nat)
    requires 1 <= d < 32
    ensures j < 31 && POWERS[j] == d
  {
    assert d in POWERS;
    j :| 0 <= j < 31 && POWERS[j] == d;
  }

  /** A change of one symbol spreads, whatever the change. */
  lemma {:induction false} AllSpread(d: nat, k: nat)
    requires 1 <= d < 32 && 1 <= k <= 88
    ensures Spreads(d, k)
  {
    var j := LogOf(d);
    PowersAre(j);
    PowerSpreads(j, k);
  }

  // ----------------------------------------------------- two changed symbols

  function Blank(n: nat): seq<nat> { seq(n, _ => 0) }

  lemma {:induction false} ZerosNext(c: nat, k: nat)
    ensures Zeros(c, k + 1) == Step(Zeros(c, k), 0)
    decreases k
  {
    if k > 0 {
      ZerosNext(Step(c, 0), k - 1);
    }
  }

  lemma {:induction false} RunBlank(c: nat, n: nat)
    ensures Run(c, Blank(n)) == Zeros(c, n)
    decreases n
  {
    if n > 0 {
      RunBlank(c, n - 1);
      ZerosNext(c, n - 1);
      assert Blank(n) == Blank(n - 1) + [0];
      RunNext(c, Blank(n - 1), 0);
    }
  }

  lemma {:induction false} StepAdds(c: nat, v: nat)
    requires v < 32
    ensures Step(c, v) == Xor(Step(c, 0), v)
  {
    StepLinear(c, 0, 0, v);
    XorComm(c, 0);
    StepShort(0, v);
  }

  /** A change by d, n unchanged symbols, and a change by e. */
  lemma {:induction false} RunPair(d: nat, n: nat, e: nat)
    requires d < 32 && e < 32
    ensures Run(0, [d] + Blank(n) + [e]) == Xor(Zeros(d, n + 1), e)
  {
    RunNext(0, [d] + Blank(n), e);
    RunAppend(0, [d], Blank(n));
    RunNext(0, [], d);
    assert [] + [d] == [d];
    StepShort(0, d);
    RunBlank(d, n);
    StepAdds(Zeros(d, n), e);
    ZerosNext(d, n);
  }

  lemma {:induction false} ZerosZero(k: nat)
    ensures Zeros(0, k) == 0
    decreases k
  {
    if k > 0 {
      StepShort(0, 0);
      ZerosZero(k - 1);
    }
  }

  /** Two changes up to 88 places apart do not cancel. */
  lemma {:induction false} PairShows(d: nat, n: nat, e: nat)
    requires d < 32 && e < 32 && n < 88 && Run(0, [d] + Blank(n) + [e]) == 0
    ensures d == 0 && e == 0
  {
    RunPair(d, n, e);
    XorDiffers(Zeros(d, n + 1), e);
    if d > 0 {
      AllSpread(d, n + 1);
    } else {
      ZerosZero(n + 1);
    }
  }

  lemma {:induction false} SumPair(x: nat, u: nat, m: seq<nat>, y: nat, v: nat)
    ensures Sum([x] + m + [y], [u] + m + [v]) == [Xor(x, u)] + Blank(|m|) + [Xor(y, v)]
  {
    var s, t := [x] + m + [y], [u] + m + [v];
    forall i | 0 <= i < |s| ensures Sum(s, t)[i] == ([Xor(x, u)] + Blank(|m|) + [Xor(y, v)])[i] {
      XorSelf(s[i]);
    }
  }

  lemma {:induction false} WindowPair(p: nat, x: nat, u: nat, m: seq<nat>, y: nat, v: nat)
    requires x < 32 && u < 32 && y < 32 && v < 32 && |m| < 88
    requires Run(p, [x] + m + [y]) == Run(p, [u] + m + [v])
    ensures x == u && y == v
  {
    RunLinear(p, p, [x] + m + [y], [u] + m + [v]);
    XorSelf(p);
    XorSelf(Run(p, [x] + m + [y]));
    SumPair(x, u, m, y, v);
    XorSmall(x, u);
    XorSmall(y, v);
    PairShows(Xor(x, u), |m|, Xor(y, v));
    XorDiffers(x, u);
    XorDiffers(y, v);
  }

  lemma {:induction false} RunThree(c: nat, a: seq<nat>, w: seq<nat>, b: seq<nat>)
    requires c < LIMIT && Symbols(a) && Symbols(w)
    ensures Run(c, a + w + b) == Run(Run(Run(c, a), w), b)
    ensures Run(c, a) < LIMIT && Run(Run(c, a), w) < LIMIT
  {
    RunAppend(c, a + w, b);
    RunAppend(c, a, w);
    RunBound(c, a);
    RunBound(Run(c, a), w);
  }

  /** Changing two symbols up to 88 places apart, or one of them, changes the remainder. */
  lemma {:induction false} PairChanges(a: seq<nat>, x: nat, u: nat, m: seq<nat>, y: nat, v: nat, b: seq<nat>)
    requires Symbols(a) && Symbols(m) && Symbols(b) && x < 32 && u < 32 && y < 32 && v < 32 && |m| < 88
    requires x != u || y != v
    ensures Run(1, a + ([x] + m + [y]) + b) != Run(1, a + ([u] + m + [v]) + b)
  {
    var s, t := [x] + m + [y], [u] + m + [v];
    RunThree(1, a, s, b);
    RunThree(1, a, t, b);
    if Run(1, a + s + b) == Run(1, a + t + b) {
      DifferenceStays(Run(Run(1, a), s), Run(Run(1, a), t), b);
      WindowPair(Run(1, a), x, u, m, y, v);
    }
  }
}
