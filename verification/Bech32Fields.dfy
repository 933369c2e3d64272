/** Multiplying remainders by elements of GF(32), and how long multiplying by the variable
    takes to come back to a constant: what detecting two changed symbols rests on. */
module Bech32Fields {
  import opened BitXor
  import opened Bech32Checksums

  // -------------------------------------------- remainders as bit vectors

  /** Wide enough to shift a remainder by one coefficient. */
  type Bits = bv35

  function Low(b: Bits): nat { if b & 1 == 1 then 1 else 0 }

  /** The number that the last n bits denote. */
  function Val(b: Bits, n: nat): nat { if n == 0 then 0 else 2 * Val(b >> 1, n - 1) + Low(b) }

  lemma LowXor(a: Bits, b: Bits)
    ensures Low(a ^ b) == (Low(a) + Low(b)) % 2 && (a ^ b) >> 1 == (a >> 1) ^ (b >> 1)
  {
  }

  lemma {:induction false} ValParts(b: Bits, n: nat)
    requires n > 0
    ensures Val(b, n) / 2 == Val(b >> 1, n - 1) && Val(b, n) % 2 == Low(b)
  {
  }

  lemma {:induction false} XorOfParts(x: nat, y: nat, z: nat)
    requires z / 2 == Xor(x / 2, y / 2) && z % 2 == (x % 2 + y % 2) % 2
    ensures z == Xor(x, y)
  {
    XorStep(x, y);
    ParitySum(x, y, x % 2, y % 2);
    Parts(z, Xor(x, y));
  }

  lemma {:induction false} ValXor(a: Bits, b: Bits, n: nat)
    ensures Val(a ^ b, n) == Xor(Val(a, n), Val(b, n))
    decreases n
  {
    if n > 0 {
      ValXor(a >> 1, b >> 1, n - 1);
      LowXor(a, b);
      var x, y, z := Val(a, n), Val(b, n), Val(a ^ b, n);
      ValParts(a, n);
      ValParts(b, n);
      ValParts(a ^ b, n);
      XorOfParts(x, y, z);
    }
  }

  /** The last n bits of the mask are set, and no others. */
  predicate Ones(mask: Bits, n: nat) { if n == 0 then mask == 0 else mask & 1 == 1 && Ones(mask >> 1, n - 1) }

  lemma MaskStep(b: Bits, mask: Bits)
    requires mask & 1 == 1
    ensures Low(b & mask) == Low(b) && (b & mask) >> 1 == (b >> 1) & (mask >> 1)
    ensures b & 1 == 0 && (b >> 1) & (mask >> 1) == 0 ==> b & mask == 0
  {
  }

  lemma {:induction false} ValMask(b: Bits, mask: Bits, n: nat)
    requires Ones(mask, n)
    ensures Val(b & mask, n) == Val(b, n)
    decreases n
  {
    if n > 0 {
      MaskStep(b, mask);
      ValMask(b >> 1, mask >> 1, n - 1);
    }
  }

  function Down(b: Bits, n: nat): Bits { if n == 0 then b else Down(b >> 1, n - 1) }

  /** High and low bits. */
  lemma {:induction false} ValSplit(b: Bits, n: nat, k: nat)
    ensures Val(b, n + k) == Val(b, n) + Up(Val(Down(b, n), k), n)
    decreases n
  {
    if n > 0 {
      ValSplit(b >> 1, n - 1, k);
    }
  }

  /** Shifts by one to five places, one after another. */
  ghost predicate Shifts(h: Bits, h1: Bits, h2: Bits, h3: Bits, h4: Bits, h5: Bits) {
    h1 == h >> 1 && h2 == h1 >> 1 && h3 == h2 >> 1 && h4 == h3 >> 1 && h5 == h4 >> 1
  }

  lemma ShiftsAre(h: Bits, h1: Bits, h2: Bits, h3: Bits, h4: Bits, h5: Bits)
    requires h1 == h >> 1 && h2 == h >> 2 && h3 == h >> 3 && h4 == h >> 4 && h5 == h >> 5
    ensures Shifts(h, h1, h2, h3, h4, h5)
  {
  }

  lemma {:induction false} DownOne(b: Bits, c: Bits, n: nat)
    requires n > 0 && c == b >> 1
    ensures Down(b, n) == Down(c, n - 1)
  {
  }

  lemma {:induction false} DownFive(h: Bits, h1: Bits, h2: Bits, h3: Bits, h4: Bits, h5: Bits, n: nat)
    requires n == 5 && Shifts(h, h1, h2, h3, h4, h5)
    ensures h5 == Down(h, n)
  {
    DownOne(h, h1, n);
    DownOne(h1, h2, n - 1);
    DownOne(h2, h3, n - 2);
    DownOne(h3, h4, n - 3);
    DownOne(h4, h5, n - 4);
  }

  lemma {:induction false} DownBy(h: Bits, n: nat, h5: Bits)
    requires n == 5 && h5 == h >> 5
    ensures h5 == Down(h, n)
  {
    var h1, h2, h3, h4 := h >> 1, h >> 2, h >> 3, h >> 4;
    ShiftsAre(h, h1, h2, h3, h4, h5);
    DownFive(h, h1, h2, h3, h4, h5, n);
  }

  lemma {:induction false} DownAdd(b: Bits, j: nat, k: nat)
    ensures Down(b, j + k) == Down(Down(b, j), k)
    decreases j
  {
    if j > 0 {
      DownAdd(b >> 1, j - 1, k);
    }
  }

  lemma {:induction false} DownFives(b: Bits, b1: Bits, b2: Bits, b3: Bits, b4: Bits, b5: Bits, n: nat)
    requires b1 == Down(b, n) && b2 == Down(b1, n) && b3 == Down(b2, n) && b4 == Down(b3, n) && b5 == Down(b4, n)
    ensures b5 == Down(b, 5 * n)
  {
    DownAdd(b, n, n);
    DownAdd(b, 2 * n, n);
    DownAdd(b, 3 * n, n);
    DownAdd(b, 4 * n, n);
  }

  lemma Five10(b: Bits, c: Bits, d: Bits)
    requires c == b >> 5 && d == b >> 10
    ensures d == c >> 5
  {
  }

  lemma Five15(b: Bits, c: Bits, d: Bits)
    requires c == b >> 10 && d == b >> 15
    ensures d == c >> 5
  {
  }

  lemma Five20(b: Bits, c: Bits, d: Bits)
    requires c == b >> 15 && d == b >> 20
    ensures d == c >> 5
  {
  }

  lemma Five25(b: Bits, c: Bits, d: Bits)
    requires c == b >> 20 && d == b >> 25
    ensures d == c >> 5
  {
  }

  lemma {:induction false} DownTop(b: Bits, n: nat, b5: Bits)
    requires n == 5 && b5 == b >> 25
    ensures b5 == Down(b, 5 * n)
  {
    var b1, b2, b3, b4 := b >> 5, b >> 10, b >> 15, b >> 20;
    Five10(b, b1, b2);
    Five15(b, b2, b3);
    Five20(b, b3, b4);
    Five25(b, b4, b5);
    DownBy(b, n, b1);
    DownBy(b1, n, b2);
    DownBy(b2, n, b3);
    DownBy(b3, n, b4);
    DownBy(b4, n, b5);
    DownFives(b, b1, b2, b3, b4, b5, n);
  }

  /** y is x with a zero bit behind it. */
  predicate Doubles(x: Bits, y: Bits) { Low(y) == 0 && y >> 1 == x }

  lemma {:induction false} ValDouble(x: Bits, y: Bits, n: nat)
    requires Doubles(x, y)
    ensures Val(y, n + 1) == 2 * Val(x, n)
  {
  }

  lemma {:induction false} ValFive(x: Bits, y1: Bits, y2: Bits, y3: Bits, y4: Bits, y5: Bits, n: nat)
    requires Doubles(x, y1) && Doubles(y1, y2) && Doubles(y2, y3) && Doubles(y3, y4) && Doubles(y4, y5)
    ensures Val(y5, n + 5) == 32 * Val(x, n)
  {
    ValDouble(x, y1, n);
    ValDouble(y1, y2, n + 1);
    ValDouble(y2, y3, n + 2);
    ValDouble(y3, y4, n + 3);
    ValDouble(y4, y5, n + 4);
  }

  lemma ShiftRoom(x: Bits)
    requires x & 0x7C0000000 == 0
    ensures Doubles(x, x << 1) && Doubles(x << 1, x << 2) && Doubles(x << 2, x << 3)
    ensures Doubles(x << 3, x << 4) && Doubles(x << 4, x << 5)
  {
  }

  lemma {:induction false} ValShift(x: Bits, n: nat)
    requires x & 0x7C0000000 == 0
    ensures Val(x << 5, n + 5) == 32 * Val(x, n)
  {
    ShiftRoom(x);
    ValFive(x, x << 1, x << 2, x << 3, x << 4, x << 5, n);
  }

  // ------------------------------------------------------ one step on bits

  function PickBits(c: Bits, p: bool, k: Bits): Bits { if p then c ^ k else c }

  function FeedBy(c: Bits, p0: bool, p1: bool, p2: bool, p3: bool, p4: bool): Bits {
    var c0 := PickBits(c, p0, 0x3b6a57b2);
    var c1 := PickBits(c0, p1, 0x26508e6d);
    var c2 := PickBits(c1, p2, 0x1ea119fa);
    var c3 := PickBits(c2, p3, 0x3d4233dd);
    PickBits(c3, p4, 0x2a1462b3)
  }

  function FeedLead(c: Bits, h: Bits): Bits {
    FeedBy(c, Low(h) == 1, Low(h >> 1) == 1, Low(h >> 2) == 1, Low(h >> 3) == 1, Low(h >> 4) == 1)
  }

  /** Multiply by the variable. */
  function Times(b: Bits): Bits { FeedLead((b & 0x1ffffff) << 5, b >> 25) }

  // ---------------------------------------------------- steps on numbers and bits

  lemma {:induction false} PickVal(c: Bits, p: bool, k: Bits, n: nat, key: nat)
    requires key == Val(k, n)
    ensures Val(PickBits(c, p, k), n) == Pick(Val(c, n), p, key)
  {
    ValXor(c, k, n);
  }

  lemma {:induction false} FeedHead(c: nat, c0: nat, k: nat, ks: seq<nat>)
    ensures Feed(c, c0, [k] + ks) == Feed(Pick(c, c0 % 2 == 1, k), c0 / 2, ks)
  {
    assert ([k] + ks)[1..] == ks;
  }

  lemma {:induction false} FeedFive(c: nat, h: nat, k0: nat, k1: nat, k2: nat, k3: nat, k4: nat)
    ensures var c1 := Pick(c, h % 2 == 1, k0);
            var c2 := Pick(c1, h / 2 % 2 == 1, k1);
            var c3 := Pick(c2, h / 2 / 2 % 2 == 1, k2);
            var c4 := Pick(c3, h / 2 / 2 / 2 % 2 == 1, k3);
            Feed(c, h, [k0, k1, k2, k3, k4]) == Pick(c4, h / 2 / 2 / 2 / 2 % 2 == 1, k4)
  {
    var c1 := Pick(c, h % 2 == 1, k0);
    var c2 := Pick(c1, h / 2 % 2 == 1, k1);
    var c3 := Pick(c2, h / 2 / 2 % 2 == 1, k2);
    var c4 := Pick(c3, h / 2 / 2 / 2 % 2 == 1, k3);
    FeedHead(c, h, k0, [k1, k2, k3, k4]);
    FeedHead(c1, h / 2, k1, [k2, k3, k4]);
    FeedHead(c2, h / 2 / 2, k2, [k3, k4]);
    FeedHead(c3, h / 2 / 2 / 2, k3, [k4]);
    FeedHead(c4, h / 2 / 2 / 2 / 2, k4, []);
    assert [k0] + [k1, k2, k3, k4] == [k0, k1, k2, k3, k4];
    assert [k1] + [k2, k3, k4] == [k1, k2, k3, k4];
    assert [k2] + [k3, k4] == [k2, k3, k4];
    assert [k3] + [k4] == [k3, k4];
    assert [k4] + [] == [k4];
  }

  lemma {:induction false} NextBit(h: Bits, next: Bits, v: nat, n: nat)
    requires n > 0 && v == Val(h, n) && next == h >> 1
    ensures v % 2 == Low(h) && v / 2 == Val(next, n - 1)
  {
    ValParts(h, n);
  }

  lemma {:induction false} FiveBits(h: Bits, h1: Bits, h2: Bits, h3: Bits, h4: Bits, h5: Bits, v: nat, n: nat)
    requires n >= 5 && v == Val(h, n) && Shifts(h, h1, h2, h3, h4, h5)
    ensures v % 2 == Low(h) && v / 2 % 2 == Low(h1) && v / 2 / 2 % 2 == Low(h2)
    ensures v / 2 / 2 / 2 % 2 == Low(h3) && v / 2 / 2 / 2 / 2 % 2 == Low(h4)
    ensures v / 2 / 2 / 2 / 2 / 2 == Val(h5, n - 5)
  {
    NextBit(h, h1, v, n);
    NextBit(h1, h2, v / 2, n - 1);
    NextBit(h2, h3, v / 2 / 2, n - 2);
    NextBit(h3, h4, v / 2 / 2 / 2, n - 3);
    NextBit(h4, h5, v / 2 / 2 / 2 / 2, n - 4);
  }

  function Five(b0: nat, b1: nat, b2: nat, b3: nat, b4: nat): nat { b0 + 2 * (b1 + 2 * (b2 + 2 * (b3 + 2 * b4))) }

  /** The last five bits as a number. */
  function Digit(h: Bits): nat { Five(Low(h), Low(h >> 1), Low(h >> 2), Low(h >> 3), Low(h >> 4)) }

  lemma {:induction false} FiveParts(v: nat)
    ensures v == Five(v % 2, v / 2 % 2, v / 2 / 2 % 2, v / 2 / 2 / 2 % 2, v / 2 / 2 / 2 / 2 % 2)
                 + 32 * (v / 2 / 2 / 2 / 2 / 2)
  {
  }

  lemma {:induction false} ValOfBits(h: Bits, h1: Bits, h2: Bits, h3: Bits, h4: Bits, h5: Bits, n: nat)
    requires n >= 5 && Shifts(h, h1, h2, h3, h4, h5)
    ensures Val(h, n) == Five(Low(h), Low(h1), Low(h2), Low(h3), Low(h4)) + 32 * Val(h5, n - 5)
  {
    FiveBits(h, h1, h2, h3, h4, h5, Val(h, n), n);
    FiveParts(Val(h, n));
  }

  lemma {:induction false} ValDigit(h: Bits, n: nat, h5: Bits)
    requires n >= 5 && h5 == h >> 5
    ensures Val(h, n) == Digit(h) + 32 * Val(h5, n - 5)
  {
    var h1, h2, h3, h4 := h >> 1, h >> 2, h >> 3, h >> 4;
    ShiftsAre(h, h1, h2, h3, h4, h5);
    ValOfBits(h, h1, h2, h3, h4, h5, n);
  }

  lemma {:induction false} ValDigits(b: Bits, b1: Bits, b2: Bits, b3: Bits, b4: Bits, b5: Bits, n: nat)
    requires n == 30
    requires b1 == b >> 5 && b2 == b1 >> 5 && b3 == b2 >> 5 && b4 == b3 >> 5 && b5 == b4 >> 5
    ensures Val(b, n) == Digit(b) + 32 * (Digit(b1) + 32 * (Digit(b2) + 32 * (Digit(b3) + 32 * (Digit(b4)
                         + 32 * Digit(b5)))))
  {
    ValDigit(b, n, b1);
    ValDigit(b1, n - 5, b2);
    ValDigit(b2, n - 10, b3);
    ValDigit(b3, n - 15, b4);
    ValDigit(b4, n - 20, b5);
    ValDigit(b5, n - 25, b5 >> 5);
  }

  lemma {:induction false} Generator0(n: nat)
    requires n == 30
    ensures Val(0x3b6a57b2, n) == 0x3b6a57b2
  {
    ValDigits(0x3b6a57b2, 0x1db52bd, 0xeda95, 0x76d4, 0x3b6, 0x1d, n);
  }

  lemma {:induction false} Generator1(n: nat)
    requires n == 30
    ensures Val(0x26508e6d, n) == 0x26508e6d
  {
    ValDigits(0x26508e6d, 0x1328473, 0x99423, 0x4ca1, 0x265, 0x13, n);
  }

  lemma {:induction false} Generator2(n: nat)
    requires n == 30
    ensures Val(0x1ea119fa, n) == 0x1ea119fa
  {
    ValDigits(0x1ea119fa, 0xf508cf, 0x7a846, 0x3d42, 0x1ea, 0xf, n);
  }

  lemma {:induction false} Generator3(n: nat)
    requires n == 30
    ensures Val(0x3d4233dd, n) == 0x3d4233dd
  {
    ValDigits(0x3d4233dd, 0x1ea119e, 0xf508c, 0x7a84, 0x3d4, 0x1e, n);
  }

  lemma {:induction false} Generator4(n: nat)
    requires n == 30
    ensures Val(0x2a1462b3, n) == 0x2a1462b3
  {
    ValDigits(0x2a1462b3, 0x150a315, 0xa8518, 0x5428, 0x2a1, 0x15, n);
  }

  lemma {:induction false} FeedByVal(c: Bits, p0: bool, p1: bool, p2: bool, p3: bool, p4: bool, n: nat, v: nat)
    requires n == 30 && v == Val(c, n)
    ensures Val(FeedBy(c, p0, p1, p2, p3, p4), n) ==
            Pick(Pick(Pick(Pick(Pick(v, p0, 0x3b6a57b2), p1, 0x26508e6d), p2, 0x1ea119fa), p3, 0x3d4233dd), p4,
                0x2a1462b3)
  {
    var c0 := PickBits(c, p0, 0x3b6a57b2);
    var c1 := PickBits(c0, p1, 0x26508e6d);
    var c2 := PickBits(c1, p2, 0x1ea119fa);
    var c3 := PickBits(c2, p3, 0x3d4233dd);
    Generator0(n);
    Generator1(n);
    Generator2(n);
    Generator3(n);
    Generator4(n);
    PickVal(c, p0, 0x3b6a57b2, n, 0x3b6a57b2);
    PickVal(c0, p1, 0x26508e6d, n, 0x26508e6d);
    PickVal(c1, p2, 0x1ea119fa, n, 0x1ea119fa);
    PickVal(c2, p3, 0x3d4233dd, n, 0x3d4233dd);
    PickVal(c3, p4, 0x2a1462b3, n, 0x2a1462b3);
  }

  lemma {:induction false} FeedVal(c: Bits, h: Bits, n: nat, v: nat, w: nat, k: nat)
    requires n == 30 && k == 5 && v == Val(c, n) && w == Val(h, k)
    ensures Val(FeedLead(c, h), n) == Feed(v, w, GENERATOR)
  {
    var h1, h2, h3, h4, h5 := h >> 1, h >> 2, h >> 3, h >> 4, h >> 5;
    ShiftsAre(h, h1, h2, h3, h4, h5);
    FiveBits(h, h1, h2, h3, h4, h5, w, k);
    FeedByVal(c, Low(h) == 1, Low(h1) == 1, Low(h2) == 1, Low(h3) == 1, Low(h4) == 1, n, v);
    FeedFive(v, w, 0x3b6a57b2, 0x26508e6d, 0x1ea119fa, 0x3d4233dd, 0x2a1462b3);
  }

  lemma {:induction false} ValBound(b: Bits, n: nat)
    ensures Val(b, n) < Up(1, n)
    decreases n
  {
    if n > 0 {
      ValBound(b >> 1, n - 1);
    }
  }

  lemma OnesNext(mask: Bits, next: Bits, n: nat)
    requires mask & 1 == 1 && next == mask >> 1 && Ones(next, n)
    ensures Ones(mask, n + 1)
  {
  }

  lemma {:induction false} OnesFive(m: Bits, m1: Bits, m2: Bits, m3: Bits, m4: Bits, m5: Bits, n: nat)
    requires Shifts(m, m1, m2, m3, m4, m5) && Ones(m5, n)
    requires m & 1 == 1 && m1 & 1 == 1 && m2 & 1 == 1 && m3 & 1 == 1 && m4 & 1 == 1
    ensures Ones(m, n + 5)
  {
    OnesNext(m4, m5, n);
    OnesNext(m3, m4, n + 1);
    OnesNext(m2, m3, n + 2);
    OnesNext(m1, m2, n + 3);
    OnesNext(m, m1, n + 4);
  }

  lemma {:induction false} LowMask(n: nat)
    requires n == 0
    ensures Ones(0x1ffffff, n + 25)
  {
    OnesFive(0x1f, 0xf, 0x7, 0x3, 0x1, 0x0, n);
    OnesFive(0x3ff, 0x1ff, 0xff, 0x7f, 0x3f, 0x1f, n + 5);
    OnesFive(0x7fff, 0x3fff, 0x1fff, 0xfff, 0x7ff, 0x3ff, n + 10);
    OnesFive(0xfffff, 0x7ffff, 0x3ffff, 0x1ffff, 0xffff, 0x7fff, n + 15);
    OnesFive(0x1ffffff, 0xffffff, 0x7fffff, 0x3fffff, 0x1fffff, 0xfffff, n + 20);
  }

  /** Leading coefficient and the rest. */
  lemma {:induction false} LeadAndRest(b: Bits, h: Bits, c: nat, n: nat, k: nat)
    requires n == 25 && k == 5 && h == b >> 25 && c == Val(b, n + k)
    ensures c / TOP == Val(h, k) && c % TOP == Val(b, n)
  {
    DownTop(b, k, h);
    ValSplit(b, n, k);
    UpValues(Val(h, k));
    UpValues(1);
    ValBound(b, n);
    TopIs(c, Val(h, k), Val(b, n));
  }

  lemma MaskRoom(b: Bits, x: Bits)
    requires x == b & 0x1ffffff
    ensures x & 0x7C0000000 == 0
  {
  }

  lemma {:induction false} RestShifted(b: Bits, x: Bits, n: nat)
    requires n == 25 && x == b & 0x1ffffff
    ensures Val(x << 5, n + 5) == 32 * Val(b, n)
  {
    LowMask(n - 25);
    ValMask(b, 0x1ffffff, n);
    MaskRoom(b, x);
    ValShift(x, n);
  }

  lemma {:induction false} StepParts(c: nat, l: nat, h: nat)
    requires c / TOP == h && c % TOP == l
    ensures Step(c, 0) == Feed(32 * l, h, GENERATOR)
  {
    XorComm(32 * l, 0);
  }

  /** The step on bits is the step on numbers. */
  lemma {:induction false} TimesVal(b: Bits, n: nat, c: nat)
    requires n == 30 && c == Val(b, n)
    ensures Val(Times(b), n) == Step(c, 0)
  {
    var x, h := b & 0x1ffffff, b >> 25;
    var l, k := Val(b, n - 5), n - 25;
    LeadAndRest(b, h, c, n - 5, k);
    RestShifted(b, x, n - 5);
    FeedVal(x << 5, h, n, 32 * l, Val(h, k), k);
    StepParts(c, l, Val(h, k));
  }

  // ------------------------------------------------- powers of the variable

  /** Not a constant: a coefficient other than the last is set. */
  predicate High(b: Bits) { b & 0x3fffffe0 != 0 }

  lemma HighShifted(b: Bits, c: Bits)
    requires High(b) && c == b >> 5
    ensures c & 0x1ffffff != 0
  {
  }

  lemma {:induction false} ValZero(y: Bits, mask: Bits, n: nat)
    requires Ones(mask, n) && Val(y, n) == 0
    ensures y & mask == 0
    decreases n
  {
    if n > 0 {
      ValZero(y >> 1, mask >> 1, n - 1);
      MaskStep(y, mask);
    }
  }

  lemma {:induction false} HighVal(b: Bits, n: nat)
    requires n == 30 && High(b)
    ensures Val(b, n) >= 32
  {
    var c := b >> 5;
    HighShifted(b, c);
    ValDigit(b, n, c);
    LowMask(n - 30);
    if Val(c, n - 5) == 0 {
      ValZero(c, 0x1ffffff, n - 5);
    }
  }

  /** The next n multiples by the variable are not constant. */
  predicate HighFor(b: Bits, n: nat)
    decreases n
  {
    n == 0 || (High(Times(b)) && HighFor(Times(b), n - 1))
  }

  lemma {:induction false} Link(b: Bits, c: Bits, n: nat)
    requires c == Times(b) && High(c) && HighFor(c, n)
    ensures HighFor(b, n + 1)
  {
  }

  lemma {:induction false} Orbit80(n: nat)
    requires n == 0
    ensures HighFor(0x33295b93, n + 8)
  {
    Link(0x24c0fe77, 0x145b223e, n);
    Link(0xce18b4f, 0x24c0fe77, n + 1);
    Link(0x12564f79, 0xce18b4f, n + 2);
    Link(0x3def8c4c, 0x12564f79, n + 3);
    Link(0x265609b9, 0x3def8c4c, n + 4);
    Link(0x3c4f8e7a, 0x265609b9, n + 5);
    Link(0x91774bc, 0x3c4f8e7a, n + 6);
    Link(0x33295b93, 0x91774bc, n + 7);
  }

  lemma {:induction false} Orbit72(n: nat)
    requires n == 8
    ensures HighFor(0x3ad4dafa, n + 8)
  {
    Orbit80(n - 8);
    Link(0x20c9e9c9, 0x33295b93, n);
    Link(0x28a3e494, 0x20c9e9c9, n + 1);
    Link(0x390aa560, 0x28a3e494, n + 2);
    Link(0x1c8552b, 0x390aa560, n + 3);
    Link(0x3ea82e23, 0x1c8552b, n + 4);
    Link(0x347d7789, 0x3ea82e23, n + 5);
    Link(0x28064066, 0x347d7789, n + 6);
    Link(0x3ad4dafa, 0x28064066, n + 7);
  }

  lemma {:induction false} Orbit64(n: nat)
    requires n == 16
    ensures HighFor(0x2740d4a7, n + 8)
  {
    Orbit72(n - 8);
    Link(0x923ae18, 0x3ad4dafa, n);
    Link(0x1fbfd2ef, 0x923ae18, n + 1);
    Link(0x12ccbdb4, 0x1fbfd2ef, n + 2);
    Link(0x38d9dfa9, 0x12ccbdb4, n + 3);
    Link(0x28636527, 0x38d9dfa9, n + 4);
    Link(0x185c0278, 0x28636527, n + 5);
    Link(0x1f342f8c, 0x185c0278, n + 6);
    Link(0x2740d4a7, 0x1f342f8c, n + 7);
  }

  lemma {:induction false} Orbit56(n: nat)
    requires n == 24
    ensures HighFor(0x2b524659, n + 8)
  {
    Orbit64(n - 8);
    Link(0x18251ff4, 0x2740d4a7, n);
    Link(0x388e92bb, 0x18251ff4, n + 1);
    Link(0x2bba8df2, 0x388e92bb, n + 2);
    Link(0x28686d2, 0x2bba8df2, n + 3);
    Link(0x3cf668b, 0x28686d2, n + 4);
    Link(0x3eb817be, 0x3cf668b, n + 5);
    Link(0x2597e7db, 0x3eb817be, n + 6);
    Link(0x2b524659, 0x2597e7db, n + 7);
  }

  lemma {:induction false} Orbit48(n: nat)
    requires n == 32
    ensures HighFor(0x20d4cef0, n + 8)
  {
    Orbit56(n - 8);
    Link(0x3c27ac05, 0x2b524659, n);
    Link(0xffde361, 0x3c27ac05, n + 1);
    Link(0x22f41eb3, 0xffde361, n + 2);
    Link(0x204703e0, 0x22f41eb3, n + 3);
    Link(0x102381f, 0x204703e0, n + 4);
    Link(0x6e1c70e, 0x102381f, n + 5);
    Link(0x308dbcb3, 0x6e1c70e, n + 6);
    Link(0x20d4cef0, 0x308dbcb3, n + 7);
  }

  lemma {:induction false} Orbit40(n: nat)
    requires n == 40
    ensures HighFor(0x2418480a, n + 8)
  {
    Orbit48(n - 8);
    Link(0x15de339a, 0x20d4cef0, n);
    Link(0x85bf953, 0x15de339a, n + 1);
    Link(0x21127cdf, 0x85bf953, n + 2);
    Link(0x7e14528, 0x21127cdf, n + 3);
    Link(0xb11505b, 0x7e14528, n + 4);
    Link(0x2a2673e5, 0xb11505b, n + 5);
    Link(0xf4ded9e, 0x2a2673e5, n + 6);
    Link(0x2418480a, 0xf4ded9e, n + 7);
  }

  lemma {:induction false} Orbit32(n: nat)
    requires n == 48
    ensures HighFor(0x1a5588bf, n + 8)
  {
    Orbit40(n - 8);
    Link(0x1d0d5f62, 0x2418480a, n);
    Link(0x17ebadab, 0x1d0d5f62, n + 1);
    Link(0x3e1931e7, 0x17ebadab, n + 2);
    Link(0x18efd0de, 0x3e1931e7, n + 3);
    Link(0x24a559e0, 0x18efd0de, n + 4);
    Link(0x1252acf, 0x24a559e0, n + 5);
    Link(0x12386a75, 0x1252acf, n + 6);
    Link(0x1a5588bf, 0x12386a75, n + 7);
  }

  lemma {:induction false} Orbit24(n: nat)
    requires n == 56
    ensures HighFor(0x3c1fc3a8, n + 8)
  {
    Orbit32(n - 8);
    Link(0x63b7a8b, 0x1a5588bf, n);
    Link(0x3e97b75e, 0x63b7a8b, n + 1);
    Link(0x25969adc, 0x3e97b75e, n + 2);
    Link(0x324d54e0, 0x25969adc, n + 3);
    Link(0x1926aa7, 0x324d54e0, n + 4);
    Link(0x19138a04, 0x1926aa7, n + 5);
    Link(0x2c5fb3f9, 0x19138a04, n + 6);
    Link(0x3c1fc3a8, 0x2c5fb3f9, n + 7);
  }

  lemma {:induction false} Orbit16(n: nat)
    requires n == 64
    ensures HighFor(0x714461b, n + 8)
  {
    Orbit24(n - 8);
    Link(0xacea46f, 0x3c1fc3a8, n);
    Link(0x12673600, 0xacea46f, n + 1);
    Link(0x9339b0, 0x12673600, n + 2);
    Link(0x14dc0c20, 0x9339b0, n + 3);
    Link(0xa6e061, 0x14dc0c20, n + 4);
    Link(0x228ec6ab, 0xa6e061, n + 5);
    Link(0x3fb21abf, 0x228ec6ab, n + 6);
    Link(0x714461b, 0x3fb21abf, n + 7);
  }

  lemma {:induction false} Orbit8(n: nat)
    requires n == 72
    ensures HighFor(0x424df38, n + 8)
  {
    Orbit16(n - 8);
    Link(0x2a465b57, 0x714461b, n);
    Link(0xc95be66, 0x2a465b57, n + 1);
    Link(0x3bf0450a, 0xc95be66, n + 2);
    Link(0x1df21f0a, 0x3bf0450a, n + 3);
    Link(0x1cc20dda, 0x1df21f0a, n + 4);
    Link(0x81318a1, 0x1cc20dda, n + 5);
    Link(0x22cb696d, 0x81318a1, n + 6);
    Link(0x424df38, 0x22cb696d, n + 7);
  }

  lemma {:induction false} Orbit0(n: nat)
    requires n == 80
    ensures HighFor(0x1, n + 8)
  {
    Orbit8(n - 8);
    Link(0x1fd7e966, 0x424df38, n);
    Link(0x3b6a57b2, 0x1fd7e966, n + 1);
    Link(0x2000000, 0x3b6a57b2, n + 2);
    Link(0x100000, 0x2000000, n + 3);
    Link(0x8000, 0x100000, n + 4);
    Link(0x400, 0x8000, n + 5);
    Link(0x20, 0x400, n + 6);
    Link(0x1, 0x20, n + 7);
  }

  /** Multiply by the variable k times. */
  function Zeros(c: nat, k: nat): nat
    decreases k
  {
    if k == 0 then c else Zeros(Step(c, 0), k - 1)
  }

  lemma {:induction false} HighAt(b: Bits, n: nat, k: nat, w: nat, c: nat)
    requires w == 30 && c == Val(b, w) && HighFor(b, n) && 1 <= k <= n
    ensures Zeros(c, k) >= 32
    decreases k
  {
    var d := Times(b);
    TimesVal(b, w, c);
    if k == 1 {
      HighVal(d, w);
    } else {
      HighAt(d, n - 1, k - 1, w, Val(d, w));
    }
  }

  lemma {:induction false} OneVal(n: nat)
    requires n == 30
    ensures Val(1, n) == 1
  {
    ValDigits(1, 0, 0, 0, 0, 0, n);
  }

  /** No power of the variable from the first to the 88th leaves a constant. */
  lemma {:induction false} PowersHigh(k: nat)
    requires 1 <= k <= 88
    ensures Zeros(1, k) >= 32
  {
    Orbit0(80);
    OneVal(30);
    HighAt(1, 88, k, 30, 1);
  }
}
