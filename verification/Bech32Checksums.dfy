/** The Bech32 checksum (section "Bech32" of BIP 173): a remainder modulo a generator
    polynomial over GF(32), six 5-bit coefficients packed in one 30-bit number. It is
    linear with respect to exclusive or, and one step of it is injective. */
module Bech32Checksums {
  import opened BitXor

  const TOP := 0x2000000

  const LIMIT := 0x40000000

  /** The generator's low part times one, two, four, eight and sixteen. */
  const GENERATOR: seq<nat> := [0x3b6a57b2, 0x26508e6d, 0x1ea119fa, 0x3d4233dd, 0x2a1462b3]

  function Pick(c: nat, p: bool, k: nat): nat { if p then Xor(c, k) else c }

  /** Add the entries of ks that the bits of c0 select. */
  function Feed(c: nat, c0: nat, ks: seq<nat>): nat
    decreases |ks|
  {
    if ks == [] then c else Feed(Pick(c, c0 % 2 == 1, ks[0]), c0 / 2, ks[1..])
  }

  /** One more coefficient. */
  function Step(c: nat, v: nat): nat { Feed(Xor((c % TOP) * 32, v), c / TOP, GENERATOR) }

  // ---------------------------------------------------------------- linearity

  lemma {:induction false} PickLinear(a: nat, b: nat, p: bool, q: bool, k: nat)
    ensures Pick(Xor(a, b), p != q, k) == Xor(Pick(a, p, k), Pick(b, q, k))
  {
    if p && q {
      XorSwap(a, k, b, k);
      XorSelf(k);
    } else if p {
      XorAssoc(a, b, k);
      XorComm(b, k);
      XorAssoc(a, k, b);
    } else if q {
      XorAssoc(a, b, k);
    }
  }

  lemma OddSum(x: nat, y: nat)
    ensures ((x + y) % 2 == 1) == ((x % 2 == 1) != (y % 2 == 1))
  {
  }

  lemma {:induction false} OddXor(x: nat, y: nat)
    ensures (Xor(x, y) % 2 == 1) == ((x % 2 == 1) != (y % 2 == 1))
    ensures Xor(x, y) / 2 == Xor(x / 2, y / 2)
  {
    XorStep(x, y);
    OddSum(x, y);
  }

  lemma {:induction false} FeedLinear(a: nat, b: nat, x: nat, y: nat, ks: seq<nat>)
    ensures Feed(Xor(a, b), Xor(x, y), ks) == Xor(Feed(a, x, ks), Feed(b, y, ks))
    decreases |ks|
  {
    if ks != [] {
      PickLinear(a, b, x % 2 == 1, y % 2 == 1, ks[0]);
      OddXor(x, y);
      FeedLinear(Pick(a, x % 2 == 1, ks[0]), Pick(b, y % 2 == 1, ks[0]), x / 2, y / 2, ks[1..]);
    }
  }

  lemma {:induction false} UpFive(a: nat)
    ensures Up(a, 5) == 32 * a
  {
    assert Up(a, 1) == 2 * a;
    assert Up(a, 3) == 8 * a;
  }

  lemma {:induction false} UpValues(a: nat)
    ensures Up(a, 25) == TOP * a && Up(a, 30) == LIMIT * a
  {
    UpAdd(a, 5, 5);
    UpAdd(a, 10, 5);
    UpAdd(a, 15, 5);
    UpAdd(a, 20, 5);
    UpAdd(a, 25, 5);
    UpFive(a);
    UpFive(32 * a);
    UpFive(1024 * a);
    UpFive(32768 * a);
    UpFive(0x100000 * a);
    UpFive(TOP * a);
  }

  lemma TopIs(x: nat, q: nat, r: nat)
    requires x == TOP * q + r && r < TOP
    ensures x / TOP == q && x % TOP == r
  {
  }

  lemma {:induction false} TopLinear(a: nat, b: nat)
    ensures Xor(a, b) / TOP == Xor(a / TOP, b / TOP)
    ensures Xor(a, b) % TOP == Xor(a % TOP, b % TOP)
  {
    var p, x, q, y := a / TOP, a % TOP, b / TOP, b % TOP;
    UpValues(p);
    UpValues(q);
    UpValues(1);
    UpValues(Xor(p, q));
    XorSplit(a, b, p, x, q, y, 25);
    TopIs(Xor(a, b), Xor(p, q), Xor(x, y));
  }

  lemma {:induction false} ShiftLinear(a: nat, b: nat)
    ensures Xor(a, b) * 32 == Xor(a * 32, b * 32)
  {
    UpFive(a);
    UpFive(b);
    UpFive(1);
    UpFive(Xor(a, b));
    XorSplit(a * 32, b * 32, a, 0, b, 0, 5);
  }

  lemma {:induction false} StepLinear(a: nat, b: nat, x: nat, y: nat)
    ensures Step(Xor(a, b), Xor(x, y)) == Xor(Step(a, x), Step(b, y))
  {
    TopLinear(a, b);
    ShiftLinear(a % TOP, b % TOP);
    XorSwap((a % TOP) * 32, (b % TOP) * 32, x, y);
    FeedLinear(Xor((a % TOP) * 32, x), Xor((b % TOP) * 32, y), a / TOP, b / TOP, GENERATOR);
  }

  // -------------------------------------------------------------- injectivity

  predicate Below(ks: seq<nat>, bound: nat) { forall i | 0 <= i < |ks| :: ks[i] < bound }

  lemma {:induction false} XorBound(x: nat, y: nat)
    requires x < LIMIT && y < LIMIT
    ensures Xor(x, y) < LIMIT
  {
    UpValues(1);
    UpValues(0);
    XorSplit(x, y, 0, x, 0, y, 30);
  }

  lemma {:induction false} FeedBound(c: nat, c0: nat, ks: seq<nat>)
    requires c < LIMIT && Below(ks, LIMIT)
    ensures Feed(c, c0, ks) < LIMIT
    decreases |ks|
  {
    if ks != [] {
      XorBound(c, ks[0]);
      FeedBound(Pick(c, c0 % 2 == 1, ks[0]), c0 / 2, ks[1..]);
    }
  }

  lemma StepBound(c: nat, v: nat)
    requires v < 32
    ensures Step(c, v) < LIMIT
  {
    XorBound((c % TOP) * 32, v);
    FeedBound(Xor((c % TOP) * 32, v), c / TOP, GENERATOR);
  }

  lemma LowIs(x: nat, q: nat, r: nat)
    requires x == 32 * q + r && r < 32
    ensures x % 32 == r
  {
  }

  lemma {:induction false} LowOf(a: nat, b: nat, p: nat, x: nat, q: nat, y: nat)
    requires a == 32 * p + x && b == 32 * q + y && x < 32 && y < 32
    ensures Xor(a, b) % 32 == Xor(x, y)
  {
    UpFive(p);
    UpFive(q);
    UpFive(1);
    UpFive(Xor(p, q));
    XorSplit(a, b, p, x, q, y, 5);
    LowIs(Xor(a, b), Xor(p, q), Xor(x, y));
  }

  lemma {:induction false} LowLinear(a: nat, b: nat)
    ensures Xor(a, b) % 32 == Xor(a % 32, b % 32)
  {
    LowOf(a, b, a / 32, a % 32, b / 32, b % 32);
  }

  function Lows(ks: seq<nat>): (r: seq<nat>)
    ensures |r| == |ks|
  {
    if ks == [] then [] else [ks[0] % 32] + Lows(ks[1..])
  }

  lemma {:induction false} FeedLow(c: nat, c0: nat, ks: seq<nat>)
    ensures Feed(c, c0, ks) % 32 == Feed(c % 32, c0, Lows(ks))
    decreases |ks|
  {
    if ks != [] {
      LowLinear(c, ks[0]);
      FeedLow(Pick(c, c0 % 2 == 1, ks[0]), c0 / 2, ks[1..]);
      assert Lows(ks)[1..] == Lows(ks[1..]);
    }
  }

  lemma {:induction false} FeedNone(c: nat, ks: seq<nat>)
    ensures Feed(c, 0, ks) == c
    decreases |ks|
  {
    if ks != [] {
      FeedNone(c, ks[1..]);
    }
  }

  const LOWS: seq<nat> := [18, 13, 26, 29, 19]

  lemma LowsAre()
    ensures Lows(GENERATOR) == LOWS
  {
    assert Lows([0x2a1462b3]) == [19];
    assert Lows([0x3d4233dd, 0x2a1462b3]) == [29, 19];
    assert Lows([0x1ea119fa, 0x3d4233dd, 0x2a1462b3]) == [26, 29, 19];
    assert Lows([0x26508e6d, 0x1ea119fa, 0x3d4233dd, 0x2a1462b3]) == [13, 26, 29, 19];
  }

  function Weight(p: bool, k: nat): nat { if p then k % 2 else 0 }

  /** The last bit of what is fed in is a sum of bits of c0. */
  function Parity(c0: nat, ks: seq<nat>): nat
    decreases |ks|
  {
    if ks == [] then 0 else Weight(c0 % 2 == 1, ks[0]) + Parity(c0 / 2, ks[1..])
  }

  function Halves(ks: seq<nat>): (r: seq<nat>)
    ensures |r| == |ks|
  {
    if ks == [] then [] else [ks[0] / 2] + Halves(ks[1..])
  }

  lemma ParityMoves(x: nat, c: nat, k: nat, p: nat)
    requires x % 2 == (c + k) % 2
    ensures (x + p) % 2 == (c + (k % 2 + p)) % 2
  {
  }

  lemma {:induction false} FeedBits(c: nat, c0: nat, ks: seq<nat>)
    ensures Feed(c, c0, ks) / 2 == Feed(c / 2, c0, Halves(ks))
    ensures Feed(c, c0, ks) % 2 == (c + Parity(c0, ks)) % 2
    decreases |ks|
  {
    if ks != [] {
      var p := c0 % 2 == 1;
      XorStep(c, ks[0]);
      FeedBits(Pick(c, p, ks[0]), c0 / 2, ks[1..]);
      assert Halves(ks)[1..] == Halves(ks[1..]);
      if p {
        ParityMoves(Xor(c, ks[0]), c, ks[0], Parity(c0 / 2, ks[1..]));
      }
    }
  }

  lemma {:induction false} ParityHead(c0: nat, k: nat, ks: seq<nat>)
    ensures Parity(c0, [k] + ks) == Weight(c0 % 2 == 1, k) + Parity(c0 / 2, ks)
    ensures Halves([k] + ks) == [k / 2] + Halves(ks)
  {
    assert ([k] + ks)[1..] == ks;
  }

  lemma {:induction false} ParityOf(c0: nat, k0: nat, k1: nat, k2: nat, k3: nat, k4: nat)
    ensures Parity(c0, [k0, k1, k2, k3, k4]) ==
            Weight(c0 % 2 == 1, k0) + Weight(c0 / 2 % 2 == 1, k1) + Weight(c0 / 2 / 2 % 2 == 1, k2) +
            Weight(c0 / 2 / 2 / 2 % 2 == 1, k3) + Weight(c0 / 2 / 2 / 2 / 2 % 2 == 1, k4)
    ensures Halves([k0, k1, k2, k3, k4]) == [k0 / 2, k1 / 2, k2 / 2, k3 / 2, k4 / 2]
  {
    ParityHead(c0, k0, [k1, k2, k3, k4]);
    ParityHead(c0 / 2, k1, [k2, k3, k4]);
    ParityHead(c0 / 2 / 2, k2, [k3, k4]);
    ParityHead(c0 / 2 / 2 / 2, k3, [k4]);
    ParityHead(c0 / 2 / 2 / 2 / 2, k4, []);
    assert [k0] + [k1, k2, k3, k4] == [k0, k1, k2, k3, k4];
    assert [k1] + [k2, k3, k4] == [k1, k2, k3, k4];
    assert [k2] + [k3, k4] == [k2, k3, k4];
    assert [k3] + [k4] == [k3, k4];
    assert [k4] + [] == [k4];
  }

  /** One bit of the sum of the selected entries. */
  lemma {:induction false} BitOf(c0: nat, k0: nat, k1: nat, k2: nat, k3: nat, k4: nat)
    requires Feed(0, c0, [k0, k1, k2, k3, k4]) == 0
    ensures Feed(0, c0, [k0 / 2, k1 / 2, k2 / 2, k3 / 2, k4 / 2]) == 0
    ensures (Weight(c0 % 2 == 1, k0) + Weight(c0 / 2 % 2 == 1, k1) + Weight(c0 / 2 / 2 % 2 == 1, k2) +
             Weight(c0 / 2 / 2 / 2 % 2 == 1, k3) + Weight(c0 / 2 / 2 / 2 / 2 % 2 == 1, k4)) % 2 == 0
  {
    FeedBits(0, c0, [k0, k1, k2, k3, k4]);
    ParityOf(c0, k0, k1, k2, k3, k4);
  }

  predicate Even(b0: bool, b1: bool, b2: bool, b3: bool, b4: bool, k0: nat, k1: nat, k2: nat, k3: nat, k4: nat) {
    (Weight(b0, k0) + Weight(b1, k1) + Weight(b2, k2) + Weight(b3, k3) + Weight(b4, k4)) % 2 == 0
  }

  /** The five equations have one solution. */
  lemma OnlyZero(b0: bool, b1: bool, b2: bool, b3: bool, b4: bool)
    requires Even(b0, b1, b2, b3, b4, 18, 13, 26, 29, 19)
    requires Even(b0, b1, b2, b3, b4, 9, 6, 13, 14, 9)
    requires Even(b0, b1, b2, b3, b4, 4, 3, 6, 7, 4)
    requires Even(b0, b1, b2, b3, b4, 2, 1, 3, 3, 2)
    requires Even(b0, b1, b2, b3, b4, 1, 0, 1, 1, 1)
    ensures !b0 && !b1 && !b2 && !b3 && !b4
  {
  }

  lemma {:induction false} NoKernel(c0: nat)
    requires c0 < 32 && Feed(0, c0, LOWS) == 0
    ensures c0 == 0
  {
    BitOf(c0, 18, 13, 26, 29, 19);
    BitOf(c0, 9, 6, 13, 14, 9);
    BitOf(c0, 4, 3, 6, 7, 4);
    BitOf(c0, 2, 1, 3, 3, 2);
    BitOf(c0, 1, 0, 1, 1, 1);
    OnlyZero(c0 % 2 == 1, c0 / 2 % 2 == 1, c0 / 2 / 2 % 2 == 1, c0 / 2 / 2 / 2 % 2 == 1, c0 / 2 / 2 / 2 / 2 % 2 == 1);
  }

  lemma {:induction false} LowPart(h: nat, l: nat, ks: seq<nat>, lows: seq<nat>)
    requires Lows(ks) == lows && Feed(l * 32, h, ks) == 0
    ensures Feed(0, h, lows) == 0
  {
    FeedLow(l * 32, h, ks);
    LowIs(l * 32, l, 0);
  }

  lemma {:induction false} FeedInjective(h: nat, l: nat, ks: seq<nat>)
    requires Lows(ks) == LOWS && h < 32 && Feed(l * 32, h, ks) == 0
    ensures h == 0 && l == 0
  {
    LowPart(h, l, ks, LOWS);
    NoKernel(h);
    FeedNone(l * 32, ks);
  }

  /** Multiplying by the variable loses nothing. */
  lemma StepInjective(c: nat)
    requires c < LIMIT && Step(c, 0) == 0
    ensures c == 0
  {
    LowsAre();
    FeedInjective(c / TOP, c % TOP, GENERATOR);
  }

  // --------------------------------------------------------------- whole runs

  predicate Symbols(vs: seq<nat>) { Below(vs, 32) }

  function Run(c: nat, vs: seq<nat>): nat
    decreases |vs|
  {
    if vs == [] then c else Step(Run(c, vs[..|vs| - 1]), vs[|vs| - 1])
  }

  function Sum(xs: seq<nat>, ys: seq<nat>): seq<nat>
    requires |xs| == |ys|
  {
    seq(|xs|, i requires 0 <= i < |xs| => Xor(xs[i], ys[i]))
  }

  lemma {:induction false} RunLinear(a: nat, b: nat, xs: seq<nat>, ys: seq<nat>)
    requires |xs| == |ys|
    ensures Run(Xor(a, b), Sum(xs, ys)) == Xor(Run(a, xs), Run(b, ys))
    decreases |xs|
  {
    if xs != [] {
      var n := |xs| - 1;
      RunLinear(a, b, xs[..n], ys[..n]);
      assert Sum(xs, ys)[..n] == Sum(xs[..n], ys[..n]);
      StepLinear(Run(a, xs[..n]), Run(b, ys[..n]), xs[n], ys[n]);
    }
  }

  lemma {:induction false} RunNext(c: nat, xs: seq<nat>, x: nat)
    ensures Run(c, xs + [x]) == Step(Run(c, xs), x)
  {
    assert (xs + [x])[..|xs|] == xs;
  }

  lemma {:induction false} RunBothNext(c: nat, xs: seq<nat>, zs: seq<nat>, y: nat)
    requires Run(c, xs + zs) == Run(Run(c, xs), zs)
    ensures Run(c, xs + zs + [y]) == Run(Run(c, xs), zs + [y])
  {
    RunNext(c, xs + zs, y);
    RunNext(Run(c, xs), zs, y);
  }

  lemma {:induction false} RunAppend(c: nat, xs: seq<nat>, ys: seq<nat>)
    ensures Run(c, xs + ys) == Run(Run(c, xs), ys)
    decreases |ys|
  {
    if ys == [] {
      assert xs + ys == xs;
    } else {
      var n := |ys| - 1;
      RunAppend(c, xs, ys[..n]);
      RunBothNext(c, xs, ys[..n], ys[n]);
      assert ys == ys[..n] + [ys[n]];
      assert xs + ys == xs + ys[..n] + [ys[n]];
    }
  }

  lemma {:induction false} RunBound(c: nat, vs: seq<nat>)
    requires c < LIMIT && Symbols(vs)
    ensures Run(c, vs) < LIMIT
  {
    if vs != [] {
      StepBound(Run(c, vs[..|vs| - 1]), vs[|vs| - 1]);
    }
  }

  lemma SymbolsSum(xs: seq<nat>, ys: seq<nat>)
    requires |xs| == |ys| && Symbols(xs) && Symbols(ys)
    ensures Symbols(Sum(xs, ys))
  {
    forall i | 0 <= i < |xs|
      ensures Sum(xs, ys)[i] < 32
    {
      UpFive(0);
      UpFive(1);
      XorSplit(xs[i], ys[i], 0, xs[i], 0, ys[i], 5);
    }
  }

  /** Equal suffixes do not bring two different remainders together. */
  lemma {:induction false} DifferenceStays(u: nat, v: nat, vs: seq<nat>)
    requires u < LIMIT && v < LIMIT && Symbols(vs)
    requires Run(u, vs) == Run(v, vs)
    ensures u == v
    decreases |vs|
  {
    if vs != [] {
      var n := |vs| - 1;
      var p, q := Run(u, vs[..n]), Run(v, vs[..n]);
      RunBound(u, vs[..n]);
      RunBound(v, vs[..n]);
      StepSame(p, q, vs[n]);
      DifferenceStays(u, v, vs[..n]);
    }
  }

  lemma StepSame(p: nat, q: nat, x: nat)
    requires p < LIMIT && q < LIMIT && Step(p, x) == Step(q, x)
    ensures p == q
  {
    StepLinear(p, q, x, x);
    XorSelf(x);
    XorSelf(Step(p, x));
    XorBound(p, q);
    StepInjective(Xor(p, q));
    XorDiffers(p, q);
  }

  // ------------------------------------------------------------- six symbols

  function Packed(t: seq<nat>): nat
    decreases |t|
  {
    if t == [] then 0 else 32 * Packed(t[..|t| - 1]) + t[|t| - 1]
  }

  function Groups(m: nat, n: nat): (t: seq<nat>)
    ensures |t| == n
  {
    if n == 0 then [] else Groups(m / 32, n - 1) + [m % 32]
  }

  lemma {:induction false} PackedBound(t: seq<nat>)
    requires Symbols(t)
    ensures Packed(t) < Up(1, 5 * |t|)
    decreases |t|
  {
    if t != [] {
      var n := |t| - 1;
      PackedBound(t[..n]);
      UpAdd(1, 5 * n, 5);
      UpFive(Up(1, 5 * n));
    }
  }

  lemma {:induction false} GroupsOfPacked(t: seq<nat>)
    requires Symbols(t)
    ensures Groups(Packed(t), |t|) == t
    decreases |t|
  {
    if t != [] {
      var n := |t| - 1;
      GroupsOfPacked(t[..n]);
      assert t == t[..n] + [t[n]];
    }
  }

  lemma {:induction false} PackedOfGroups(m: nat, n: nat)
    requires m < Up(1, 5 * n)
    ensures Packed(Groups(m, n)) == m && Symbols(Groups(m, n))
    decreases n
  {
    if n > 0 {
      UpAdd(1, 5 * (n - 1), 5);
      UpFive(Up(1, 5 * (n - 1)));
      PackedOfGroups(m / 32, n - 1);
      assert Groups(m, n)[..n - 1] == Groups(m / 32, n - 1);
    }
  }

  lemma {:induction false} XorShort(c: nat, v: nat)
    requires v < 32
    ensures Xor(c * 32, v) == 32 * c + v
  {
    UpFive(c);
    UpFive(0);
    UpFive(1);
    XorSplit(c * 32, v, c, 0, 0, v, 5);
  }

  lemma StepShort(c: nat, v: nat)
    requires c < TOP && v < 32
    ensures Step(c, v) == 32 * c + v
  {
    XorShort(c, v);
    FeedNone(Xor(c * 32, v), GENERATOR);
  }

  /** Six coefficients are not reduced. */
  lemma {:induction false} RunShort(t: seq<nat>)
    requires |t| <= 6 && Symbols(t)
    ensures Run(0, t) == Packed(t)
    decreases |t|
  {
    if t != [] {
      var n := |t| - 1;
      RunShort(t[..n]);
      ShortBound(t[..n]);
      StepShort(Packed(t[..n]), t[n]);
    }
  }

  lemma {:induction false} ShortBound(t: seq<nat>)
    requires |t| <= 5 && Symbols(t)
    ensures Packed(t) < TOP
  {
    PackedBound(t);
    UpGrows(5 * |t|, 25);
    UpValues(1);
  }

  lemma {:induction false} UpGrows(j: nat, k: nat)
    requires j <= k
    ensures Up(1, j) <= Up(1, k)
    decreases k
  {
    if j < k {
      UpGrows(j, k - 1);
    }
  }

  // ------------------------------------------------------------- the checksum

  const ZEROES: seq<nat> := [0, 0, 0, 0, 0, 0]

  /** The six symbols CreateChecksum returns for the expanded prefix and values. */
  function Checksum(enc: seq<nat>): (t: seq<nat>)
    ensures |t| == 6
  {
    Groups(Xor(Run(1, enc + ZEROES), 1), 6)
  }

  lemma {:induction false} RunWith(enc: seq<nat>, t: seq<nat>, zeroes: seq<nat>)
    requires |t| == 6 == |zeroes| && Symbols(t) && Sum(zeroes, t) == t
    ensures Run(1, enc + t) == Xor(Run(1, enc + zeroes), Packed(t))
  {
    RunAppend(1, enc, t);
    RunAppend(1, enc, zeroes);
    XorComm(Run(1, enc), 0);
    RunLinear(Run(1, enc), 0, zeroes, t);
    RunShort(t);
  }

  /** Six more symbols are added to the remainder that six zeroes give. */
  lemma {:induction false} RunWithSix(enc: seq<nat>, t: seq<nat>)
    requires |t| == 6 && Symbols(t)
    ensures Run(1, enc + t) == Xor(Run(1, enc + ZEROES), Packed(t))
  {
    assert Sum(ZEROES, t) == t;
    RunWith(enc, t, ZEROES);
  }

  /** The remainder with the checksum behind it is one, and no other six symbols make it so. */
  lemma {:induction false} ChecksumIff(enc: seq<nat>, t: seq<nat>)
    requires Symbols(enc) && |t| == 6 && Symbols(t)
    ensures Symbols(Checksum(enc))
    ensures Run(1, enc + t) == 1 <==> t == Checksum(enc)
  {
    var m := Run(1, enc + ZEROES);
    var s := Checksum(enc);
    RunBound(1, enc + ZEROES);
    XorBound(m, 1);
    UpValues(1);
    PackedOfGroups(Xor(m, 1), 6);
    RunWithSix(enc, s);
    RunWithSix(enc, t);
    XorAssoc(m, m, 1);
    XorSelf(m);
    if Run(1, enc + t) == 1 {
      XorCancel(m, Packed(t), Packed(s));
      GroupsOfPacked(t);
      GroupsOfPacked(s);
    }
  }

  lemma {:induction false} NonZero(t: seq<nat>)
    requires Packed(t) == 0
    ensures forall i | 0 <= i < |t| :: t[i] == 0
    decreases |t|
  {
    if t != [] {
      NonZero(t[..|t| - 1]);
    }
  }

  lemma SumZero(w: seq<nat>, u: seq<nat>)
    requires |w| == |u| && forall i | 0 <= i < |w| :: Sum(w, u)[i] == 0
    ensures w == u
  {
    forall i | 0 <= i < |w|
      ensures w[i] == u[i]
    {
      assert Sum(w, u)[i] == 0;
      XorDiffers(w[i], u[i]);
    }
  }

  /** Six consecutive symbols show in the remainder, from whatever remainder they start. */
  lemma {:induction false} WindowShows(p: nat, w: seq<nat>, u: seq<nat>)
    requires |w| == |u| <= 6 && Symbols(w) && Symbols(u)
    requires Run(p, w) == Run(p, u)
    ensures w == u
  {
    RunLinear(p, p, w, u);
    XorSelf(p);
    XorSelf(Run(p, w));
    SymbolsSum(w, u);
    RunShort(Sum(w, u));
    NonZero(Sum(w, u));
    SumZero(w, u);
  }

  /** Any change confined to six consecutive symbols changes the remainder. */
  lemma {:induction false} BurstChanges(a: seq<nat>, w: seq<nat>, u: seq<nat>, b: seq<nat>)
    requires Symbols(a) && Symbols(b) && Symbols(w) && Symbols(u)
    requires |w| == |u| <= 6 && w != u
    ensures Run(1, a + w + b) != Run(1, a + u + b)
  {
    RunAppend(1, a + w, b);
    RunAppend(1, a + u, b);
    RunAppend(1, a, w);
    RunAppend(1, a, u);
    RunBound(1, a);
    RunBound(Run(1, a), w);
    RunBound(Run(1, a), u);
    if Run(1, a + w + b) == Run(1, a + u + b) {
      DifferenceStays(Run(1, a + w), Run(1, a + u), b);
      WindowShows(Run(1, a), w, u);
    }
  }
}
