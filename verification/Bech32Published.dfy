/** A published Bech32 string, whose data part lists all 32 characters in the order of their
    values, is accepted and stands for the values 0 to 31. This ties down the character set,
    the generator and what the checksum is taken of. */
module Bech32Published {
  import opened Bech32Checksums
  import opened BitXor
  import opened Bech32Fields
  import opened Bech32

  // ----------------------------------------------------------- one more symbol

  /** The remainder after the first k symbols. */
  ghost predicate After(vs: seq<nat>, k: nat, b: Bits, n: nat) { k <= |vs| && Run(1, vs[..k]) == Val(b, n) }

  lemma {:induction false} StepWith(c: nat, v: nat)
    requires v < 32
    ensures Step(c, v) == Xor(Step(c, 0), v)
  {
    StepLinear(c, 0, 0, v);
    FeedNone(v, GENERATOR);
    XorComm(c, 0);
  }

  lemma {:induction false} SymbolVal(s: Bits, n: nat)
    requires n == 30 && s >> 5 == 0
    ensures Val(s, n) == Digit(s)
  {
    ValDigits(s, 0, 0, 0, 0, 0, n);
  }

  /** The same, before the symbol itself is added. */
  ghost predicate Before(vs: seq<nat>, k: nat, t: Bits, n: nat) { k < |vs| && Step(Run(1, vs[..k]), 0) == Val(t, n) }

  lemma {:induction false} FedTimes(vs: seq<nat>, k: nat, b: Bits, t: Bits, n: nat)
    requires n == 30 && After(vs, k, b, n) && k < |vs| && t == Times(b)
    ensures Before(vs, k, t, n)
  {
    TimesVal(b, n, Val(b, n));
  }

  lemma {:induction false} XorIs(t: Bits, s: Bits, d: Bits, n: nat)
    requires d == t ^ s
    ensures Val(d, n) == Xor(Val(t, n), Val(s, n))
  {
    ValXor(t, s, n);
  }

  lemma {:induction false} RunOne(vs: seq<nat>, k: nat, c: nat, x: nat, d: nat)
    requires k < |vs| && vs[k] < 32 && Run(1, vs[..k]) == c && x == Step(c, 0) && d == Xor(x, vs[k])
    ensures Run(1, vs[..k + 1]) == d
  {
    StepWith(c, vs[k]);
    assert vs[..k + 1] == vs[..k] + [vs[k]];
    RunNext(1, vs[..k], vs[k]);
  }

  lemma {:induction false} FedSymbol(vs: seq<nat>, k: nat, t: Bits, s: Bits, d: Bits, n: nat)
    requires n == 30 && Before(vs, k, t, n) && s >> 5 == 0 && vs[k] == Digit(s) && d == t ^ s
    ensures After(vs, k + 1, d, n)
  {
    SymbolVal(s, n);
    XorIs(t, s, d, n);
    RunOne(vs, k, Run(1, vs[..k]), Val(t, n), Val(d, n));
  }

  lemma {:induction false} Fed(vs: seq<nat>, k: nat, b: Bits, t: Bits, s: Bits, d: Bits, n: nat)
    requires n == 30 && After(vs, k, b, n) && k < |vs| && t == Times(b) && s >> 5 == 0 && vs[k] == Digit(s)
             && d == t ^ s
    ensures After(vs, k + 1, d, n)
  {
    FedTimes(vs, k, b, t, n);
    FedSymbol(vs, k, t, s, d, n);
  }

  lemma {:induction false} FedZero(vs: seq<nat>, k: nat, b: Bits, d: Bits, n: nat)
    requires n == 30 && After(vs, k, b, n) && k < |vs| && vs[k] == 0 && d == Times(b)
    ensures After(vs, k + 1, d, n)
  {
    TimesVal(b, n, Val(b, n));
    assert vs[..k + 1] == vs[..k] + [0];
    RunNext(1, vs[..k], 0);
  }

  // --------------------------------------------------------------- the string


  lemma {:induction false} Prefix(vs: seq<nat>, k: nat, n: nat)
    requires n == 30 && After(vs, k, 0x1, n) && k + 7 <= |vs| && vs[k..k + 7] == [3, 3, 3, 3, 3, 3, 0]
    ensures After(vs, k + 7, 0x4dcbcd9, n)
  {
    assert vs[k] == 3 && vs[k + 1] == 3 && vs[k + 2] == 3;
    assert vs[k + 3] == 3 && vs[k + 4] == 3 && vs[k + 5] == 3 && vs[k + 6] == 0;
    Fed(vs, k, 0x1, 0x20, 3, 0x23, n);
    Fed(vs, k + 1, 0x23, 0x460, 3, 0x463, n);
    Fed(vs, k + 2, 0x463, 0x8c60, 3, 0x8c63, n);
    Fed(vs, k + 3, 0x8c63, 0x118c60, 3, 0x118c63, n);
    Fed(vs, k + 4, 0x118c63, 0x2318c60, 3, 0x2318c63, n);
    Fed(vs, k + 5, 0x2318c63, 0x3d5bdbd2, 3, 0x3d5bdbd1, n);
    FedZero(vs, k + 6, 0x3d5bdbd1, 0x4dcbcd9, n);
  }

  lemma {:induction false} PrefixLows(vs: seq<nat>, k: nat, n: nat)
    requires n == 30 && After(vs, k, 0x4dcbcd9, n) && k + 6 <= |vs| && vs[k..k + 6] == [1, 2, 3, 4, 5, 6]
    ensures After(vs, k + 6, 0x3be80e6a, n)
  {
    assert vs[k] == 1 && vs[k + 1] == 2 && vs[k + 2] == 3;
    assert vs[k + 3] == 4 && vs[k + 4] == 5 && vs[k + 5] == 6;
    Fed(vs, k, 0x4dcbcd9, 0x3dc7154d, 1, 0x3dc7154c, n);
    Fed(vs, k + 1, 0x3dc7154c, 0x17456f79, 2, 0x17456f7b, n);
    Fed(vs, k + 2, 0x17456f7b, 0x8d50562, 3, 0x8d50561, n);
    Fed(vs, k + 3, 0x8d50561, 0x401b5da, 4, 0x401b5de, n);
    Fed(vs, k + 4, 0x401b5de, 0x266635ad, 5, 0x266635a8, n);
    Fed(vs, k + 5, 0x266635a8, 0x3be80e6c, 6, 0x3be80e6a, n);
  }

  lemma {:induction false} Values0(vs: seq<nat>, k: nat, n: nat)
    requires n == 30 && After(vs, k, 0x3be80e6a, n) && k + 8 <= |vs| && vs[k..k + 8] == [0, 1, 2, 3, 4, 5, 6, 7]
    ensures After(vs, k + 8, 0x11e88668, n)
  {
    assert vs[k] == 0 && vs[k + 1] == 1 && vs[k + 2] == 2 && vs[k + 3] == 3;
    assert vs[k + 4] == 4 && vs[k + 5] == 5 && vs[k + 6] == 6 && vs[k + 7] == 7;
    FedZero(vs, k, 0x3be80e6a, 0xf9cd266, n);
    Fed(vs, k + 1, 0xf9cd266, 0x30018ce5, 1, 0x30018ce4, n);
    Fed(vs, k + 2, 0x30018ce4, 0x1767cdee, 2, 0x1767cdec, n);
    Fed(vs, k + 3, 0x1767cdec, 0xc815782, 3, 0xc815781, n);
    Fed(vs, k + 4, 0xc815781, 0x28db67b7, 4, 0x28db67b3, n);
    Fed(vs, k + 5, 0x28db67b3, 0x2fd98d29, 5, 0x2fd98d2c, n);
    Fed(vs, k + 6, 0x2fd98d2c, 0x12be0716, 6, 0x12be0710, n);
    Fed(vs, k + 7, 0x12be0710, 0x11e8866f, 7, 0x11e88668, n);
  }

  lemma {:induction false} Values8(vs: seq<nat>, k: nat, n: nat)
    requires n == 30 && After(vs, k, 0x11e88668, n) && k + 8 <= |vs| && vs[k..k + 8] == [8, 9, 10, 11, 12, 13, 14, 15]
    ensures After(vs, k + 8, 0x31223f8a, n)
  {
    assert vs[k] == 8 && vs[k + 1] == 9 && vs[k + 2] == 10 && vs[k + 3] == 11;
    assert vs[k + 4] == 12 && vs[k + 5] == 13 && vs[k + 6] == 14 && vs[k + 7] == 15;
    Fed(vs, k, 0x11e88668, 0x52fedd, 8, 0x52fed5, n);
    Fed(vs, k + 1, 0x52fed5, 0xa5fdaa0, 9, 0xa5fdaa9, n);
    Fed(vs, k + 2, 0xa5fdaa9, 0x2e301b68, 10, 0x2e301b62, n);
    Fed(vs, k + 3, 0x2e301b62, 0x2f8cced6, 11, 0x2f8ccedd, n);
    Fed(vs, k + 4, 0x2f8ccedd, 0x18167936, 12, 0x1816793a, n);
    Fed(vs, k + 5, 0x1816793a, 0x212c0d67, 13, 0x212c0d6a, n);
    Fed(vs, k + 6, 0x212c0d6a, 0xf95cff3, 14, 0xf95cffd, n);
    Fed(vs, k + 7, 0xf95cffd, 0x31223f85, 15, 0x31223f8a, n);
  }

  lemma {:induction false} Values16(vs: seq<nat>, k: nat, n: nat)
    requires n == 30 && After(vs, k, 0x31223f8a, n) && k + 8 <= |vs| && vs[k..k + 8] == [16, 17, 18, 19, 20, 21, 22, 23]
    ensures After(vs, k + 8, 0x297c48e0, n)
  {
    assert vs[k] == 16 && vs[k + 1] == 17 && vs[k + 2] == 18 && vs[k + 3] == 19;
    assert vs[k + 4] == 20 && vs[k + 5] == 21 && vs[k + 6] == 22 && vs[k + 7] == 23;
    Fed(vs, k, 0x31223f8a, 0x3311a02e, 16, 0x3311a03e, n);
    Fed(vs, k + 1, 0x3311a03e, 0xe08011c, 17, 0xe08010d, n);
    Fed(vs, k + 2, 0xe08010d, 0x29be185, 18, 0x29be197, n);
    Fed(vs, k + 3, 0x29be197, 0x28166552, 19, 0x28166541, n);
    Fed(vs, k + 4, 0x28166541, 0x3679d369, 20, 0x3679d37d, n);
    Fed(vs, k + 5, 0x3679d37d, 0x556e711, 21, 0x556e704, n);
    Fed(vs, k + 6, 0x556e704, 0xc8c6eed, 22, 0xc8c6efb, n);
    Fed(vs, k + 7, 0xc8c6efb, 0x297c48f7, 23, 0x297c48e0, n);
  }

  lemma {:induction false} Values24(vs: seq<nat>, k: nat, n: nat)
    requires n == 30 && After(vs, k, 0x297c48e0, n) && k + 8 <= |vs| && vs[k..k + 8] == [24, 25, 26, 27, 28, 29, 30, 31]
    ensures After(vs, k + 8, 0x1a0d3656, n)
  {
    assert vs[k] == 24 && vs[k + 1] == 25 && vs[k + 2] == 26 && vs[k + 3] == 27;
    assert vs[k + 4] == 28 && vs[k + 5] == 29 && vs[k + 6] == 30 && vs[k + 7] == 31;
    Fed(vs, k, 0x297c48e0, 0x1b3c6749, 24, 0x1b3c6751, n);
    Fed(vs, k + 1, 0x1b3c6751, 0x3f0597b5, 25, 0x3f0597ac, n);
    Fed(vs, k + 2, 0x3f0597ac, 0x347f64cb, 26, 0x347f64d1, n);
    Fed(vs, k + 3, 0x347f64d1, 0x3eea4523, 27, 0x3eea4538, n);
    Fed(vs, k + 4, 0x3eea4538, 0x985364b, 28, 0x9853657, n);
    Fed(vs, k + 5, 0x9853657, 0x2e07d31a, 29, 0x2e07d307, n);
    Fed(vs, k + 6, 0x2e07d307, 0x2975c276, 30, 0x2975c268, n);
    Fed(vs, k + 7, 0x2975c268, 0x1a0d3649, 31, 0x1a0d3656, n);
  }

  lemma {:induction false} Tail(vs: seq<nat>, k: nat, n: nat)
    requires n == 30 && After(vs, k, 0x1a0d3656, n) && k + 6 <= |vs| && vs[k..k + 6] == [27, 0, 0, 0, 6, 14]
    ensures After(vs, k + 6, 0x1, n)
  {
    assert vs[k] == 27 && vs[k + 1] == 0 && vs[k + 2] == 0;
    assert vs[k + 3] == 0 && vs[k + 4] == 6 && vs[k + 5] == 14;
    Fed(vs, k, 0x1a0d3656, 0x192fb755, 27, 0x192fb74e, n);
    FedZero(vs, k + 1, 0x192fb74e, 0x615c3e7, n);
    FedZero(vs, k + 2, 0x615c3e7, 0x1f82a53f, n);
    FedZero(vs, k + 3, 0x1f82a53f, 0xe8d5418, n);
    Fed(vs, k + 4, 0xe8d5418, 0x12314325, 6, 0x12314323, n);
    Fed(vs, k + 5, 0x12314323, 0xf, 14, 0x1, n);
  }

  /** The values of the six prefix characters, a zero, and those of the other characters. */
  lemma {:induction false} PublishedVerifies(vs: seq<nat>, n: nat)
    requires n == 30 && |vs| == 51
    requires vs[0..7] == [3, 3, 3, 3, 3, 3, 0] && vs[7..13] == [1, 2, 3, 4, 5, 6]
    requires vs[13..21] == [0, 1, 2, 3, 4, 5, 6, 7] && vs[21..29] == [8, 9, 10, 11, 12, 13, 14, 15]
    requires vs[29..37] == [16, 17, 18, 19, 20, 21, 22, 23] && vs[37..45] == [24, 25, 26, 27, 28, 29, 30, 31]
    requires vs[45..51] == [27, 0, 0, 0, 6, 14]
    ensures Run(1, vs) == 1
  {
    OneVal(n);
    assert After(vs, 0, 1, n);
    Prefix(vs, 0, n);
    PrefixLows(vs, 7, n);
    Values0(vs, 13, n);
    Values8(vs, 21, n);
    Values16(vs, 29, n);
    Values24(vs, 37, n);
    Tail(vs, 45, n);
    assert vs[..51] == vs;
  }

  lemma Slices(p: seq<nat>, q: seq<nat>, a: seq<nat>, b: seq<nat>, c: seq<nat>, d: seq<nat>, t: seq<nat>, vs: seq<nat>)
    requires |p| == 7 && |q| == 6 && |a| == |b| == |c| == |d| == 8 && |t| == 6 && vs == p + q + (a + b + c + d + t)
    ensures |vs| == 51 && vs[0..7] == p && vs[7..13] == q && vs[13..21] == a && vs[21..29] == b && vs[29..37] == c
    ensures vs[37..45] == d && vs[45..51] == t
  {
  }

  /** Lower-case characters and what they stand for. */
  predicate ReadsLow(s: string, x: seq<nat>) { Reads(s, x) && !HasUpper(s) && Symbols(x) }

  lemma ReadsBoth(s: string, x: seq<nat>, r: string, y: seq<nat>)
    requires ReadsLow(s, x) && ReadsLow(r, y)
    ensures ReadsLow(s + r, x + y)
  {
  }

  lemma ReadsSeven(s: string, x: seq<nat>)
    requires s == "qpzry9x8" && x == [0, 1, 2, 3, 4, 5, 6, 7]
    ensures ReadsLow(s, x)
  {
  }

  lemma ReadsFifteen(s: string, x: seq<nat>)
    requires s == "gf2tvdw0" && x == [8, 9, 10, 11, 12, 13, 14, 15]
    ensures ReadsLow(s, x)
  {
  }

  lemma ReadsTwentyThree(s: string, x: seq<nat>)
    requires s == "s3jn54kh" && x == [16, 17, 18, 19, 20, 21, 22, 23]
    ensures ReadsLow(s, x)
  {
  }

  lemma ReadsThirtyOne(s: string, x: seq<nat>)
    requires s == "ce6mua7l" && x == [24, 25, 26, 27, 28, 29, 30, 31]
    ensures ReadsLow(s, x)
  {
  }

  lemma ReadsTail(s: string, x: seq<nat>)
    requires s == "mqqqxw" && x == [27, 0, 0, 0, 6, 14]
    ensures ReadsLow(s, x)
  {
  }

  ghost predicate Pieces(a: seq<nat>, b: seq<nat>, c: seq<nat>, d: seq<nat>, t: seq<nat>) {
    && a == [0, 1, 2, 3, 4, 5, 6, 7] && b == [8, 9, 10, 11, 12, 13, 14, 15]
    && c == [16, 17, 18, 19, 20, 21, 22, 23] && d == [24, 25, 26, 27, 28, 29, 30, 31]
    && t == [27, 0, 0, 0, 6, 14]
  }

  /** All characters of the set in order, then the six of the checksum. */
  lemma {:induction false} DataReads(a: seq<nat>, b: seq<nat>, c: seq<nat>, d: seq<nat>, t: seq<nat>,
      a1: string, b1: string, c1: string, d1: string, t1: string)
    requires Pieces(a, b, c, d, t)
    requires a1 == "qpzry9x8" && b1 == "gf2tvdw0" && c1 == "s3jn54kh" && d1 == "ce6mua7l" && t1 == "mqqqxw"
    ensures ReadsLow(a1 + b1 + c1 + d1 + t1, a + b + c + d + t)
  {
    ReadsSeven(a1, a);
    ReadsFifteen(b1, b);
    ReadsTwentyThree(c1, c);
    ReadsThirtyOne(d1, d);
    ReadsTail(t1, t);
    ReadsBoth(a1, a, b1, b);
    ReadsBoth(a1 + b1, a + b, c1, c);
    ReadsBoth(a1 + b1 + c1, a + b + c, d1, d);
    ReadsBoth(a1 + b1 + c1 + d1, a + b + c + d, t1, t);
  }

  lemma ExpandPublished(h: string)
    requires h == "abcdef"
    ensures Expand(h) == [3, 3, 3, 3, 3, 3, 0] + [1, 2, 3, 4, 5, 6] && Lowered(h) == h && Printable(h) && !HasUpper(h)
  {
  }

  lemma {:induction false} CodeVerifies(h: string, a: seq<nat>, b: seq<nat>, c: seq<nat>, d: seq<nat>, t: seq<nat>)
    requires h == "abcdef" && Pieces(a, b, c, d, t)
    ensures Verifies(h, a + b + c + d + t)
  {
    var p: seq<nat>, q: seq<nat> := [3, 3, 3, 3, 3, 3, 0], [1, 2, 3, 4, 5, 6];
    var full := a + b + c + d + t;
    ExpandPublished(h);
    Slices(p, q, a, b, c, d, t, Expand(h) + full);
    PublishedVerifies(Expand(h) + full, 30);
  }

  lemma {:induction false} CodeAccepted(h: string, data: string, s: string, full: seq<nat>)
    requires |h| == 6 && Lowered(h) == h && Printable(h) && !HasUpper(h)
    requires s == h + "1" + data && |data| == 38 && ReadsLow(data, full) && Verifies(h, full)
    ensures Accepts(s, h, full[..32])
  {
    ReadsChars(data, full);
    assert s[..6] == h && s[7..] == data && s[6] == '1';
    forall i | 0 <= i < |s| ensures PrintableChar(s[i]) && !IsUpper(s[i]) && (i > 6 ==> s[i] != '1') {
      if i < 6 {
        assert s[i] == h[i];
      } else if i > 6 {
        assert s[i] == data[i - 7];
      }
    }
    Sufficient(s, 6, full);
  }

  lemma Joined(s: string)
    requires s == "abcdef1qpzry9x8gf2tvdw0s3jn54khce6mua7lmqqqxw"
    ensures s == "abcdef" + "1" + ("qpzry9x8" + "gf2tvdw0" + "s3jn54kh" + "ce6mua7l" + "mqqqxw")
  {
  }

  /** The values 0 to 31, written with all the characters in order. */
  lemma {:induction false} Published(s: string, values: seq<nat>)
    requires s == "abcdef1qpzry9x8gf2tvdw0s3jn54khce6mua7lmqqqxw"
    requires |values| == 32 && forall i | 0 <= i < 32 :: values[i] == i
    ensures Accepts(s, "abcdef", values)
  {
    var check: seq<nat> := [27, 0, 0, 0, 6, 14];
    var a, b, c, d, t := "qpzry9x8", "gf2tvdw0", "s3jn54kh", "ce6mua7l", "mqqqxw";
    var full := values[..8] + values[8..16] + values[16..24] + values[24..] + check;
    assert Pieces(values[..8], values[8..16], values[16..24], values[24..], check);
    assert full[..32] == values;
    DataReads(values[..8], values[8..16], values[16..24], values[24..], check, a, b, c, d, t);
    CodeVerifies("abcdef", values[..8], values[8..16], values[16..24], values[24..], check);
    ExpandPublished("abcdef");
    Joined(s);
    CodeAccepted("abcdef", a + b + c + d + t, s, full);
  }
}
