/** The compact 32-bit floating form of difficulty targets, and the work a target
    stands for. */
module Compact {
  import opened Powers
  import opened Limbs
  import opened LimbBits
  import opened Arith

  const WIDTH := 8
  const SIGN := 0x80_0000
  const EXPONENT := 0x100_0000

  type Word = x: int | 0 <= x < 0x1_0000_0000

  // -------------------------------------------------------------- the fields

  function Size(n: Word): nat { n / EXPONENT }

  function Mantissa(n: Word): nat { n % SIGN }

  predicate SignBit(n: Word) { (n / SIGN) % 2 == 1 }

  /** The mantissa as used: small exponents cut its low bytes off. */
  function Digits(n: Word): nat {
    if Size(n) <= 3 then Shifted(Mantissa(n), 8 * (3 - Size(n))) else Mantissa(n)
  }

  function Shifted(v: nat, s: nat): (r: nat)
    ensures r <= v
  {
    SmallerQuotient(v, Pow2(s));
    v / Pow2(s)
  }

  lemma SmallerQuotient(v: nat, d: int)
    requires d >= 1
    ensures 0 <= v / d <= v
  {
    var q := v / d;
    assert v == q * d + v % d;
    if q < 0 {
      MulMono(q, -1, d);
    } else {
      MulMono(1, d, q);
    }
  }

  predicate Negative(n: Word) { Digits(n) != 0 && SignBit(n) }

  predicate Overflow(n: Word) {
    Digits(n) != 0 && (Size(n) > 34 || (Digits(n) > 0xff && Size(n) > 33) || (Digits(n) > 0xffff && Size(n) > 32))
  }

  /** The number a compact form denotes, before it is cut to 256 bits. */
  function Denoted(n: Word): nat {
    if Size(n) <= 3 then Digits(n) else Digits(n) * Pow2(8 * (Size(n) - 3))
  }

  lemma FloorOf(m: nat, d: nat, q: nat)
    requires d > 0 && q == m / d
    ensures q * d <= m < (q + 1) * d
  {
  }

  lemma ScaledFloor(q: nat, d: nat, m: nat, u: nat, t: nat)
    requires q * d <= m < (q + 1) * d && u > 0 && t == d * u
    ensures q * t <= m * u < (q + 1) * t
  {
    MulMono(q * d, m, u);
    MulMono(m + 1, (q + 1) * d, u);
    assert q * d * u == q * t;
    assert (q + 1) * d * u == (q + 1) * t;
    MulDist(m, 1, u);
  }

  lemma {:induction false} BytesCut(m: nat, e: nat, q: nat)
    requires e <= 3 && q == m / Pow2(8 * (3 - e))
    ensures q * Pow2(24) <= m * Pow2(8 * e) < (q + 1) * Pow2(24)
  {
    Pow2Add(8 * (3 - e), 8 * e);
    FloorOf(m, Pow2(8 * (3 - e)), q);
    ScaledFloor(q, Pow2(8 * (3 - e)), m, Pow2(8 * e), Pow2(24));
  }

  lemma {:induction false} ScaledUp(m: nat, e: nat)
    requires e > 3
    ensures m * Pow2(8 * (e - 3)) * Pow2(24) == m * Pow2(8 * e)
  {
    Pow2Add(8 * (e - 3), 24);
  }

  /** The number is the mantissa times 256 to the size less three, rounded down; the sign
      counts unless the number is zero. */
  lemma {:induction false} DenotedIs(n: Word, m: nat, e: nat)
    requires m == n % 0x80_0000 && e == n / 0x100_0000
    ensures Denoted(n) * Pow2(24) <= m * Pow2(8 * e) < (Denoted(n) + 1) * Pow2(24)
    ensures Negative(n) <==> Denoted(n) != 0 && (n / 0x80_0000) % 2 == 1
  {
    if e <= 3 {
      BytesCut(m, e, Denoted(n));
    } else {
      ScaledUp(m, e);
      MulDist(Denoted(n), -1, Pow2(24));
      if m > 0 {
        MulMono(1, m, Pow2(8 * (e - 3)));
      }
    }
  }

  // ------------------------------------------------------------ the overflow flag

  lemma ScaleAtLeast(m: nat, a: nat, b: nat)
    requires a <= b
    ensures m * Pow2(a) >= Pow2(b) <==> m >= Pow2(b - a)
  {
    Pow2Add(b - a, a);
    if m >= Pow2(b - a) {
      MulMono(Pow2(b - a), m, Pow2(a));
    } else {
      MulMono(m, Pow2(b - a) - 1, Pow2(a));
      MulDist(Pow2(b - a), 1, Pow2(a));
    }
  }

  /** The number of bits of a 256-bit number followed by three bytes. */
  const TOP: nat := 280

  /** The flag's test, on the fields. */
  lemma {:induction false} FlagIff(m: nat, e: nat, top: nat)
    requires m < SIGN && top == TOP
    ensures (m != 0 && (e > 34 || (m > 0xff && e > 33) || (m > 0xffff && e > 32))) <==> m * Pow2(8 * e) >= Pow2(top)
  {
    if e <= 35 {
      ScaleAtLeast(m, 8 * e, top);
      FlagLimit(m, e, top - 8 * e);
    } else if m > 0 {
      Pow2Mono(top, 8 * e);
      MulMono(1, m, Pow2(8 * e));
    }
  }

  lemma {:induction false} FlagLimit(m: nat, e: nat, rest: nat)
    requires m < SIGN && e <= 35 && rest == TOP - 8 * e
    ensures (m != 0 && (e > 34 || (m > 0xff && e > 33) || (m > 0xffff && e > 32))) <==> m >= Pow2(rest)
  {
    Pow2Small();
    if e <= 32 {
      Pow2Mono(24, rest);
    }
  }

  lemma Pow2Small()
    ensures Pow2(0) == 1 && Pow2(8) == 0x100 && Pow2(16) == 0x1_0000 && Pow2(24) == 0x100_0000
  {
    Pow2Values();
    Pow2Add(8, 16);
  }

  /** The flag is set exactly when mantissa * 256^exponent is 2^256 * 256^3 or more. */
  lemma {:induction false} OverflowIff(n: Word, top: nat)
    requires top == TOP
    ensures Overflow(n) <==> Mantissa(n) * Pow2(8 * Size(n)) >= Pow2(top)
  {
    FlagIff(Mantissa(n), Size(n), top);
    if Size(n) <= 3 {
      FlagIff(Digits(n), Size(n), top);
    }
  }

  /** Without the flag nothing is cut off. */
  lemma FitsWithoutOverflow(n: Word, w: nat)
    requires w == WIDTH
    ensures Overflow(n) <==> Denoted(n) >= P(w)
  {
    PIsPow2(w);
    if Size(n) <= 3 {
      Pow2Values();
      Pow2Mono(32, 32 * w);
    } else {
      FlagFits(Mantissa(n), Size(n), w);
    }
  }

  lemma FlagFits(m: nat, e: nat, w: nat)
    requires m < SIGN && e > 3 && w == WIDTH
    ensures (m != 0 && (e > 34 || (m > 0xff && e > 33) || (m > 0xffff && e > 32)))
            <==> m * Pow2(8 * (e - 3)) >= Pow2(32 * w)
  {
    var top, bytes := TOP, 24;
    FlagIff(m, e, top);
    MovedBack(m, 8 * (e - 3), bytes, 32 * w);
    assert 8 * (e - 3) + bytes == 8 * e && 32 * w + bytes == top;
  }

  lemma MovedBack(m: nat, a: nat, bytes: nat, b: nat)
    ensures m * Pow2(a + bytes) >= Pow2(b + bytes) <==> m * Pow2(a) >= Pow2(b)
  {
    Pow2Add(a, bytes);
    MulAssoc(m, Pow2(a), Pow2(bytes));
    ScaleAtLeast(m * Pow2(a), bytes, b + bytes);
  }

  // ------------------------------------------------------------------ encoding

  /** Mantissa and exponent of the compact form. */
  datatype Form = Form(digits: nat, size: nat)

  /** The first three significant bytes of v, which has b bits. */
  function Leading(v: nat, b: nat): nat {
    var size := (b + 7) / 8;
    if size <= 3 then v * Pow2(8 * (3 - size)) else Shifted(v, 8 * (size - 3))
  }

  /** A leading byte of 0x80 or more would be read as a sign: move on by one byte. */
  function FormOf(v: nat, b: nat): Form {
    var c, size := Leading(v, b), (b + 7) / 8;
    if c >= SIGN then Form(c / 256, size + 1) else Form(c, size)
  }

  function Packed(f: Form, negative: bool): int {
    f.digits + f.size * EXPONENT + if negative && f.digits != 0 then SIGN else 0
  }

  lemma DivUnder(v: nat, d: nat, m: nat)
    requires d >= 1 && v < m * d
    ensures v / d < m
  {
    var q := v / d;
    assert v == q * d + v % d;
    if q >= m {
      MulMono(m, q, d);
    }
  }

  lemma {:induction false} ScaleUnder(v: nat, a: nat, b: nat, c: nat)
    requires v < Pow2(a) && c == a + b
    ensures v * Pow2(b) < Pow2(c)
  {
    Pow2Add(a, b);
    MulMono(v, Pow2(a) - 1, Pow2(b));
    MulDist(Pow2(a), 1, Pow2(b));
  }

  /** The leading bytes are three bytes, and the exponent one byte. */
  lemma {:induction false} LeadingBound(v: nat, b: nat, bytes: nat)
    requires BitLength(v, b) && bytes == 24
    ensures Leading(v, b) < Pow2(bytes)
  {
    var size := (b + 7) / 8;
    BitLengthUnder(v, b, 8 * size);
    LeadingUnder(v, size, bytes);
  }

  lemma {:induction false} LeadingUnder(v: nat, size: nat, bytes: nat)
    requires v < Pow2(8 * size) && bytes == 24
    ensures (if size <= 3 then v * Pow2(8 * (3 - size)) else Shifted(v, 8 * (size - 3))) < Pow2(bytes)
  {
    if size <= 3 {
      ScaleUnder(v, 8 * size, 8 * (3 - size), bytes);
    } else {
      ShiftedUnder(v, 8 * (size - 3), bytes, 8 * size);
    }
  }

  lemma {:induction false} ShiftedUnder(v: nat, s: nat, bytes: nat, all: nat)
    requires v < Pow2(all) && all == bytes + s
    ensures Shifted(v, s) < Pow2(bytes)
  {
    Pow2Add(bytes, s);
    DivUnder(v, Pow2(s), Pow2(bytes));
  }

  lemma {:induction false} BitLengthUnder(v: nat, b: nat, c: nat)
    requires BitLength(v, b) && b <= c
    ensures v < Pow2(c)
  {
    Pow2Mono(b, c);
  }

  lemma FormBound(v: nat, b: nat)
    requires BitLength(v, b) && b <= 256
    ensures var f := FormOf(v, b); f.digits < SIGN && f.size <= 33
  {
    var bytes := 24;
    LeadingBound(v, b, bytes);
    Pow2Small();
  }

  /** The fields of a packed form can be read back. */
  lemma PackedFields(f: Form, negative: bool)
    requires f.digits < SIGN && f.size < 256
    ensures 0 <= Packed(f, negative) < 0x1_0000_0000
    ensures Size(Packed(f, negative)) == f.size && Mantissa(Packed(f, negative)) == f.digits
    ensures SignBit(Packed(f, negative)) <==> negative && f.digits != 0
  {
    var sign := if negative && f.digits != 0 then 1 else 0;
    var n := Packed(f, negative);
    assert n == f.digits + SIGN * (2 * f.size + sign);
    assert n / SIGN == 2 * f.size + sign;
  }

  /** The number a form denotes, given that it has no bytes to cut off. */
  function FormValue(f: Form): nat {
    if f.size <= 3 then Shifted(f.digits, 8 * (3 - f.size)) else f.digits * Pow2(8 * (f.size - 3))
  }

  /** One unit in the last place of a form. */
  function Unit(f: Form): nat { if f.size <= 3 then 1 else Pow2(8 * (f.size - 3)) }

  lemma DivDiv(x: nat, a: nat, b: nat)
    requires a >= 1 && b >= 1
    ensures a * b >= 1 && (x / a) / b == x / (a * b)
  {
    var q := x / a;
    var r := q / b;
    MulMono(1, a, b);
    assert x == q * a + x % a && q == r * b + q % b;
    MulDist(r * b, q % b, a);
    MulAssoc(r, b, a);
    assert a * b == b * a;
    MulMono(0, q % b, a);
    MulMono(q % b, b - 1, a);
    MulDist(b, 1, a);
    ModIs(x - r * (a * b), r, a * b, x);
  }

  /** A form keeps all of a short number, and the leading bytes of a long one. */
  lemma FormKeeps(x: nat, b: nat)
    ensures var f := FormOf(x, b);
            if f.size <= 3 then f.digits == x * Pow2(8 * (3 - f.size)) else f.digits == Shifted(x, 8 * (f.size - 3))
  {
    var size := (b + 7) / 8;
    if Leading(x, b) >= SIGN {
      var byte := 8;
      Pow2Small();
      if size < 3 {
        LessOne(x, 8 * (2 - size), byte);
      } else if size == 3 {
        assert x * Pow2(0) == x;
      } else {
        MoreOne(x, 8 * (size - 3), byte);
      }
    }
  }

  lemma LessOne(x: nat, s: nat, byte: nat)
    ensures x * Pow2(s + byte) / Pow2(byte) == x * Pow2(s)
  {
    Pow2Add(s, byte);
    MulAssoc(x, Pow2(s), Pow2(byte));
    ModIs(0, x * Pow2(s), Pow2(byte), x * Pow2(s + byte));
  }

  lemma {:induction false} MoreOne(x: nat, s: nat, byte: nat)
    ensures Shifted(x, s) / Pow2(byte) == Shifted(x, s + byte)
  {
    Pow2Add(s, byte);
    DivDiv(x, Pow2(s), Pow2(byte));
  }

  /** The denoted number is the encoded one, cut off below the last place kept. */
  lemma FormNear(x: nat, b: nat, f: Form)
    requires f == FormOf(x, b)
    ensures FormValue(f) <= x < FormValue(f) + Unit(f)
    ensures f.size <= 3 ==> FormValue(f) == x
    ensures f.size > 3 ==> FormValue(f) == Shifted(x, 8 * (f.size - 3)) * Pow2(8 * (f.size - 3))
  {
    FormKeeps(x, b);
    if f.size <= 3 {
      ModIs(0, x, Pow2(8 * (3 - f.size)), f.digits);
    } else {
      CutOff(x, Pow2(8 * (f.size - 3)));
    }
  }

  lemma CutOff(x: nat, d: nat)
    requires d >= 1
    ensures x / d * d <= x < x / d * d + d
  {
    assert x == x / d * d + x % d;
  }

  /** Cutting below the leading bit keeps the length. */
  lemma {:induction false} CutLength(x: nat, b: nat, s: nat, y: int)
    requires BitLength(x, b) && s < b && y == Shifted(x, s) * Pow2(s)
    ensures BitLength(y, b)
  {
    var d := Pow2(s);
    CutOff(x, d);
    Pow2Add(b - 1 - s, s);
    if x / d < Pow2(b - 1 - s) {
      MulMono(x / d + 1, Pow2(b - 1 - s), d);
      MulDist(x / d, 1, d);
    } else {
      MulMono(Pow2(b - 1 - s), x / d, d);
    }
  }

  /** Cutting below a place leaves that place and those above. */
  lemma CutKeeps(x: nat, s: nat, t: nat, y: nat)
    requires y == Shifted(x, s + t) * Pow2(s + t)
    ensures Shifted(y, s) == Shifted(x, s + t) * Pow2(t)
  {
    Pow2Add(t, s);
    MulAssoc(Shifted(x, s + t), Pow2(t), Pow2(s));
    ModIs(0, Shifted(x, s + t) * Pow2(t), Pow2(s), y);
  }

  /** Encoding the denoted number gives the same form again. */
  lemma FormStable(x: nat, b: nat, f: Form, y: nat)
    requires BitLength(x, b) && f == FormOf(x, b) && y == FormValue(f)
    ensures BitLength(y, b) && FormOf(y, b) == f
  {
    FormNear(x, b, f);
    if f.size > 3 {
      FormKeeps(x, b);
      CutLength(x, b, 8 * (f.size - 3), y);
      var size := (b + 7) / 8;
      LeadingAgain(y, b, size);
      if f.size == size {
        CutKeeps(x, 8 * (size - 3), 0, y);
        assert Shifted(x, 8 * (size - 3)) * Pow2(0) == Shifted(x, 8 * (size - 3));
      } else {
        CarriedForm(x, 8 * (size - 3), f.digits, y);
      }
    }
  }

  /** The leading bytes of a number cut below its second byte. */
  lemma {:induction false} CarriedForm(x: nat, s: nat, digits: nat, y: nat)
    requires y == Shifted(x, s + 8) * Pow2(s + 8) && digits == Shifted(x, s + 8)
    ensures Shifted(y, s) == digits * 256
  {
    var byte := 8;
    CutKeeps(x, s, byte, y);
    Pow2Small();
  }

  lemma LeadingAgain(y: nat, b: nat, size: nat)
    requires size == (b + 7) / 8 && size >= 3
    ensures Leading(y, b) == Shifted(y, 8 * (size - 3))
  {
    if size == 3 {
      assert y * Pow2(0) == y && Shifted(y, 0) == y;
    }
  }

  /** Encoding and decoding any 256-bit number raises no flag, loses less than one
      unit in the last place kept, and encodes to the same word again. */
  lemma CompactRoundTrip(x: nat, b: nat, w: nat, n: Word)
    requires w == WIDTH && x < P(w) && BitLength(x, b) && b <= 256 && n == Packed(FormOf(x, b), false)
    ensures !Negative(n) && !Overflow(n)
    ensures Denoted(n) <= x < Denoted(n) + Unit(FormOf(x, b))
    ensures BitLength(Denoted(n), b) && Packed(FormOf(Denoted(n), b), false) == n
  {
    var f := FormOf(x, b);
    FormBound(x, b);
    PackedFields(f, false);
    assert Denoted(n) == FormValue(f);
    FormNear(x, b, f);
    FormStable(x, b, f, Denoted(n));
    FitsWithoutOverflow(n, w);
  }

  // ------------------------------------------------------------------ the work

  /** The work of a target is the number of 256-bit values over those up to it. */
  lemma ProofIs(t: int, m: int)
    requires 0 < t && t + 1 < m
    ensures (m - 1 - t) / (t + 1) + 1 == m / (t + 1) < m
  {
    var d := t + 1;
    var q := (m - 1 - t) / d;
    assert m - d == q * d + (m - d) % d;
    MulDist(q, 1, d);
    ModIs((m - d) % d, q + 1, d, m);
    if q + 1 >= m {
      MulMono(m, q + 1, d);
      MulMono(2, d, m);
    }
  }

  /** A target from a compact form is never the largest 256-bit number. */
  lemma TargetBelowTop(n: Word, w: nat)
    requires w == WIDTH && !Overflow(n)
    ensures Denoted(n) + 1 < P(w)
  {
    FitsWithoutOverflow(n, w);
    PIsPow2(w);
    Pow2Mono(33, 32 * w);
    Pow2Values();
    if Size(n) > 3 {
      EvenScale(Digits(n), 8 * (Size(n) - 3));
    }
  }

  lemma {:induction false} EvenScale(m: nat, s: nat)
    requires s > 0
    ensures (m * Pow2(s)) % 2 == 0
  {
    assert m * Pow2(s) == 2 * (m * Pow2(s - 1));
  }

  // --------------------------------------------------------------- the methods

  /** The low 64 bits. */
  lemma {:induction false} LowLimbs(s: seq<Limb>)
    requires |s| >= 2
    ensures s[0] + BASE * s[1] == Value(s) % (BASE * BASE)
  {
    ValueSplit(s, 2);
    var v := Value(s[2..]);
    assert Up(v, 2) == BASE * Up(v, 1) && Up(v, 1) == BASE * Up(v, 0);
    ValueNext(s, 1);
    ValueNext(s, 0);
    assert Up(s[1], 1) == BASE * Up(s[1], 0);
    ModIs(s[0] + BASE * s[1], v, BASE * BASE, Value(s));
  }

  method GetLow64(a: BaseUint) returns (r: nat)
    requires a.pn.Length >= 2
    ensures r == a.Num() % (BASE * BASE)
  {
    LowLimbs(a.pn[..]);
    var high: int := a.pn[1];
    r := a.pn[0] + BASE * high;
  }

  /** Decodes a compact form: what it denotes modulo 2^256, its sign and whether
      anything was cut off. */
  method SetCompact(a: BaseUint, nCompact: Word) returns (negative: bool, overflow: bool)
    requires a.pn.Length == WIDTH
    modifies a.pn
    ensures a.Num() == Denoted(nCompact) % a.Modulus()
    ensures negative == Negative(nCompact) && overflow == Overflow(nCompact)
    ensures !overflow ==> a.Num() == Denoted(nCompact)
  {
    var nSize := nCompact / EXPONENT;
    var nWord := nCompact % SIGN;
    if nSize <= 3 {
      nWord := Shifted(nWord, 8 * (3 - nSize));
      a.AssignWord(nWord);
      SmallStays(nWord, a.pn.Length);
    } else {
      a.AssignWord(nWord);
      a.ShiftLeft(8 * (nSize - 3));
    }
    negative := nWord != 0 && (nCompact / SIGN) % 2 == 1;
    overflow := nWord != 0 && (nSize > 34 || (nWord > 0xff && nSize > 33) || (nWord > 0xffff && nSize > 32));
    FitsWithoutOverflow(nCompact, a.pn.Length);
    if !overflow {
      ModIs(Denoted(nCompact), 0, a.Modulus(), Denoted(nCompact));
    }
  }

  lemma SmallStays(v: nat, w: nat)
    requires v < SIGN && w > 0
    ensures v % P(w) == v
  {
    PIsPow2(w);
    Pow2Values();
    Pow2Mono(32, 32 * w);
    ModIs(v, 0, P(w), v);
  }

  /** Encodes: the compact form of the number's leading bytes, with the given sign. */
  method GetCompact(a: BaseUint, fNegative: bool) returns (nCompact: Word)
    requires a.pn.Length == WIDTH
    ensures a.Num() >= 0
    ensures exists b: nat :: BitLength(a.Num(), b) && b <= 256 && nCompact == Packed(FormOf(a.Num(), b), fNegative)
  {
    ValueBound(a.pn[..]);
    var bits := a.Bits();
    var nSize := (bits + 7) / 8;
    var compact: nat;
    LeadingIsWord(a.Num(), bits);
    if nSize <= 3 {
      var low := GetLow64(a);
      LowIsAll(a.Num(), bits);
      compact := low * Pow2(8 * (3 - nSize));
    } else {
      var bn := new BaseUint.Copy(a);
      bn.ShiftRight(8 * (nSize - 3));
      compact := GetLow64(bn);
    }
    assert compact == Leading(a.Num(), bits);
    FormBound(a.Num(), bits);
    PackedFields(FormOf(a.Num(), bits), fNegative);
    if compact >= SIGN {
      compact, nSize := compact / 256, nSize + 1;
    }
    assert compact < SIGN && nSize < 256;
    nCompact := compact + nSize * EXPONENT + if fNegative && compact != 0 then SIGN else 0;
  }

  lemma LeadingIsWord(v: nat, b: nat)
    requires BitLength(v, b)
    ensures Leading(v, b) % (BASE * BASE) == Leading(v, b)
  {
    var bytes := 24;
    LeadingBound(v, b, bytes);
    Pow2Small();
    ModIs(Leading(v, b), 0, BASE * BASE, Leading(v, b));
  }

  lemma LowIsAll(v: nat, b: nat)
    requires BitLength(v, b) && (b + 7) / 8 <= 3
    ensures v % (BASE * BASE) == v
  {
    BitLengthUnder(v, b, 24);
    Pow2Small();
    ModIs(v, 0, BASE * BASE, v);
  }

  /** Encoding, decoding and encoding again: nothing is flagged, less than one unit of the
      last place kept is lost, and the second word is the first. */
  method CompactAgain(a: BaseUint) returns (first: Word, second: Word, decoded: BaseUint)
    requires a.pn.Length == WIDTH
    ensures second == first && !Negative(first) && !Overflow(first)
    ensures decoded.Num() == Denoted(first) <= a.Num()
    ensures exists b: nat :: BitLength(a.Num(), b) && a.Num() < Denoted(first) + Unit(FormOf(a.Num(), b))
  {
    first := GetCompact(a, false);
    ghost var x := a.Num();
    ghost var b: nat :| BitLength(x, b) && b <= 256 && first == Packed(FormOf(x, b), false);
    ValueBound(a.pn[..]);
    CompactRoundTrip(x, b, a.pn.Length, first);
    decoded := new BaseUint.Zero(WIDTH);
    var negative, overflow := SetCompact(decoded, first);
    second := GetCompact(decoded, false);
    ghost var y := decoded.Num();
    ghost var again: nat :| BitLength(y, again) && second == Packed(FormOf(y, again), false);
    BitLengthUnique(y, b, again);
  }

  /** The work of a block: zero for an invalid target, otherwise 2^256 divided by
      one more than the target, rounded down. */
  method GetBlockProof(nBits: Word) returns (proof: BaseUint)
    ensures proof.pn.Length == WIDTH
    ensures Negative(nBits) || Overflow(nBits) || Denoted(nBits) == 0 ==> proof.Num() == 0
    ensures !Negative(nBits) && !Overflow(nBits) && Denoted(nBits) != 0 ==>
              proof.Num() == proof.Modulus() / (Denoted(nBits) + 1)
  {
    var bnTarget := new BaseUint.Zero(WIDTH);
    var fNegative, fOverflow := SetCompact(bnTarget, nBits);
    var isZero := bnTarget.EqualTo(0);
    if fNegative || fOverflow || isZero {
      proof := new BaseUint.Zero(WIDTH);
      return;
    }
    TargetBelowTop(nBits, bnTarget.pn.Length);
    proof := Work(bnTarget);
  }

  method Work(bnTarget: BaseUint) returns (proof: BaseUint)
    requires bnTarget.pn.Length == WIDTH && 0 < bnTarget.Num() && bnTarget.Num() + 1 < bnTarget.Modulus()
    modifies bnTarget.pn
    ensures proof.pn.Length == WIDTH
    ensures proof.Num() == bnTarget.Modulus() / (old(bnTarget.Num()) + 1)
  {
    ghost var t, m := bnTarget.Num(), bnTarget.Modulus();
    var one := new BaseUint.Zero(WIDTH);
    one.AssignWord(1);
    proof := bnTarget.Complement();
    bnTarget.AddAssign(one);
    ModIs(t + 1, 0, m, t + 1);
    var ok := proof.DivideAssign(bnTarget);
    ProofIs(t, m);
    proof.AddAssign(one);
    ModIs(m / (t + 1), 0, m, m / (t + 1));
  }
}
