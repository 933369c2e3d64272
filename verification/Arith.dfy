/** Unsigned integers of a fixed number of 32-bit limbs, updated in place. Each loop
    is proved against the limb sequence it computes; its meaning as a number
    modulo 2^(32w) follows from the lemma about that sequence. Operands may be the
    object itself. */
module Arith {
  import opened Powers
  import opened Limbs
  import opened LimbOps
  import opened LimbShifts
  import opened LimbBits

  class BaseUint {
    const pn: array<Limb>

    ghost function Num(): int
      reads pn
    {
      Value(pn[..])
    }

    ghost function Modulus(): int { P(pn.Length) }

    constructor Zero(width: nat)
      ensures fresh(pn) && pn.Length == width && pn[..] == seq(width, _ => 0) && Num() == 0
    {
      pn := new Limb[width](_ => 0);
      new;
      assert pn[..] == seq(width, _ => 0);
      ValueZeros(pn[..]);
    }

    constructor Copy(b: BaseUint)
      ensures fresh(pn) && pn.Length == b.pn.Length && pn[..] == b.pn[..]
    {
      var a := new Limb[b.pn.Length](_ => 0);
      var i := 0;
      while i < a.Length
        invariant 0 <= i <= a.Length && a[..i] == b.pn[..i]
      {
        a[i] := b.pn[i];
        i := i + 1;
      }
      assert a[..i] == a[..] && b.pn[..i] == b.pn[..];
      pn := a;
    }

    method Assign(b: BaseUint)
      requires b.pn.Length == pn.Length
      modifies pn
      ensures pn[..] == old(b.pn[..])
    {
      var i := 0;
      while i < pn.Length
        invariant 0 <= i <= pn.Length
        invariant forall j | 0 <= j < i :: pn[j] == old(b.pn[j])
        invariant forall j | i <= j < pn.Length :: b.pn[j] == old(b.pn[j])
      {
        pn[i] := b.pn[i];
        i := i + 1;
      }
    }

    /** Assignment of a 64-bit number to at least two limbs. */
    method AssignWord(b: nat)
      requires b < BASE * BASE && pn.Length >= 2
      modifies pn
      ensures Num() == b
    {
      pn[0] := b % BASE;
      pn[1] := b / BASE;
      var i := 2;
      while i < pn.Length
        invariant 2 <= i <= pn.Length
        invariant pn[0] == b % BASE && pn[1] == b / BASE
        invariant forall j | 2 <= j < i :: pn[j] == 0
      {
        pn[i] := 0;
        i := i + 1;
      }
      TopZero(pn[..], 1);
      OneLimb(pn[..]);
    }

    method Complement() returns (r: BaseUint)
      ensures fresh(r) && fresh(r.pn) && r.pn.Length == pn.Length
      ensures r.Num() == Modulus() - 1 - Num()
    {
      r := new BaseUint.Zero(pn.Length);
      var i := 0;
      while i < pn.Length
        invariant 0 <= i <= pn.Length
        invariant forall j | 0 <= j < i :: r.pn[j] == BASE - 1 - pn[j]
      {
        r.pn[i] := BASE - 1 - pn[i];
        i := i + 1;
      }
      assert r.pn[..] == ComplementLimbs(pn[..]);
      ComplementIs(pn[..]);
    }

    method Increment()
      modifies pn
      ensures Num() == (old(Num()) + 1) % Modulus()
    {
      ghost var x := pn[..];
      var i := 0;
      while i < pn.Length
        invariant 0 <= i <= pn.Length
        invariant Inc(pn[..], i) == Inc(x, 0)
      {
        ghost var y := pn[..];
        pn[i] := (pn[i] + 1) % BASE;
        assert pn[..] == y[i := (y[i] + 1) % BASE];
        if pn[i] != 0 {
          break;
        }
        i := i + 1;
      }
      IncIs(x, 0, pn[..]);
      SameIsMod(pn[..], pn.Length, Value(x) + 1);
    }

    method Decrement()
      modifies pn
      ensures Num() == (old(Num()) - 1) % Modulus()
    {
      ghost var x := pn[..];
      var i := 0;
      while i < pn.Length
        invariant 0 <= i <= pn.Length
        invariant Dec(pn[..], i) == Dec(x, 0)
      {
        ghost var y := pn[..];
        pn[i] := (pn[i] - 1) % BASE;
        assert pn[..] == y[i := (y[i] - 1) % BASE];
        if pn[i] != BASE - 1 {
          break;
        }
        i := i + 1;
      }
      DecIs(x, 0, pn[..]);
      SameIsMod(pn[..], pn.Length, Value(x) - 1);
    }

    method Negate() returns (r: BaseUint)
      ensures fresh(r) && fresh(r.pn) && r.pn.Length == pn.Length
      ensures r.Num() == (-Num()) % Modulus()
    {
      r := Complement();
      r.Increment();
      NegateIs(Num(), Modulus());
    }

    method AddAssign(b: BaseUint)
      requires b.pn.Length == pn.Length
      modifies pn
      ensures Num() == (old(Num()) + old(b.Num())) % Modulus()
    {
      ghost var x, y := pn[..], b.pn[..];
      AddLimbs(b);
      SumIs(x, y, SumLimbs(x, y, |x|));
      SameIsMod(pn[..], pn.Length, Value(x) + Value(y));
    }

    method AddLimbs(b: BaseUint)
      requires b.pn.Length == pn.Length
      modifies pn
      ensures pn[..] == SumLimbs(old(pn[..]), old(b.pn[..]), pn.Length).limbs
    {
      ghost var x, y := pn[..], b.pn[..];
      var carry: nat := 0;
      var i := 0;
      while i < pn.Length
        invariant 0 <= i <= pn.Length
        invariant forall j | i <= j < pn.Length :: pn[j] == x[j] && b.pn[j] == y[j]
        invariant carry <= 1 && Partial(pn[..i], carry) == SumLimbs(x, y, i)
      {
        var n := carry + Add(pn[i], b.pn[i]);
        ghost var done := pn[..i];
        pn[i] := n % BASE;
        carry := n / BASE;
        assert pn[..i + 1] == done + [n % BASE];
        i := i + 1;
      }
      assert pn[..i] == pn[..];
    }

    method SubtractAssign(b: BaseUint)
      requires b.pn.Length == pn.Length
      modifies pn
      ensures Num() == (old(Num()) - old(b.Num())) % Modulus()
    {
      ghost var x, y := Num(), b.Num();
      var nb := b.Negate();
      AddAssign(nb);
      SubtractIs(x, y, Modulus());
    }

    method MultiplyWord(b32: Limb)
      modifies pn
      ensures Num() == (b32 * old(Num())) % Modulus()
    {
      ghost var x := pn[..];
      var carry: nat := 0;
      var i := 0;
      while i < pn.Length
        invariant 0 <= i <= pn.Length
        invariant forall j | i <= j < pn.Length :: pn[j] == x[j]
        invariant carry < BASE && Partial(pn[..i], carry) == ScaleLimbs(x, b32, i)
      {
        var u: int, v: int := b32, pn[i];
        FitsDouble(u, v);
        var n := carry + u * v;
        ghost var done := pn[..i];
        pn[i] := n % BASE;
        carry := n / BASE;
        assert pn[..i + 1] == done + [n % BASE];
        i := i + 1;
      }
      assert pn[..i] == pn[..];
      ScaleIs(x, b32, ScaleLimbs(x, b32, i));
      SameIsMod(pn[..], pn.Length, b32 * Value(x));
    }

    method MultiplyAssign(b: BaseUint)
      requires b.pn.Length == pn.Length
      modifies pn
      ensures Num() == (old(Num()) * old(b.Num())) % Modulus()
    {
      ghost var x, y := pn[..], b.pn[..];
      var a := new BaseUint.Zero(pn.Length);
      var j := 0;
      while j < pn.Length
        invariant 0 <= j <= pn.Length && pn[..] == x && b.pn[..] == y
        invariant a.pn[..] == ProductLimbs(x, y, j)
      {
        MultiplyRow(a, b, j);
        j := j + 1;
      }
      Assign(a);
      ProductIs(x, y, pn[..]);
      SameIsMod(pn[..], pn.Length, Value(x) * Value(y));
    }

    method MultiplyRow(a: BaseUint, b: BaseUint, j: nat)
      requires a.pn.Length == b.pn.Length == pn.Length && j < pn.Length
      requires a.pn != pn && a.pn != b.pn
      modifies a.pn
      ensures a.pn[..] == RowLimbs(old(a.pn[..]), pn[j], b.pn[..], j, pn.Length - j).limbs
    {
      ghost var a0 := a.pn[..];
      var carry: nat := 0;
      var i := 0;
      while i + j < pn.Length
        invariant 0 <= i && i + j <= pn.Length
        invariant carry < BASE && Partial(a.pn[..], carry) == RowLimbs(a0, pn[j], b.pn[..], j, i)
      {
        ghost var before := a.pn[..];
        var u: int, v: int := pn[j], b.pn[i];
        FitsDouble(u, v);
        var n := carry + a.pn[i + j] + u * v;
        var lo: Limb := n % BASE;
        a.pn[i + j] := lo;
        carry := n / BASE;
        assert a.pn[..] == before[i + j := lo];
        i := i + 1;
      }
    }

    method ShiftLeft(shift: nat)
      modifies pn
      ensures Num() == (old(Num()) * Pow2(shift)) % Modulus()
    {
      ghost var x := pn[..];
      var k, s := shift / 32, shift % 32;
      ShiftLimbsLeft(k, s);
      ShlIs(x, shift, k, s, pn[..]);
      SameIsMod(pn[..], pn.Length, Value(x) * Pow2(shift));
    }

    method ShiftLimbsLeft(k: nat, s: nat)
      requires s < 32
      modifies pn
      ensures pn[..] == ShlLimbs(old(pn[..]), k, s, pn.Length)
    {
      ghost var x := pn[..];
      var a := new BaseUint.Copy(this);
      Clear();
      var i := 0;
      while i < pn.Length
        invariant 0 <= i <= pn.Length && a.pn[..] == x
        invariant pn[..] == ShlLimbs(x, k, s, i)
      {
        PlaceLeft(a.pn[i], i, k, s);
        i := i + 1;
      }
    }

    /** Limb x, the i-th, goes k limbs and s bits up. */
    method PlaceLeft(x: Limb, i: nat, k: nat, s: nat)
      requires s < 32
      modifies pn
      ensures pn[..] == ShlStep(old(pn[..]), x, i, k, s)
    {
      if i + k + 1 < pn.Length && s != 0 {
        pn[i + k + 1] := Or(pn[i + k + 1], Shr(x, 32 - s));
      }
      if i + k < pn.Length {
        pn[i + k] := Or(pn[i + k], Shl(x, s));
      }
    }

    method ShiftRight(shift: nat)
      modifies pn
      ensures Num() == old(Num()) / Pow2(shift)
    {
      ghost var x := pn[..];
      var k, s := shift / 32, shift % 32;
      ShiftLimbsRight(k, s);
      ShrIs(x, shift, k, s, pn[..]);
    }

    method ShiftLimbsRight(k: nat, s: nat)
      requires s < 32
      modifies pn
      ensures pn[..] == ShrLimbs(old(pn[..]), k, s, pn.Length)
    {
      ghost var x := pn[..];
      var a := new BaseUint.Copy(this);
      Clear();
      var i := 0;
      while i < pn.Length
        invariant 0 <= i <= pn.Length && a.pn[..] == x
        invariant pn[..] == ShrLimbs(x, k, s, i)
      {
        PlaceRight(a.pn[i], i, k, s);
        i := i + 1;
      }
    }

    /** Limb x, the i-th, goes k limbs and s bits down. */
    method PlaceRight(x: Limb, i: nat, k: nat, s: nat)
      requires s < 32 && i < pn.Length
      modifies pn
      ensures pn[..] == ShrStep(old(pn[..]), x, i, k, s)
    {
      if i - k - 1 >= 0 && s != 0 {
        pn[i - k - 1] := Or(pn[i - k - 1], Shl(x, 32 - s));
      }
      if i - k >= 0 {
        pn[i - k] := Or(pn[i - k], Shr(x, s));
      }
    }

    method Clear()
      modifies pn
      ensures pn[..] == seq(pn.Length, _ => 0)
      ensures Num() == 0
    {
      var i := 0;
      while i < pn.Length
        invariant 0 <= i <= pn.Length && forall j | 0 <= j < i :: pn[j] == 0
      {
        pn[i] := 0;
        i := i + 1;
      }
      assert pn[..] == seq(pn.Length, _ => 0);
      ValueZeros(pn[..]);
    }

    method CompareTo(b: BaseUint) returns (r: int)
      requires b.pn.Length == pn.Length
      ensures r == if Num() < b.Num() then -1 else if Num() > b.Num() then 1 else 0
    {
      var i := pn.Length - 1;
      while i >= 0
        invariant -1 <= i < pn.Length
        invariant forall j | i < j < pn.Length :: pn[j] == b.pn[j]
      {
        if pn[i] < b.pn[i] {
          TopDecides(pn[..], b.pn[..], i);
          return -1;
        }
        if pn[i] > b.pn[i] {
          TopDecides(b.pn[..], pn[..], i);
          return 1;
        }
        i := i - 1;
      }
      assert pn[..] == b.pn[..];
      return 0;
    }

    method EqualTo(b: nat) returns (r: bool)
      requires b < BASE * BASE && pn.Length >= 2
      ensures r <==> Num() == b
    {
      var i := pn.Length - 1;
      while i >= 2
        invariant 1 <= i < pn.Length
        invariant forall j | i < j < pn.Length :: pn[j] == 0
      {
        if pn[i] != 0 {
          TopZero(pn[..], i);
          FarLimb(pn[..], i, b);
          return false;
        }
        i := i - 1;
      }
      TopZero(pn[..], 1);
      OneLimb(pn[..]);
      r := pn[1] == b / BASE && pn[0] == b % BASE;
    }

    /** The exact quotient; a zero divisor is an error, raised after the receiver
        has been cleared. */
    method DivideAssign(b: BaseUint) returns (ok: bool)
      requires b.pn.Length == pn.Length
      modifies pn
      ensures ok <==> old(b.Num()) != 0
      ensures Num() == if ok then old(Num()) / old(b.Num()) else 0
    {
      var div := new BaseUint.Copy(b);
      var num := new BaseUint.Copy(this);
      ghost var n, d := num.Num(), div.Num();
      ValueBound(num.pn[..]);
      ValueBound(div.pn[..]);
      Clear();
      var numBits := num.Bits();
      var divBits := div.Bits();
      if divBits == 0 {
        return false;
      }
      if divBits > numBits {
        LongerIsLarger(n, d, numBits, divBits);
        return true;
      }
      var shift := numBits - divBits;
      DivideStart(n, d, numBits, divBits);
      LimbBits.BitsLength(d, divBits, shift);
      div.ShiftLeft(shift);
      BitsIs(d, shift);
      Unwrapped(Limbs.Bits(d, shift), pn.Length, numBits);
      AllClear(pn[..], shift + 1);
      DivideLoop(num, div, shift, n, d);
      return true;
    }

    /** Tries the bits of the quotient from `top` down. */
    method DivideLoop(num: BaseUint, div: BaseUint, top: nat, ghost n: int, ghost d: int)
      requires num.pn.Length == div.pn.Length == pn.Length && num.pn != pn && div.pn != pn && num.pn != div.pn
      requires d > 0 && top < 32 * pn.Length && Num() == 0 && LowClear(pn[..], top + 1)
      requires div.Num() == Limbs.Bits(d, top) && Dividing(n, d, 0, num.Num(), top)
      modifies pn, num.pn, div.pn
      ensures Num() == n / d
    {
      var shift := top;
      while shift >= 0
        invariant -1 <= shift <= top && LowClear(pn[..], shift + 1)
        invariant Dividing(n, d, Num(), num.Num(), shift)
        invariant shift >= 0 ==> div.Num() == Limbs.Bits(d, shift)
      {
        DivideBit(num, div, shift, n, d);
        div.ShiftRight(1);
        if shift > 0 {
          HalfBits(d, shift);
        }
        shift := shift - 1;
      }
      DivideEnd(n, d, Num(), num.Num());
    }

    /** Tries one bit of the quotient. */
    method DivideBit(num: BaseUint, div: BaseUint, shift: nat, ghost n: int, ghost d: int)
      requires num.pn.Length == div.pn.Length == pn.Length && num.pn != pn && div.pn != pn && num.pn != div.pn
      requires shift < 32 * pn.Length && LowClear(pn[..], shift + 1)
      requires div.Num() == Limbs.Bits(d, shift) && Dividing(n, d, Num(), num.Num(), shift)
      modifies pn, num.pn
      ensures LowClear(pn[..], shift) && Dividing(n, d, Num(), num.Num(), shift - 1)
    {
      DivideStep(n, d, Num(), num.Num(), shift);
      var c := num.CompareTo(div);
      if c >= 0 {
        NoBorrow(num.pn[..], div.pn[..]);
        num.SubtractAssign(div);
        SetQuotientBit(shift);
      } else {
        LowClearDown(pn[..], shift / 32, shift % 32);
      }
    }

    method SetQuotientBit(shift: nat)
      requires shift < 32 * pn.Length && LowClear(pn[..], shift + 1)
      modifies pn
      ensures Num() == old(Num()) + Pow2(shift) && LowClear(pn[..], shift)
    {
      ghost var x := pn[..];
      var j, e := shift / 32, shift % 32;
      OneBit(e);
      pn[j] := Or(pn[j], Pow2(e));
      SetBit(x, j, e, pn[..]);
    }

    method Bits() returns (n: nat)
      ensures BitLength(Num(), n) && n <= 32 * pn.Length
    {
      var pos := pn.Length - 1;
      while pos >= 0
        invariant -1 <= pos < pn.Length
        invariant forall j | pos < j < pn.Length :: pn[j] == 0
      {
        if pn[pos] != 0 {
          Pow2Values();
          var nbits := 31;
          while nbits > 0
            invariant 0 <= nbits <= 31 && pn[pos] < Pow2(nbits + 1)
          {
            if (pn[pos] / Pow2(nbits)) % 2 == 1 {
              HighBit(pn[pos], Pow2(nbits));
              TopBit(pn[..], pos, nbits + 1);
              return 32 * pos + nbits + 1;
            }
            LowBit(pn[pos], Pow2(nbits));
            nbits := nbits - 1;
          }
          TopBit(pn[..], pos, 1);
          return 32 * pos + 1;
        }
        pos := pos - 1;
      }
      ValueZeros(pn[..]);
      return 0;
    }
  }

  /** No bit is set in nought. */
  lemma AllClear(s: seq<Limb>, m: nat)
    requires forall i | 0 <= i < |s| :: s[i] == 0
    ensures LowClear(s, m)
  {
    BitsMono(0, 0, m % 32);
    assert m / 32 < |s| ==> s[m / 32] == Limbs.Bits(0, m % 32);
  }

  /** What fits below the modulus is not changed by it. */
  lemma {:induction false} Unwrapped(v: int, w: nat, n: nat)
    requires 0 <= v < Pow2(n) && n <= 32 * w
    ensures v % P(w) == v
  {
    PIsPow2(w);
    Pow2Mono(n, 32 * w);
    ModIs(v, 0, P(w), v);
  }

  lemma {:induction false} OneBit(e: nat)
    requires e < 32
    ensures Pow2(e) < BASE
  {
    Pow2Mono(e, 31);
    Pow2Values();
  }

  /** Subtracting something no larger does not wrap. */
  lemma {:induction false} NoBorrow(x: seq<Limb>, y: seq<Limb>)
    requires |x| == |y| && Value(y) <= Value(x)
    ensures (Value(x) - Value(y)) % P(|x|) == Value(x) - Value(y)
  {
    ValueBound(x);
    ValueBound(y);
    ModIs(Value(x) - Value(y), 0, P(|x|), Value(x) - Value(y));
  }

  lemma HighBit(x: Limb, p: int)
    requires p >= 1 && (x / p) % 2 == 1
    ensures x >= p
  {
    if x < p {
      ModIs(x, 0, p, x);
    }
  }

  lemma LowBit(x: Limb, p: int)
    requires p >= 1 && (x / p) % 2 != 1 && x < 2 * p
    ensures x < p
  {
    if x >= p {
      ModIs(x - p, 1, p, x);
    }
  }

  lemma {:induction false} FarLimb(s: seq<Limb>, i: nat, b: nat)
    requires 2 <= i < |s| && s[i] != 0 && Value(s) == Value(s[..i]) + Up(s[i], i) && b < BASE * BASE
    ensures Value(s) != b
  {
    ValueBound(s[..i]);
    UpMono(1, s[i], i);
    PIsPow2(2);
    PIsPow2(i);
    Pow2Mono(64, 32 * i);
    assert P(2) == BASE * P(1) && P(1) == BASE * P(0);
  }

  lemma {:induction false} OneLimb(s: seq<Limb>)
    requires |s| >= 2 && Value(s) == Value(s[..1]) + Up(s[1], 1)
    ensures Value(s) == s[0] + BASE * s[1]
  {
    assert s[..1] == [s[0]];
    assert Value([s[0]]) == Value([s[0]][..0]) + Up(s[0], 0);
    assert Up(s[1], 1) == BASE * Up(s[1], 0);
  }

  /** A limb product plus two limbs does not exceed 64 bits. */
  lemma {:induction false} FitsDouble(u: Limb, v: Limb)
    ensures 0 <= u * v <= (BASE - 1) * (BASE - 1) && u * v == Mul(u, v)
  {
    MulIs(u, v);
    MulMono(u, BASE - 1, v);
    MulMono(v, BASE - 1, BASE - 1);
    MulMono(0, u, v);
  }

  lemma NegateIs(v: int, m: int)
    requires m >= 1
    ensures (m - 1 - v + 1) % m == (-v) % m
  {
    ModIs((-v) % m, (-v) / m + 1, m, m - v) by {
      assert -v == (-v) / m * m + (-v) % m;
      MulDist((-v) / m, 1, m);
    }
  }

  lemma SubtractIs(x: int, y: int, m: int)
    requires m >= 1
    ensures (x + (-y) % m) % m == (x - y) % m
  {
    var k, l := (-y) / m, (x - y) / m;
    assert -y == k * m + (-y) % m && x - y == l * m + (x - y) % m;
    MulDist(l, k, m);
    ModIs((x - y) % m, l - k, m, x + (-y) % m);
  }
}
