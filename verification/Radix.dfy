/** Big-endian numerals in the two bases of the Base58 codec. Multiplication is only
    ever by one of the two bases, so that all of this is linear arithmetic. */
module Radix {

  datatype Base = B58 | B256

  function Size(b: Base): nat { if b.B58? then 58 else 256 }

  /** x times the base. */
  function Mul(b: Base, x: int): int { if b.B58? then 58 * x else 256 * x }

  predicate Digits(s: seq<nat>, b: Base) { forall i | 0 <= i < |s| :: s[i] < Size(b) }

  /** The number a digit sequence stands for, most significant digit first. */
  function Val(s: seq<nat>, b: Base): (v: nat)
  {
    if s == [] then 0 else Mul(b, Val(s[..|s| - 1], b)) + s[|s| - 1]
  }

  /** x times the base to the power k. */
  function Shift(x: int, k: nat, b: Base): int {
    if k == 0 then x else Mul(b, Shift(x, k - 1, b))
  }

  lemma {:induction false} ShiftAdd(x: int, y: int, k: nat, b: Base)
    ensures Shift(x + y, k, b) == Shift(x, k, b) + Shift(y, k, b)
  {
    if k > 0 {
      ShiftAdd(x, y, k - 1, b);
    }
  }

  lemma {:induction false} ShiftMul(f: Base, x: int, k: nat, b: Base)
    ensures Shift(Mul(f, x), k, b) == Mul(f, Shift(x, k, b))
  {
    if k > 0 {
      ShiftMul(f, x, k - 1, b);
    }
  }

  lemma {:induction false} ShiftMono(x: int, y: int, k: nat, b: Base)
    requires x <= y
    ensures Shift(x, k, b) <= Shift(y, k, b) && Shift(0, k, b) == 0 && Shift(1, k, b) >= 1
  {
    if k > 0 {
      ShiftMono(x, y, k - 1, b);
    }
  }

  lemma {:induction false} ShiftGrows(j: nat, k: nat, b: Base)
    requires j <= k
    ensures 1 <= Shift(1, j, b) <= Shift(1, k, b)
  {
    ShiftMono(0, 0, j, b);
    if j < k {
      ShiftGrows(j, k - 1, b);
    }
  }

  /** One more digit in front. */
  lemma {:induction false} ValPrepend(x: nat, s: seq<nat>, b: Base)
    ensures Val([x] + s, b) == Shift(x, |s|, b) + Val(s, b)
  {
    if s == [] {
      assert [x] + s == [x];
      assert Val([x], b) == Mul(b, Val([x][..0], b)) + x;
    } else {
      var n := |s| - 1;
      ValPrepend(x, s[..n], b);
      assert ([x] + s)[..n + 1] == [x] + s[..n];
    }
  }

  /** k digits stand for a number below the base to the power k. */
  lemma {:induction false} ValBound(s: seq<nat>, b: Base)
    requires Digits(s, b)
    ensures 0 <= Val(s, b) < Shift(1, |s|, b)
  {
    if s != [] {
      ValBound(s[..|s| - 1], b);
    }
  }

  /** Leading zeros do not count. */
  lemma {:induction false} ValZeros(z: nat, s: seq<nat>, b: Base)
    ensures Val(seq(z, _ => 0) + s, b) == Val(s, b)
  {
    if z == 0 {
      assert seq(0, _ => 0) + s == s;
    } else {
      ValZeros(z - 1, s, b);
      var t := seq(z - 1, _ => 0) + s;
      assert seq(z, _ => 0) + s == [0] + t;
      ValPrepend(0, t, b);
      ShiftMono(0, 0, |t|, b);
    }
  }

  predicate Canonical(s: seq<nat>) { s == [] || s[0] != 0 }

  /** A canonical numeral has exactly as many digits as its value needs. */
  lemma {:induction false} CanonicalLow(s: seq<nat>, b: Base)
    requires s != [] && s[0] != 0
    ensures Val(s, b) >= Shift(1, |s| - 1, b)
  {
    var t := s[1..];
    assert s == [s[0]] + t;
    ValPrepend(s[0], t, b);
    ShiftMono(1, s[0], |t|, b);
  }

  /** Numbers in order have canonical numerals of lengths in order. */
  lemma {:induction false} LengthMono(s: seq<nat>, t: seq<nat>, b: Base)
    requires Digits(s, b) && Digits(t, b) && Canonical(s) && Val(s, b) <= Val(t, b)
    ensures |s| <= |t|
  {
    if s != [] && |t| < |s| {
      CanonicalLow(s, b);
      ValBound(t, b);
      ShiftGrows(|t|, |s| - 1, b);
    }
  }

  /** Equal values have equal numerals, digit for digit, when the lengths agree. */
  lemma {:induction false} SameLength(s: seq<nat>, t: seq<nat>, b: Base)
    requires Digits(s, b) && Digits(t, b) && |s| == |t| && Val(s, b) == Val(t, b)
    ensures s == t
  {
    if s != [] {
      var n := |s| - 1;
      SameLength(s[..n], t[..n], b);
      assert s == s[..n] + [s[n]] && t == t[..n] + [t[n]];
    }
  }

  /** Canonical numerals are unique. */
  lemma {:induction false} Unique(s: seq<nat>, t: seq<nat>, b: Base)
    requires Digits(s, b) && Digits(t, b) && Canonical(s) && Canonical(t) && Val(s, b) == Val(t, b)
    ensures s == t
  {
    LengthMono(s, t, b);
    LengthMono(t, s, b);
    SameLength(s, t, b);
  }
}
