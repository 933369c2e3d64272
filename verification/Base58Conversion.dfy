/** The in-place conversions: a buffer of digits is multiplied by one base and a digit
    of it added, over and over, carrying from the last cell towards the first. */
module Base58Conversion {
  import opened Basics
  import opened Radix
  import opened PowerBounds
  import opened Base58Codec

  /** The last `length` cells of a buffer are the canonical numeral of v, the others
      are clear. */
  ghost predicate Holds(s: seq<nat>, length: nat, b: Base, v: int) {
    && length <= |s| && Digits(s, b) && Val(s, b) == v
    && (forall i | 0 <= i < |s| - length :: s[i] == 0)
    && Canonical(s[|s| - length..])
  }

  lemma {:induction false} HoldsValue(s: seq<nat>, length: nat, b: Base, v: int)
    requires Holds(s, length, b, v)
    ensures v == Val(s[|s| - length..], b) && s[|s| - length..] == Canon(v, b)
  {
    var t := s[|s| - length..];
    assert s == Zeros(|s| - length) + t;
    ValZeros(|s| - length, t, b);
    Unique(t, Canon(v, b), b);
  }

  /** i cells have been rewritten and a carry is left for the next. */
  ghost predicate Carrying(s0: seq<nat>, s: seq<nat>, i: nat, carry: nat, f: Base, t: Base, d: nat, length: nat) {
    && i <= |s| == |s0| && Digits(s, t) && s[..|s| - i] == s0[..|s| - i]
    && Val(s[|s| - i..], t) + Shift(carry, i, t) == Mul(f, Val(s0[|s| - i..], t)) + d
    && (i > length ==> carry != 0 || s[|s| - i] != 0)
  }

  lemma CarryStart(s0: seq<nat>, f: Base, t: Base, d: nat, length: nat)
    requires Digits(s0, t)
    ensures Carrying(s0, s0, 0, d, f, t, d, length)
  {
    assert s0[|s0|..] == [];
  }

  lemma CarryNext(s0: seq<nat>, s: seq<nat>, i: nat, carry: nat, f: Base, t: Base, d: nat, length: nat, n: nat,
      s2: seq<nat>)
    requires Carrying(s0, s, i, carry, f, t, d, length) && i < |s| && (carry != 0 || i < length)
    requires forall j | 0 <= j < |s0| - length :: s0[j] == 0
    requires n == carry + Mul(f, s[|s| - 1 - i]) && s2 == s[|s| - 1 - i := Rem(t, n)]
    ensures Carrying(s0, s2, i + 1, Quot(t, n), f, t, d, length)
  {
    var p := |s| - 1 - i;
    var x := s0[p];
    assert s[p] == s[..p + 1][p] == s0[..p + 1][p] == x;
    assert s2[p..] == [Rem(t, n)] + s[p + 1..];
    assert s0[p..] == [x] + s0[p + 1..];
    assert s2[..p] == s[..p + 1][..p] == s0[..p + 1][..p] == s0[..p];
    ValPrepend(Rem(t, n), s[p + 1..], t);
    ValPrepend(x, s0[p + 1..], t);
    ShiftMul(f, x, i, t);
    ShiftAdd(carry, Mul(f, x), i, t);
    ShiftAdd(Rem(t, n), Mul(t, Quot(t, n)), i, t);
    ShiftMul(t, Quot(t, n), i, t);
    assert n == Rem(t, n) + Mul(t, Quot(t, n));
  }

  /** The buffer never overflows: a carry past its first cell would make the value as
      large as the buffer's capacity. */
  lemma {:induction false} NoCarryLeft(s0: seq<nat>, s: seq<nat>, carry: nat, f: Base, t: Base, d: nat, length: nat)
    requires Carrying(s0, s, |s|, carry, f, t, d, length) && Mul(f, Val(s0, t)) + d < Shift(1, |s0|, t)
    ensures carry == 0
  {
    assert s[0..] == s && s0[0..] == s0;
    if carry > 0 {
      ShiftMono(1, carry, |s|, t);
    }
  }

  /** Clear cells in front do not count. */
  lemma {:induction false} ClearInFront(s: seq<nat>, p: nat, t: Base)
    requires p <= |s| && forall j | 0 <= j < p :: s[j] == 0
    ensures Val(s, t) == Val(s[p..], t)
  {
    assert s == Zeros(p) + s[p..];
    ValZeros(p, s[p..], t);
  }

  lemma CarryDone(s0: seq<nat>, s: seq<nat>, i: nat, f: Base, t: Base, d: nat, length: nat, v: int)
    requires Carrying(s0, s, i, 0, f, t, d, length) && i >= length && Holds(s0, length, t, v)
    ensures Holds(s, i, t, Mul(f, v) + d)
  {
    var p := |s| - i;
    forall j | 0 <= j < p ensures s[j] == 0 {
      assert s[j] == s[..p][j] == s0[..p][j] == s0[j];
    }
    ClearInFront(s, p, t);
    ClearInFront(s0, p, t);
    ShiftMono(0, 0, i, t);
    if i == length && i > 0 {
      KeepsLength(s0[p..], s[p..], t);
    }
  }

  /** A canonical numeral that does not shrink stays canonical. */
  lemma {:induction false} KeepsLength(s0: seq<nat>, s: seq<nat>, t: Base)
    requires |s| == |s0| > 0 && Canonical(s0) && Digits(s, t) && Val(s, t) >= Val(s0, t)
    ensures Canonical(s)
  {
    CanonicalLow(s0, t);
    TopNonzero(s, t);
  }

  /** Enough value needs a nonzero first digit. */
  lemma {:induction false} TopNonzero(s: seq<nat>, b: Base)
    requires s != [] && Digits(s, b) && Val(s, b) >= Shift(1, |s| - 1, b)
    ensures s[0] != 0
  {
    if s[0] == 0 {
      assert s == [0] + s[1..];
      ValPrepend(0, s[1..], b);
      ShiftMono(0, 0, |s| - 1, b);
      ValBound(s[1..], b);
    }
  }

  /** buf := buf * f + d, in base t. */
  method MultiplyAdd(buf: array<nat>, length: nat, f: Base, t: Base, d: nat, ghost v: int) returns (newLength: nat)
    requires Holds(buf[..], length, t, v) && Mul(f, v) + d < Shift(1, buf.Length, t)
    modifies buf
    ensures Holds(buf[..], newLength, t, Mul(f, v) + d)
  {
    ghost var s0 := buf[..];
    var carry, i := Propagate(buf, length, f, t, d);
    if i == buf.Length {
      NoCarryLeft(s0, buf[..], carry, f, t, d, length);
    }
    assert carry == 0;
    CarryDone(s0, buf[..], i, f, t, d, length, v);
    newLength := i;
  }

  method Propagate(buf: array<nat>, length: nat, f: Base, t: Base, d: nat) returns (carry: nat, i: nat)
    requires Digits(buf[..], t) && length <= buf.Length && forall j | 0 <= j < buf.Length - length :: buf[j] == 0
    modifies buf
    ensures Carrying(old(buf[..]), buf[..], i, carry, f, t, d, length)
    ensures i == buf.Length || (carry == 0 && i >= length)
  {
    ghost var s0 := buf[..];
    carry, i := d, 0;
    CarryStart(s0, f, t, d, length);
    while (carry != 0 || i < length) && i < buf.Length
      invariant i <= buf.Length && Carrying(s0, buf[..], i, carry, f, t, d, length)
      decreases buf.Length - i
    {
      ghost var s := buf[..];
      var n := carry + Mul(f, buf[buf.Length - 1 - i]);
      buf[buf.Length - 1 - i] := Rem(t, n);
      CarryNext(s0, s, i, carry, f, t, d, length, n, buf[..]);
      carry, i := Quot(t, n), i + 1;
    }
  }

  // ------------------------------------------------------------------- encoding

  /** A buffer with no digits in it. */
  lemma HoldsNone(s: seq<nat>, b: Base)
    requires forall i | 0 <= i < |s| :: s[i] == 0
    ensures Holds(s, 0, b, 0)
  {
    ClearInFront(s, |s|, b);
  }

  /** The digits taken so far stay below the capacity of the buffer. */
  lemma {:induction false} Fits(s: seq<nat>, k: nat, f: Base, t: Base, n: nat, size: nat)
    requires Digits(s, f) && k < |s| && |s| <= n && Shift(1, n, f) <= Shift(1, size, t)
    ensures Mul(f, Val(s[..k], f)) + s[k] == Val(s[..k + 1], f) < Shift(1, size, t)
  {
    assert s[..k + 1][..k] == s[..k];
    ValBound(s[..k + 1], f);
    ShiftGrows(k + 1, n, f);
  }

  method EncodeBase58(v: seq<nat>) returns (str: string)
    requires Digits(v, B256)
    ensures str == Encoded(v)
  {
    var zeroes := CountZeroes(v);
    ZeroCountSplit(v, zeroes);
    ValZeros(zeroes, v[zeroes..], B256);
    var tail := EncodeNumber(v[zeroes..]);
    str := Ones(zeroes) + tail;
  }

  method EncodeNumber(rest: seq<nat>) returns (tail: string)
    requires Digits(rest, B256)
    ensures tail == Chars(Canon(Val(rest, B256), B58))
  {
    ghost var d := Canon(Val(rest, B256), B58);
    var b58, length := ToBase58(rest);
    HoldsDigits(b58[..], length, B58, Val(rest, B256), d);
    var it := SkipZeroes(b58, b58.Length - length);
    NoneSkipped(b58[..], b58.Length - length, it, d);
    tail := Translate(b58, it, d);
  }

  lemma {:induction false} HoldsDigits(s: seq<nat>, length: nat, b: Base, v: nat, d: seq<nat>)
    requires Holds(s, length, b, v) && d == Canon(v, b)
    ensures length <= |s| && s[|s| - length..] == d
  {
    HoldsValue(s, length, b, v);
  }

  lemma NoneSkipped(s: seq<nat>, start: nat, it: nat, d: seq<nat>)
    requires start <= it <= |s| && s[start..] == d && Canonical(d)
    requires (it < |s| ==> s[it] != 0) && forall j | start <= j < it :: s[j] == 0
    ensures it == start
  {
    if start < |s| {
      assert s[start] == d[0];
    }
  }

  method CountZeroes(v: seq<nat>) returns (zeroes: nat)
    ensures zeroes == ZeroCount(v)
  {
    zeroes := 0;
    while zeroes < |v| && v[zeroes] == 0
      invariant zeroes <= |v| && ZeroCount(v) == zeroes + ZeroCount(v[zeroes..])
    {
      assert v[zeroes..][1..] == v[zeroes + 1..];
      zeroes := zeroes + 1;
    }
  }

  method SkipZeroes(b: array<nat>, start: nat) returns (it: nat)
    requires start <= b.Length
    ensures start <= it <= b.Length && (it < b.Length ==> b[it] != 0)
    ensures forall j | start <= j < it :: b[j] == 0
  {
    it := start;
    while it < b.Length && b[it] == 0
      invariant start <= it <= b.Length && forall j | start <= j < it :: b[j] == 0
    {
      it := it + 1;
    }
  }

  method Translate(b: array<nat>, start: nat, ghost d: seq<nat>) returns (str: string)
    requires start <= b.Length && b[..][start..] == d && Digits(d, B58)
    ensures str == Chars(d)
  {
    str := [];
    var k := start;
    while k < b.Length
      invariant start <= k <= b.Length && str == Chars(d)[..k - start]
    {
      assert b[k] == d[k - start];
      str := str + [CharOf(b[k])];
      k := k + 1;
    }
  }

  method ToBase58(rest: seq<nat>) returns (b58: array<nat>, length: nat)
    requires Digits(rest, B256)
    ensures fresh(b58) && Holds(b58[..], length, B58, Val(rest, B256))
  {
    var size := EncodedSize(|rest|);
    EncodedFits(|rest|);
    b58 := new nat[size](_ => 0);
    HoldsNone(b58[..], B58);
    length := 0;
    var k := 0;
    while k < |rest|
      invariant 0 <= k <= |rest| && Holds(b58[..], length, B58, Val(rest[..k], B256))
    {
      Fits(rest, k, B256, B58, |rest|, size);
      length := MultiplyAdd(b58, length, B256, B58, rest[k], Val(rest[..k], B256));
      k := k + 1;
    }
    assert rest[..k] == rest;
  }


  // ------------------------------------------------------------------- decoding

  /** One more character of the word. */
  lemma {:induction false} WordNext(w: string, x: string, c: char, n: nat, size: nat)
    requires AllDigits(w) && DigitOf(c) >= 0 && x == w + [c] && |x| <= n && Shift(1, n, B58) <= Shift(1, size, B256)
    ensures AllDigits(x)
    ensures Mul(B58, Val(DigitsOf(w), B58)) + DigitOf(c) == Val(DigitsOf(x), B58) < Shift(1, size, B256)
  {
    var d := DigitsOf(x);
    assert d[..|w|] == DigitsOf(w);
    ValBound(d, B58);
    ShiftGrows(|x|, n, B58);
  }

  /** A longer word stands for no smaller a number. */
  lemma {:induction false} WordGrows(d: seq<nat>, k: nat)
    requires k <= |d|
    ensures Val(d[..k], B58) <= Val(d, B58)
  {
    if k < |d| {
      var n := |d| - 1;
      WordGrows(d[..n], k);
      assert d[..n][..k] == d[..k];
    } else {
      assert d[..k] == d;
    }
  }

  lemma DigitsPrefix(word: string, k: nat, w: string)
    requires AllDigits(word) && k <= |word| && w == word[..k]
    ensures AllDigits(w) && DigitsOf(w) == DigitsOf(word)[..k]
  {
  }

  lemma {:induction false} NeedsMore(d: seq<nat>, k: nat, dk: seq<nat>)
    requires k <= |d| && dk == d[..k]
    ensures |Canon(Val(dk, B58), B256)| <= |Canon(Val(d, B58), B256)|
  {
    WordGrows(d, k);
    LengthMono(Canon(Val(dk, B58), B256), Canon(Val(d, B58), B256), B256);
  }

  /** A word whose beginning already needs too many bytes does not decode. */
  lemma TooLong(word: string, k: nat, w: string, z: nat, max: int)
    requires 0 < k <= |word| && w == word[..k] && AllDigits(w) && z + |Canon(Val(DigitsOf(w), B58), B256)| > max
    ensures Assemble(z, word, max) == None
  {
    if AllDigits(word) {
      DigitsPrefix(word, k, w);
      NeedsMore(DigitsOf(word), k, DigitsOf(w));
    }
  }

  lemma NotADigit(word: string, k: nat, z: nat, max: int)
    requires k < |word| && DigitOf(word[k]) < 0
    ensures Assemble(z, word, max) == None
  {
  }

  /** The word read so far and the buffer that holds it. */
  ghost predicate Reading(s: string, b: nat, j: nat, buf: seq<nat>, length: nat) {
    && b <= j <= |s| && SkipWord(s, b) == SkipWord(s, j) && AllDigits(s[b..j])
    && Holds(buf, length, B256, Val(DigitsOf(s[b..j]), B58))
  }

  /** A character outside the alphabet stops the reading for good. */
  lemma {:induction false} StopsAtChar(s: string, b: nat, e: nat, buf: seq<nat>, length: nat, zeroes: nat, max: int)
    requires Reading(s, b, e, buf, length) && e < |s| && !IsSpace(s[e]) && DigitOf(s[e]) < 0
    ensures Assemble(zeroes, s[b..SkipWord(s, b)], max) == None
  {
    WordReaches(s, b, e);
    NotADigit(s[b..SkipWord(s, b)], e - b, zeroes, max);
  }

  /** So do too many bytes. */
  lemma {:induction false} StopsTooLong(s: string, b: nat, e: nat, buf: seq<nat>, length: nat, zeroes: nat, max: int)
    requires Reading(s, b, e, buf, length) && e > b && zeroes + length > max
    ensures Assemble(zeroes, s[b..SkipWord(s, b)], max) == None
  {
    var word := s[b..SkipWord(s, b)];
    HoldsValue(buf, length, B256, Val(DigitsOf(s[b..e]), B58));
    assert word[..e - b] == s[b..e];
    TooLong(word, e - b, s[b..e], zeroes, max);
  }

  method ReadChar(s: string, b: nat, e: nat, b256: array<nat>, length: nat) returns (newLength: nat)
    requires Reading(s, b, e, b256[..], length) && e < |s| && !IsSpace(s[e]) && DigitOf(s[e]) >= 0
    requires Shift(1, |s| - b, B58) <= Shift(1, b256.Length, B256)
    modifies b256
    ensures Reading(s, b, e + 1, b256[..], newLength)
  {
    WordReaches(s, b, e);
    assert s[b..e + 1] == s[b..e] + [s[e]];
    WordNext(s[b..e], s[b..e + 1], s[e], |s| - b, b256.Length);
    newLength := MultiplyAdd(b256, length, B58, B256, DigitOf(s[e]), Val(DigitsOf(s[b..e]), B58));
  }

  lemma ReadingNone(s: string, b: nat, buf: seq<nat>)
    requires b <= |s| && forall i | 0 <= i < |buf| :: buf[i] == 0
    ensures Reading(s, b, b, buf, 0)
  {
    HoldsNone(buf, B256);
    assert s[b..b] == [] && DigitsOf([]) == [];
  }

  /** Reads a word; fails on a character outside the alphabet or too many bytes. */
  method ReadWord(s: string, b: nat, zeroes: nat, max: int) returns (ok: bool, b256: array<nat>, length: nat, e: nat)
    requires b <= |s|
    ensures !ok ==> Assemble(zeroes, s[b..SkipWord(s, b)], max) == None
    ensures ok ==> e == SkipWord(s, b) && Reading(s, b, e, b256[..], length) && (e > b ==> zeroes + length <= max)
  {
    var size := DecodedSize(|s| - b);
    DecodedFits(|s| - b);
    b256 := new nat[size](_ => 0);
    ReadingNone(s, b, b256[..]);
    length, e, ok := 0, b, true;
    while e < |s| && !IsSpace(s[e])
      invariant Reading(s, b, e, b256[..], length)
      invariant e > b ==> zeroes + length <= max
    {
      if DigitOf(s[e]) == -1 {
        StopsAtChar(s, b, e, b256[..], length, zeroes, max);
        ok := false;
        return;
      }
      length := ReadChar(s, b, e, b256, length);
      e := e + 1;
      if length + zeroes > max {
        StopsTooLong(s, b, e, b256[..], length, zeroes, max);
        ok := false;
        return;
      }
    }
  }

  /** Before a space, the word goes on past the current character. */
  lemma WordReaches(s: string, b: nat, e: nat)
    requires b <= e < |s| && !IsSpace(s[e]) && SkipWord(s, b) == SkipWord(s, e)
    ensures e < SkipWord(s, b) && SkipWord(s, b) == SkipWord(s, e + 1)
  {
  }

  method SkipWhile(s: string, start: nat) returns (i: nat)
    requires start <= |s|
    ensures i == SkipSpaces(s, start)
  {
    i := start;
    while i < |s| && IsSpace(s[i])
      invariant start <= i <= |s| && SkipSpaces(s, i) == SkipSpaces(s, start)
    {
      i := i + 1;
    }
  }

  /** Counts the '1's from a position on, giving up when there are more than max. */
  method CountOnes(s: string, start: nat, max: int) returns (ok: bool, zeroes: nat)
    requires start <= |s|
    ensures ok ==> start + zeroes == SkipOnes(s, start) && (zeroes > 0 ==> zeroes <= max)
    ensures !ok ==> SkipOnes(s, start) - start > 0 && SkipOnes(s, start) - start > max
  {
    zeroes, ok := 0, true;
    while start + zeroes < |s| && s[start + zeroes] == '1'
      invariant start + zeroes <= |s| && SkipOnes(s, start + zeroes) == SkipOnes(s, start)
      invariant zeroes > 0 ==> zeroes <= max
    {
      zeroes := zeroes + 1;
      if zeroes > max {
        ok := false;
        return;
      }
    }
  }

  lemma {:induction false} DecodedIs(s: string, a: nat, b: nat, e: nat, max: int, r: Option<seq<nat>>)
    requires '\0' !in s && a == SkipSpaces(s, 0) && b == SkipOnes(s, a) && e == SkipWord(s, b)
    requires r == if SkipSpaces(s, e) < |s| then None else Assemble(b - a, s[b..e], max)
    ensures Decoded(s, max) == r
  {
  }

  lemma AssembleIs(s: string, b: nat, e: nat, buf: seq<nat>, length: nat, zeroes: nat, max: int)
    requires Reading(s, b, e, buf, length) && (zeroes > 0 ==> zeroes <= max) && (e > b ==> zeroes + length <= max)
    ensures Assemble(zeroes, s[b..e], max) == Some(Zeros(zeroes) + buf[|buf| - length..])
  {
    HoldsValue(buf, length, B256, Val(DigitsOf(s[b..e]), B58));
  }

  method DecodeBase58(s: string, max: int) returns (r: Option<seq<nat>>)
    ensures r == Decoded(s, max)
  {
    if '\0' in s {
      return None;
    }
    var a := SkipWhile(s, 0);
    ghost var b0 := SkipOnes(s, a);
    ghost var e0 := SkipWord(s, b0);
    var enough, zeroes := CountOnes(s, a, max);
    if !enough {
      DecodedIs(s, a, b0, e0, max, None);
      return None;
    }
    var b := a + zeroes;
    var ok, b256, length, e := ReadWord(s, b, zeroes, max);
    if !ok {
      DecodedIs(s, a, b, e0, max, None);
      return None;
    }
    var i := SkipWhile(s, e);
    AssembleIs(s, b, e, b256[..], length, zeroes, max);
    r := if i < |s| then None else Some(Zeros(zeroes) + b256[b256.Length - length..]);
    DecodedIs(s, a, b, e, max, r);
  }
}
