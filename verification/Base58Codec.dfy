/** Base58: what the two conversions compute, and that they undo each other. */
module Base58Codec {
  import opened Basics
  import opened Radix

  // ---------------------------------------------------------------- characters

  /** The alphabet: digits and letters without 0, I, O and l. */
  function CharOf(d: nat): char
    requires d < 58
  {
    if d < 9 then ('1' as int + d) as char
    else if d < 17 then ('A' as int + d - 9) as char
    else if d < 22 then ('J' as int + d - 17) as char
    else if d < 33 then ('P' as int + d - 22) as char
    else if d < 44 then ('a' as int + d - 33) as char
    else ('m' as int + d - 44) as char
  }

  /** The value of a character, -1 for one that is not in the alphabet. */
  function DigitOf(c: char): (d: int)
    ensures -1 <= d < 58
  {
    if '1' <= c <= '9' then c as int - '1' as int
    else if 'A' <= c <= 'H' then c as int - 'A' as int + 9
    else if 'J' <= c <= 'N' then c as int - 'J' as int + 17
    else if 'P' <= c <= 'Z' then c as int - 'P' as int + 22
    else if 'a' <= c <= 'k' then c as int - 'a' as int + 33
    else if 'm' <= c <= 'z' then c as int - 'm' as int + 44
    else -1
  }

  lemma CharDigit(d: nat, c: char)
    ensures d < 58 ==> DigitOf(CharOf(d)) == d && !IsSpace(CharOf(d)) && CharOf(d) != '\0'
    ensures DigitOf(c) >= 0 ==> CharOf(DigitOf(c)) == c
  {
  }

  predicate IsSpace(c: char) {
    c == ' ' || c as int == 12 || c == '\n' || c == '\r' || c == '\t' || c as int == 11
  }

  function Chars(d: seq<nat>): (s: string)
    requires Digits(d, B58)
    ensures |s| == |d|
  {
    seq(|d|, i requires 0 <= i < |d| => CharOf(d[i]))
  }

  predicate AllDigits(s: string) { forall i | 0 <= i < |s| :: DigitOf(s[i]) >= 0 }

  function DigitsOf(s: string): (d: seq<nat>)
    requires AllDigits(s)
    ensures |d| == |s| && Digits(d, B58)
  {
    seq(|s|, i requires 0 <= i < |s| => DigitOf(s[i]))
  }

  lemma CharsDigits(d: seq<nat>)
    requires Digits(d, B58)
    ensures AllDigits(Chars(d)) && DigitsOf(Chars(d)) == d
    ensures forall i | 0 <= i < |d| :: !IsSpace(Chars(d)[i]) && Chars(d)[i] != '\0'
  {
    forall i | 0 <= i < |d|
      ensures DigitOf(Chars(d)[i]) == d[i] && !IsSpace(Chars(d)[i]) && Chars(d)[i] != '\0'
    {
      CharDigit(d[i], ' ');
    }
  }

  lemma DigitsChars(s: string)
    requires AllDigits(s)
    ensures Chars(DigitsOf(s)) == s
  {
    forall i | 0 <= i < |s| ensures Chars(DigitsOf(s))[i] == s[i] {
      CharDigit(0, s[i]);
    }
  }

  // ------------------------------------------------------ canonical numerals

  function Quot(b: Base, n: nat): nat { if b.B58? then n / 58 else n / 256 }

  function Rem(b: Base, n: nat): nat { if b.B58? then n % 58 else n % 256 }

  /** The numeral of n without leading zeros. */
  function Canon(n: nat, b: Base): (s: seq<nat>)
    ensures Digits(s, b) && Canonical(s) && Val(s, b) == n
    ensures n == 0 <==> s == []
  {
    if n == 0 then []
    else
      var s := Canon(Quot(b, n), b) + [Rem(b, n)];
      assert s[..|s| - 1] == Canon(Quot(b, n), b);
      s
  }

  function Zeros(z: nat): seq<nat> { seq(z, _ => 0) }

  function Ones(z: nat): string { seq(z, _ => '1') }

  /** Leading zero digits. */
  function ZeroCount(v: seq<nat>): (z: nat)
    ensures z <= |v|
  {
    if v == [] || v[0] != 0 then 0 else 1 + ZeroCount(v[1..])
  }

  lemma {:induction false} ZeroCountSplit(v: seq<nat>, z: nat)
    requires z == ZeroCount(v)
    ensures v == Zeros(z) + v[z..] && Canonical(v[z..])
  {
    if v != [] && v[0] == 0 {
      var w := v[1..];
      ZeroCountSplit(w, z - 1);
      assert w[z - 1..] == v[z..];
      assert v == [0] + w && Zeros(z) == [0] + Zeros(z - 1);
      assert [0] + (Zeros(z - 1) + w[z - 1..]) == ([0] + Zeros(z - 1)) + w[z - 1..];
    }
  }

  // --------------------------------------------------------------- the codec

  /** One '1' for each leading zero byte, then the rest as a base-58 numeral. */
  function Encoded(v: seq<nat>): string {
    Ones(ZeroCount(v)) + Chars(Canon(Val(v, B256), B58))
  }

  /** Where the spaces from position i on end. */
  function SkipSpaces(s: string, i: nat): (j: nat)
    requires i <= |s|
    ensures i <= j <= |s| && (j < |s| ==> !IsSpace(s[j]))
    decreases |s| - i
  {
    if i < |s| && IsSpace(s[i]) then SkipSpaces(s, i + 1) else i
  }

  /** Where the '1's from position i on end. */
  function SkipOnes(s: string, i: nat): (j: nat)
    requires i <= |s|
    ensures i <= j <= |s| && (j < |s| ==> s[j] != '1')
    decreases |s| - i
  {
    if i < |s| && s[i] == '1' then SkipOnes(s, i + 1) else i
  }

  /** Where the first space from position i on is. */
  function SkipWord(s: string, i: nat): (j: nat)
    requires i <= |s|
    ensures i <= j <= |s|
    decreases |s| - i
  {
    if i < |s| && !IsSpace(s[i]) then SkipWord(s, i + 1) else i
  }

  /** z zero bytes and the number a word stands for, in at most max bytes. */
  function Assemble(z: nat, word: string, max: int): Option<seq<nat>> {
    if !AllDigits(word) then None
    else
      var bytes := Canon(Val(DigitsOf(word), B58), B256);
      if (z > 0 && z > max) || (word != [] && z + |bytes| > max) then None else Some(Zeros(z) + bytes)
  }

  /** What decodes: spaces, '1's, a word in the alphabet, spaces; no zero byte; and
      no more than `max` bytes come out. */
  function Decoded(s: string, max: int): Option<seq<nat>> {
    if '\0' in s then None
    else
      var a := SkipSpaces(s, 0);
      var b := SkipOnes(s, a);
      var e := SkipWord(s, b);
      if SkipSpaces(s, e) < |s| then None else Assemble(b - a, s[b..e], max)
  }

  // ------------------------------------------------------------- round trips

  predicate NoSpaces(s: string) { forall i | 0 <= i < |s| :: !IsSpace(s[i]) }

  lemma {:induction false} SkipsNone(s: string, i: nat)
    requires NoSpaces(s) && i <= |s|
    ensures SkipSpaces(s, i) == i && SkipWord(s, i) == |s|
    decreases |s| - i
  {
    if i < |s| {
      SkipsNone(s, i + 1);
    }
  }

  lemma {:induction false} SkipsOnes(s: string, i: nat, j: nat)
    requires i <= j <= |s| && (forall k | i <= k < j :: s[k] == '1') && (j < |s| ==> s[j] != '1')
    ensures SkipOnes(s, i) == j
    decreases j - i
  {
    if i < j {
      SkipsOnes(s, i + 1, j);
    }
  }

  lemma {:induction false} SkippedOnes(s: string, i: nat, k: nat)
    requires i <= |s| && i <= k < SkipOnes(s, i)
    ensures s[k] == '1'
    decreases |s| - i
  {
    if i < k {
      SkippedOnes(s, i + 1, k);
    }
  }

  /** Only '1' stands for nought. */
  lemma OneIsZero(c: char)
    ensures DigitOf(c) == 0 <==> c == '1'
  {
  }

  lemma {:induction false} ZeroCountIs(z: nat, t: seq<nat>)
    requires Canonical(t)
    ensures ZeroCount(Zeros(z) + t) == z
  {
    var v := Zeros(z) + t;
    if z == 0 {
      assert v == t;
    } else {
      ZeroCountIs(z - 1, t);
      assert v[1..] == Zeros(z - 1) + t;
    }
  }

  /** The parts of an encoding. */
  lemma {:induction false} EncodedParts(z: nat, d: seq<nat>, s: string)
    requires Digits(d, B58) && Canonical(d) && s == Ones(z) + Chars(d)
    ensures NoSpaces(s) && '\0' !in s
    ensures SkipOnes(s, 0) == z <= |s| && s[z..] == Chars(d)
  {
    CharsDigits(d);
    assert forall i | 0 <= i < |s| :: s[i] == if i < z then '1' else Chars(d)[i - z];
    if z < |s| {
      OneIsZero(s[z]);
      assert DigitOf(Chars(d)[0]) == d[0];
    }
    SkipsOnes(s, 0, z);
  }

  /** Decoding a string without spaces. */
  lemma {:induction false} DecodedWord(s: string, z: nat, word: string, max: int)
    requires NoSpaces(s) && '\0' !in s && z == SkipOnes(s, 0) <= |s| && word == s[z..]
    ensures Decoded(s, max) == Assemble(z, word, max)
  {
    SkipsNone(s, 0);
    SkipsNone(s, z);
    SkipsNone(s, |s|);
    assert s[z..|s|] == word;
  }

  /** Decoding an encoded byte string gives it back. */
  lemma RoundTrip(v: seq<nat>, max: int)
    requires Digits(v, B256) && max >= |v|
    ensures Decoded(Encoded(v), max) == Some(v)
  {
    var z, n := ZeroCount(v), Val(v, B256);
    var d, s, rest := Canon(n, B58), Encoded(v), v[z..];
    ZeroCountSplit(v, z);
    ValZeros(z, rest, B256);
    Unique(Canon(n, B256), rest, B256);
    EncodedParts(z, d, s);
    CharsDigits(d);
    DecodedWord(s, z, Chars(d), max);
  }

  /** The encoding of zeros and a numeral. */
  lemma EncodedOf(z: nat, word: string, s: string, v: seq<nat>)
    requires AllDigits(word) && (word != [] ==> word[0] != '1') && s == Ones(z) + word
    requires v == Zeros(z) + Canon(Val(DigitsOf(word), B58), B256)
    ensures Encoded(v) == s
  {
    var d := DigitsOf(word);
    var n := Val(d, B58);
    ZeroCountIs(z, Canon(n, B256));
    ValZeros(z, Canon(n, B256), B256);
    if word != [] {
      OneIsZero(word[0]);
    }
    Unique(Canon(n, B58), d, B58);
    DigitsChars(word);
  }

  lemma {:induction false} OnesFirst(s: string, b: nat)
    requires b == SkipOnes(s, 0) <= |s|
    ensures s == Ones(b) + s[b..|s|]
  {
    forall k | 0 <= k < b ensures s[k] == '1' {
      SkippedOnes(s, 0, k);
    }
    assert s[..b] == Ones(b);
    assert s == s[..b] + s[b..|s|];
  }

  /** Encoding a decoded string without spaces gives it back. */
  lemma ReverseTrip(s: string, max: int)
    requires NoSpaces(s) && Decoded(s, max).Some?
    ensures Encoded(Decoded(s, max).value) == s
  {
    var b := SkipOnes(s, 0);
    DecodedWord(s, b, s[b..|s|], max);
    OnesFirst(s, b);
    EncodedOf(b, s[b..|s|], s, Decoded(s, max).value);
  }

  // ------------------------------------------------------------- with a checksum

  const INT_MAX := 0x7fff_ffff

  /** A checksum function gives four bytes. */
  ghost predicate Checksum(sum: seq<nat> -> seq<nat>) {
    forall v :: |sum(v)| == 4 && Digits(sum(v), B256)
  }

  function EncodedCheck(v: seq<nat>, sum: seq<nat> -> seq<nat>): string { Encoded(v + sum(v)) }

  function DecodedCheck(s: string, max: int, sum: seq<nat> -> seq<nat>): Option<seq<nat>> {
    match Decoded(s, if max > INT_MAX - 4 then INT_MAX else max + 4)
    case None => None
    case Some(w) =>
      if |w| < 4 then None
      else
        var v := w[..|w| - 4];
        if sum(v) == w[|w| - 4..] then Some(v) else None
  }

  lemma CheckRoundTrip(v: seq<nat>, max: int, sum: seq<nat> -> seq<nat>)
    requires Digits(v, B256) && Checksum(sum) && |v| <= max && |v| + 4 <= INT_MAX
    ensures DecodedCheck(EncodedCheck(v, sum), max, sum) == Some(v)
  {
    var w := v + sum(v);
    RoundTrip(w, if max > INT_MAX - 4 then INT_MAX else max + 4);
    assert w[..|w| - 4] == v && w[|w| - 4..] == sum(v);
  }

  lemma CheckReverseTrip(s: string, max: int, sum: seq<nat> -> seq<nat>)
    requires NoSpaces(s) && DecodedCheck(s, max, sum).Some?
    ensures EncodedCheck(DecodedCheck(s, max, sum).value, sum) == s
  {
    var m := if max > INT_MAX - 4 then INT_MAX else max + 4;
    ReverseTrip(s, m);
    var w := Decoded(s, m).value;
    assert w == w[..|w| - 4] + w[|w| - 4..];
  }
}
