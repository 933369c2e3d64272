/** Which strings Base58 decoding accepts, and what for: exactly the encodings, with spaces
    around them, of byte strings that are not too long. */
module Base58Strings {
  import opened Basics
  import opened Radix
  import opened Base58Codec

  // ---------------------------------------------------------------- the alphabet

  /** The characters are the digits and letters but 0, I, O and l, in the order of their codes. */
  lemma Alphabet(c: char, d: nat, e: nat)
    ensures DigitOf(c) >= 0 <==>
            ('0' <= c <= '9' || 'A' <= c <= 'Z' || 'a' <= c <= 'z') && c != '0' && c != 'I' && c != 'O' && c != 'l'
    ensures d < e < 58 ==> CharOf(d) < CharOf(e)
    ensures IsSpace(c) <==> c as int == 32 || 9 <= c as int <= 13
  {
  }

  lemma {:induction false} ValNext(s: seq<nat>, x: nat, t: seq<nat>, b: Base)
    requires t == s + [x]
    ensures Val(t, b) == Mul(b, Val(s, b)) + x
  {
    assert t[..|s|] == s;
  }

  lemma {:induction false} BytesValue(v: seq<nat>)
    requires v == [0x57, 0x2e, 0x47, 0x94]
    ensures Val(v, B256) == 0x572e4794 && ZeroCount(v) == 0
  {
    ValNext([], 0x57, [0x57], B256);
    ValNext([0x57], 0x2e, [0x57, 0x2e], B256);
    ValNext([0x57, 0x2e], 0x47, [0x57, 0x2e, 0x47], B256);
    ValNext([0x57, 0x2e, 0x47], 0x94, [0x57, 0x2e, 0x47, 0x94], B256);
  }

  lemma {:induction false} DigitsValue(d: seq<nat>)
    requires d == [2, 13, 14, 27, 6, 44]
    ensures Val(d, B58) == 0x572e4794 && Digits(d, B58) && Canonical(d)
  {
    ValNext([], 2, [2], B58);
    ValNext([2], 13, [2, 13], B58);
    ValNext([2, 13], 14, [2, 13, 14], B58);
    ValNext([2, 13, 14], 27, [2, 13, 14, 27], B58);
    ValNext([2, 13, 14, 27], 6, [2, 13, 14, 27, 6], B58);
    ValNext([2, 13, 14, 27, 6], 44, [2, 13, 14, 27, 6, 44], B58);
  }

  lemma PublishedChars(d: seq<nat>)
    requires d == [2, 13, 14, 27, 6, 44] && Digits(d, B58)
    ensures Chars(d) == "3EFU7m"
  {
  }

  lemma {:induction false} PublishedDigits(n: nat, d: seq<nat>)
    requires d == [2, 13, 14, 27, 6, 44] && n == 0x572e4794
    ensures Canon(n, B58) == d && Digits(d, B58)
  {
    DigitsValue(d);
    Unique(Canon(n, B58), d, B58);
  }

  /** The most significant byte and the most significant character come first. */
  lemma {:induction false} PublishedCode(v: seq<nat>)
    requires v == [0x57, 0x2e, 0x47, 0x94]
    ensures Encoded(v) == "3EFU7m"
  {
    BytesValue(v);
    PublishedDigits(Val(v, B256), [2, 13, 14, 27, 6, 44]);
    PublishedChars([2, 13, 14, 27, 6, 44]);
    assert Ones(0) + "3EFU7m" == "3EFU7m";
  }

  // -------------------------------------------------------------- spaces around

  lemma {:induction false} SpacesTo(s: string, i: nat, j: nat)
    requires i <= j <= |s| && (forall k | i <= k < j :: IsSpace(s[k])) && (j < |s| ==> !IsSpace(s[j]))
    ensures SkipSpaces(s, i) == j
    decreases j - i
  {
    if i < j {
      SpacesTo(s, i + 1, j);
    }
  }

  lemma {:induction false} WordTo(s: string, i: nat, j: nat)
    requires i <= j <= |s| && (forall k | i <= k < j :: !IsSpace(s[k])) && (j < |s| ==> IsSpace(s[j]))
    ensures SkipWord(s, i) == j
    decreases j - i
  {
    if i < j {
      WordTo(s, i + 1, j);
    }
  }

  lemma {:induction false} SkippedSpaces(s: string, i: nat, k: nat)
    requires i <= |s| && i <= k < SkipSpaces(s, i)
    ensures IsSpace(s[k])
    decreases |s| - i
  {
    if i < k {
      SkippedSpaces(s, i + 1, k);
    }
  }

  lemma {:induction false} SkippedWord(s: string, i: nat, k: nat)
    requires i <= |s| && i <= k < SkipWord(s, i)
    ensures !IsSpace(s[k])
    decreases |s| - i
  {
    if i < k {
      SkippedWord(s, i + 1, k);
    }
  }

  /** All outside positions i to j are spaces. */
  ghost predicate Outside(s: string, i: nat, j: nat) {
    i <= j <= |s| && forall k | 0 <= k < |s| && (k < i || k >= j) :: s[k] as int == 32 || 9 <= s[k] as int <= 13
  }

  /** s is t with spaces around it. */
  ghost predicate Padded(s: string, t: string) { exists i: nat, j: nat | Outside(s, i, j) :: s[i..j] == t }

  lemma {:induction false} OnesWithin(s: string, i: nat, j: nat, w: string, o: nat)
    requires Outside(s, i, j) && w == s[i..j] && o == SkipOnes(w, 0)
    ensures SkipOnes(s, i) == i + o
  {
    forall k | i <= k < i + o ensures s[k] == '1' {
      SkippedOnes(w, 0, k - i);
      assert w[k - i] == s[k];
    }
    if i + o < j {
      assert s[i + o] == w[o];
    }
    SkipsOnes(s, i, i + o);
  }

  lemma ZeroWithin(s: string, i: nat, j: nat, w: string)
    requires Outside(s, i, j) && w == s[i..j]
    ensures '\0' in s <==> '\0' in w
  {
    if '\0' in s {
      var k :| 0 <= k < |s| && s[k] == '\0';
      assert w[k - i] == '\0';
    }
  }

  /** Where the parts of a string end. */
  ghost predicate PartsAt(s: string, a: nat, b: nat, e: nat) {
    && a <= b <= e <= |s| && SkipSpaces(s, 0) == a && SkipOnes(s, a) == b && SkipWord(s, b) == e
    && SkipSpaces(s, e) == |s|
  }

  lemma {:induction false} DecodedParts(s: string, a: nat, b: nat, e: nat, max: int)
    requires PartsAt(s, a, b, e) && '\0' !in s
    ensures Decoded(s, max) == Assemble(b - a, s[b..e], max)
  {
  }

  lemma {:induction false} TrimmedParts(s: string, i: nat, j: nat, w: string, o: nat)
    requires Outside(s, i, j) && w == s[i..j] && i < j && NoSpaces(w) && o == SkipOnes(w, 0)
    ensures PartsAt(s, i, i + o, j)
  {
    assert forall k | i <= k < j :: s[k] == w[k - i];
    SpacesTo(s, 0, i);
    OnesWithin(s, i, j, w, o);
    WordTo(s, i + o, j);
    SpacesTo(s, j, |s|);
  }

  /** Spaces around a word make no difference. */
  lemma {:induction false} Trimmed(s: string, i: nat, j: nat, w: string, max: int)
    requires Outside(s, i, j) && w == s[i..j] && i < j && NoSpaces(w)
    ensures Decoded(s, max) == Decoded(w, max)
  {
    ZeroWithin(s, i, j, w);
    var o := SkipOnes(w, 0);
    TrimmedParts(s, i, j, w, o);
    if '\0' !in w {
      DecodedParts(s, i, i + o, j, max);
      DecodedWord(w, o, w[o..], max);
      assert s[i + o..j] == w[o..];
    }
  }

  lemma {:induction false} OnlySpaces(s: string, max: int)
    requires Outside(s, |s|, |s|)
    ensures Decoded(s, max) == Some([]) && Encoded([]) == ""
  {
    SpacesTo(s, 0, |s|);
    ZeroWithin(s, |s|, |s|, "");
    assert s[|s|..|s|] == "" && DigitsOf("") == [] && Zeros(0) + [] == [];
  }

  /** What is decoded is a word with spaces around it. */
  lemma {:induction false} DecodedTrimmed(s: string, max: int) returns (i: nat, j: nat)
    requires Decoded(s, max).Some?
    ensures Outside(s, i, j) && NoSpaces(s[i..j])
  {
    i := SkipSpaces(s, 0);
    var b := SkipOnes(s, i);
    j := SkipWord(s, b);
    forall k | 0 <= k < |s| && (k < i || k >= j) ensures IsSpace(s[k]) {
      SkippedSpaces(s, if k < i then 0 else j, k);
    }
    forall k | i <= k < j ensures !IsSpace(s[k]) {
      if k < b {
        SkippedOnes(s, i, k);
      } else {
        SkippedWord(s, b, k);
      }
    }
  }

  /** A word that decodes is not empty, and within the limit. */
  lemma {:induction false} WithinLimit(s: string, max: int)
    requires NoSpaces(s) && Decoded(s, max).Some?
    ensures var v := Decoded(s, max).value; Digits(v, B256) && (v == [] || |v| <= max)
  {
    DecodedWord(s, SkipOnes(s, 0), s[SkipOnes(s, 0)..], max);
  }

  lemma {:induction false} EncodedWord(v: seq<nat>)
    requires Digits(v, B256)
    ensures NoSpaces(Encoded(v)) && (Encoded(v) == "" <==> v == [])
  {
    EncodedParts(ZeroCount(v), Canon(Val(v, B256), B58), Encoded(v));
    RoundTrip(v, |v|);
    OnlySpaces("", |v|);
  }

  /** A string decodes to v exactly when it is the encoding of v with spaces around it. */
  lemma {:induction false} DecodedIff(s: string, max: int, v: seq<nat>)
    ensures Decoded(s, max) == Some(v) <==>
            Digits(v, B256) && (v == [] || |v| <= max) && Padded(s, Encoded(v))
  {
    if Decoded(s, max) == Some(v) {
      var i, j := DecodedTrimmed(s, max);
      if i == j {
        OnlySpaces(s, max);
      } else {
        Trimmed(s, i, j, s[i..j], max);
        WithinLimit(s[i..j], max);
        ReverseTrip(s[i..j], max);
      }
    }
    if Digits(v, B256) && (v == [] || |v| <= max) && Padded(s, Encoded(v)) {
      var i: nat, j: nat :| Outside(s, i, j) && s[i..j] == Encoded(v);
      EncodedWord(v);
      if i == j {
        OnlySpaces(s, max);
      } else {
        Trimmed(s, i, j, Encoded(v), max);
        RoundTrip(v, max);
      }
    }
  }
}
