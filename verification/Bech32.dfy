/** The Bech32 string codec: human-readable prefix, separator, data symbols, checksum. */
module Bech32 {
  import opened Basics
  import opened BitXor
  import opened Bech32Checksums
  import opened Bech32Pairs

  datatype Payload = Payload(hrp: string, values: seq<nat>)

  // --------------------------------------------------------------- characters

  function CharOf(v: nat): char
    requires v < 32
  {
    match v
    case 0 => 'q' case 1 => 'p' case 2 => 'z' case 3 => 'r' case 4 => 'y' case 5 => '9' case 6 => 'x' case 7 => '8'
    case 8 => 'g' case 9 => 'f' case 10 => '2' case 11 => 't' case 12 => 'v' case 13 => 'd' case 14 => 'w'
    case 15 => '0' case 16 => 's' case 17 => '3' case 18 => 'j' case 19 => 'n' case 20 => '5' case 21 => '4'
    case 22 => 'k' case 23 => 'h' case 24 => 'c' case 25 => 'e' case 26 => '6' case 27 => 'm' case 28 => 'u'
    case 29 => 'a' case 30 => '7' case _ => 'l'
  }

  /** The reverse table, for both cases; -1 for characters outside the set. */
  function Reverse(c: char): int {
    match c
    case 'q' => 0 case 'p' => 1 case 'z' => 2 case 'r' => 3 case 'y' => 4 case '9' => 5 case 'x' => 6 case '8' => 7
    case 'g' => 8 case 'f' => 9 case '2' => 10 case 't' => 11 case 'v' => 12 case 'd' => 13 case 'w' => 14
    case '0' => 15 case 's' => 16 case '3' => 17 case 'j' => 18 case 'n' => 19 case '5' => 20 case '4' => 21
    case 'k' => 22 case 'h' => 23 case 'c' => 24 case 'e' => 25 case '6' => 26 case 'm' => 27 case 'u' => 28
    case 'a' => 29 case '7' => 30 case 'l' => 31
    case 'Q' => 0 case 'P' => 1 case 'Z' => 2 case 'R' => 3 case 'Y' => 4 case 'X' => 6
    case 'G' => 8 case 'F' => 9 case 'T' => 11 case 'V' => 12 case 'D' => 13 case 'W' => 14
    case 'S' => 16 case 'J' => 18 case 'N' => 19
    case 'K' => 22 case 'H' => 23 case 'C' => 24 case 'E' => 25 case 'M' => 27 case 'U' => 28
    case 'A' => 29 case 'L' => 31
    case _ => -1
  }

  predicate IsLower(c: char) { 'a' <= c <= 'z' }

  predicate IsUpper(c: char) { 'A' <= c <= 'Z' }

  function LowerCase(c: char): char { if IsUpper(c) then c - 'A' + 'a' else c }

  lemma ReverseOfChar(v: nat)
    requires v < 32
    ensures Reverse(CharOf(v)) == v
    ensures CharOf(v) != '1' && !IsUpper(CharOf(v)) && 33 as char <= CharOf(v) <= 126 as char
  {
  }

  lemma CharOfFound(c: char)
    ensures -1 <= Reverse(c) < 32
    ensures Reverse(c) >= 0 ==> LowerCase(c) == CharOf(Reverse(c))
  {
  }

  lemma MissingUpper(c: char)
    requires IsUpper(c) && Reverse(c) == -1
    ensures c == 'B' || c == 'I' || c == 'O'
  {
  }

  lemma MissingInBothCases(c: char)
    requires Reverse(c) == -1
    ensures Reverse(LowerCase(c)) == -1
  {
    if IsUpper(c) {
      MissingUpper(c);
    }
  }

  /** The table is the inverse of the character set, up to case. */
  lemma CharOfReverse(c: char, v: nat)
    requires v < 32
    ensures Reverse(c) == v <==> LowerCase(c) == CharOf(v)
  {
    CharOfFound(c);
    ReverseOfChar(v);
    if Reverse(c) == -1 {
      MissingInBothCases(c);
    } else {
      ReverseOfChar(Reverse(c));
    }
  }

  // ---------------------------------------------------------------- encoding

  predicate Bytes(s: string) { forall i | 0 <= i < |s| :: s[i] < 256 as char }

  predicate NoUpper(s: string) { forall i | 0 <= i < |s| :: !IsUpper(s[i]) }

  function Highs(hrp: string): seq<nat> { seq(|hrp|, i requires 0 <= i < |hrp| => hrp[i] as nat / 32) }

  function Lows5(hrp: string): seq<nat> { seq(|hrp|, i requires 0 <= i < |hrp| => hrp[i] as nat % 32) }

  function Expand(hrp: string): seq<nat> { Highs(hrp) + [0] + Lows5(hrp) }

  lemma ExpandSymbols(hrp: string)
    requires Bytes(hrp)
    ensures Symbols(Expand(hrp))
  {
  }

  predicate Verifies(hrp: string, values: seq<nat>) { Run(1, Expand(hrp) + values) == 1 }

  function Chars(vs: seq<nat>): string
    requires Symbols(vs)
  {
    seq(|vs|, i requires 0 <= i < |vs| => CharOf(vs[i]))
  }

  /** What Encode returns for a byte string and 5-bit values. */
  function Encoding(hrp: string, values: seq<nat>): string
    requires Bytes(hrp) && Symbols(values)
  {
    ChecksumSymbols(hrp, values);
    hrp + "1" + Chars(values + Checksum(Expand(hrp) + values))
  }

  lemma ChecksumSymbols(hrp: string, values: seq<nat>)
    requires Bytes(hrp) && Symbols(values)
    ensures Symbols(Checksum(Expand(hrp) + values))
  {
    ExpandSymbols(hrp);
    ChecksumIff(Expand(hrp) + values, ZEROES);
  }

  /** Appending the checksum makes the check succeed, and no other six symbols do. */
  lemma CreateThenVerify(hrp: string, values: seq<nat>, t: seq<nat>)
    requires Bytes(hrp) && Symbols(values) && |t| == 6 && Symbols(t)
    ensures Verifies(hrp, values + t) <==> t == Checksum(Expand(hrp) + values)
  {
    ExpandSymbols(hrp);
    ChecksumIff(Expand(hrp) + values, t);
    assert Expand(hrp) + (values + t) == (Expand(hrp) + values) + t;
  }

  lemma Regroup(e: seq<nat>, a: seq<nat>, w: seq<nat>, b: seq<nat>)
    ensures e + (a + w + b) == e + a + w + b
  {
  }

  lemma {:induction false} BurstIn(e: seq<nat>, a: seq<nat>, w: seq<nat>, u: seq<nat>, b: seq<nat>)
    requires Symbols(e) && Symbols(a) && Symbols(w) && Symbols(u) && Symbols(b)
    requires |w| == |u| <= 6 && w != u
    ensures Run(1, e + (a + w + b)) != Run(1, e + (a + u + b))
  {
    BurstChanges(e + a, w, u, b);
    Regroup(e, a, w, b);
    Regroup(e, a, u, b);
  }

  /** us and vs agree outside six consecutive places. */
  predicate AgreeOutside(vs: seq<nat>, us: seq<nat>, from: nat) {
    |us| == |vs| && forall i | 0 <= i < |vs| && us[i] != vs[i] :: from <= i < from + 6
  }

  lemma ThreeParts(vs: seq<nat>, from: nat, to: nat)
    requires from <= to <= |vs|
    ensures vs == vs[..from] + vs[from..to] + vs[to..]
  {
    assert vs[from..] == vs[from..to] + vs[to..];
  }

  lemma SameEnds(vs: seq<nat>, us: seq<nat>, from: nat, to: nat)
    requires AgreeOutside(vs, us, from) && from <= to <= |vs|
    requires to == if from + 6 <= |vs| then from + 6 else |vs|
    ensures us[..from] == vs[..from]
    ensures us[to..] == vs[to..]
  {
    assert forall i | 0 <= i < |vs| && (i < from || to <= i) :: us[i] == vs[i];
  }

  lemma SplitAt(vs: seq<nat>, us: seq<nat>, from: nat, to: nat)
    requires AgreeOutside(vs, us, from) && us != vs
    requires to == if from + 6 <= |vs| then from + 6 else |vs|
    ensures from <= to && vs == vs[..from] + vs[from..to] + vs[to..]
    ensures us == vs[..from] + us[from..to] + vs[to..]
  {
    var i :| 0 <= i < |vs| && us[i] != vs[i];
    ThreeParts(vs, from, to);
    ThreeParts(us, from, to);
    SameEnds(vs, us, from, to);
  }

  /** Changes within six consecutive data or checksum symbols are detected. */
  lemma DetectsBurst(hrp: string, vs: seq<nat>, us: seq<nat>, from: nat)
    requires Bytes(hrp) && Symbols(vs) && Symbols(us) && AgreeOutside(vs, us, from) && us != vs
    requires Verifies(hrp, vs)
    ensures !Verifies(hrp, us)
  {
    var to := if from + 6 <= |vs| then from + 6 else |vs|;
    SplitAt(vs, us, from, to);
    ExpandSymbols(hrp);
    BurstIn(Expand(hrp), vs[..from], vs[from..to], us[from..to], vs[to..]);
  }

  /** In particular, changing exactly one symbol is. */
  lemma DetectsOneChange(hrp: string, vs: seq<nat>, k: nat, x: nat)
    requires Bytes(hrp) && Symbols(vs) && k < |vs| && x < 32 && x != vs[k]
    requires Verifies(hrp, vs)
    ensures !Verifies(hrp, vs[k := x])
  {
    DetectsBurst(hrp, vs, vs[k := x], k);
  }

  lemma {:induction false} PairIn(e: seq<nat>, a: seq<nat>, x: nat, u: nat, m: seq<nat>, y: nat, v: nat, b: seq<nat>)
    requires Symbols(e) && Symbols(a) && Symbols(m) && Symbols(b) && x < 32 && u < 32 && y < 32 && v < 32 && |m| < 88
    requires x != u || y != v
    ensures Run(1, e + (a + ([x] + m + [y]) + b)) != Run(1, e + (a + ([u] + m + [v]) + b))
  {
    PairChanges(e + a, x, u, m, y, v, b);
    Regroup(e, a, [x] + m + [y], b);
    Regroup(e, a, [u] + m + [v], b);
  }

  lemma FiveParts(vs: seq<nat>, i: nat, j: nat)
    requires i < j < |vs|
    ensures vs == vs[..i] + ([vs[i]] + vs[i + 1..j] + [vs[j]]) + vs[j + 1..]
  {
  }

  /** us and vs agree but for two places. */
  predicate AgreeBut(vs: seq<nat>, us: seq<nat>, i: nat, j: nat) {
    |us| == |vs| && forall k | 0 <= k < |vs| && us[k] != vs[k] :: k == i || k == j
  }

  lemma SameBetween(vs: seq<nat>, us: seq<nat>, i: nat, j: nat)
    requires i < j < |vs| && AgreeBut(vs, us, i, j)
    ensures us[..i] == vs[..i] && us[i + 1..j] == vs[i + 1..j] && us[j + 1..] == vs[j + 1..]
    ensures us[i] == vs[i] && us[j] == vs[j] ==> us == vs
  {
  }

  /** Changing any two data or checksum symbols up to 88 places apart is detected; within the
      90 characters of an address that is any two symbols at all. */
  lemma {:induction false} DetectsPair(hrp: string, vs: seq<nat>, us: seq<nat>, i: nat, j: nat)
    requires Bytes(hrp) && Symbols(vs) && Symbols(us) && us != vs
    requires i < j < |vs| && j <= i + 88 && AgreeBut(vs, us, i, j)
    requires Verifies(hrp, vs)
    ensures !Verifies(hrp, us)
  {
    SameBetween(vs, us, i, j);
    FiveParts(vs, i, j);
    FiveParts(us, i, j);
    ExpandSymbols(hrp);
    PairIn(Expand(hrp), vs[..i], vs[i], us[i], vs[i + 1..j], vs[j], us[j], vs[j + 1..]);
  }

  /** The expanded prefix around its two symbols for character k. */
  lemma ExpandAround(g: string, k: nat, vs: seq<nat>)
    requires k < |g|
    ensures Expand(g) + vs ==
            Highs(g)[..k] + ([g[k] as nat / 32] + (Highs(g)[k + 1..] + [0] + Lows5(g)[..k]) + [g[k] as nat % 32])
            + (Lows5(g)[k + 1..] + vs)
  {
    assert Highs(g) == Highs(g)[..k] + [g[k] as nat / 32] + Highs(g)[k + 1..];
    assert Lows5(g) == Lows5(g)[..k] + [g[k] as nat % 32] + Lows5(g)[k + 1..];
  }

  /** g and h differ in character k only. */
  predicate OtherAt(g: string, h: string, k: nat) {
    |h| == |g| && k < |g| && h[k] != g[k] && forall i | 0 <= i < |g| && i != k :: h[i] == g[i]
  }

  lemma SameAround(g: string, h: string, k: nat)
    requires OtherAt(g, h, k)
    ensures Highs(h)[..k] == Highs(g)[..k] && Highs(h)[k + 1..] == Highs(g)[k + 1..]
    ensures Lows5(h)[..k] == Lows5(g)[..k] && Lows5(h)[k + 1..] == Lows5(g)[k + 1..]
    ensures g[k] as nat / 32 != h[k] as nat / 32 || g[k] as nat % 32 != h[k] as nat % 32
  {
  }

  lemma PartsSymbols(g: string, k: nat, vs: seq<nat>)
    requires Bytes(g) && k < |g| && Symbols(vs)
    ensures Symbols(Highs(g)[..k]) && Symbols(Highs(g)[k + 1..] + [0] + Lows5(g)[..k])
    ensures Symbols(Lows5(g)[k + 1..] + vs) && g[k] as nat / 32 < 32
  {
  }

  /** The checksum covers the prefix: what verifies under one prefix does not under another
      that differs in one character. */
  lemma {:induction false} DetectsPrefix(g: string, h: string, vs: seq<nat>, k: nat)
    requires Bytes(g) && Bytes(h) && |g| <= 87 && OtherAt(g, h, k) && Symbols(vs) && Verifies(g, vs)
    ensures !Verifies(h, vs)
  {
    SameAround(g, h, k);
    PartsSymbols(g, k, vs);
    PartsSymbols(h, k, vs);
    ExpandAround(g, k, vs);
    ExpandAround(h, k, vs);
    PairChanges(Highs(g)[..k], g[k] as nat / 32, h[k] as nat / 32, Highs(g)[k + 1..] + [0] + Lows5(g)[..k],
        g[k] as nat % 32, h[k] as nat % 32, Lows5(g)[k + 1..] + vs);
  }

  // ---------------------------------------------------------------- decoding

  predicate PrintableChar(c: char) { 33 as char <= c <= 126 as char }

  predicate Printable(s: string) { forall i | 0 <= i < |s| :: PrintableChar(s[i]) }

  predicate HasLower(s: string) { exists i | 0 <= i < |s| :: IsLower(s[i]) }

  predicate HasUpper(s: string) { exists i | 0 <= i < |s| :: IsUpper(s[i]) }

  function Lowered(s: string): string { seq(|s|, i requires 0 <= i < |s| => LowerCase(s[i])) }

  /** A prefix that can be encoded and read back. */
  predicate Clean(h: string) { h != "" && Printable(h) && NoUpper(h) }

  lemma CleanBytes(h: string)
    requires Printable(h)
    ensures Bytes(h)
  {
    assert forall i | 0 <= i < |h| :: PrintableChar(h[i]);
  }

  /** str is an encoding of h and v, in one case, of at most 90 characters. */
  ghost predicate Accepts(str: string, h: string, v: seq<nat>) {
    && |str| <= 90 && !(HasLower(str) && HasUpper(str))
    && Clean(h) && Symbols(v) && Bytes(h)
    && Lowered(str) == Encoding(h, v)
  }

  /** full is what the characters of s stand for. */
  predicate Reads(s: string, full: seq<nat>) {
    |s| == |full| && forall i | 0 <= i < |s| :: Reverse(s[i]) == full[i]
  }

  lemma ReadsIff(s: string, full: seq<nat>)
    requires Symbols(full)
    ensures Reads(s, full) <==> Lowered(s) == Chars(full)
  {
    if Reads(s, full) {
      forall i | 0 <= i < |s|
        ensures Lowered(s)[i] == Chars(full)[i]
      {
        CharOfReverse(s[i], full[i]);
      }
    } else if Lowered(s) == Chars(full) {
      assert |Lowered(s)| == |Chars(full)|;
      forall i | 0 <= i < |s|
        ensures Reverse(s[i]) == full[i]
      {
        assert Lowered(s)[i] == Chars(full)[i];
        CharOfReverse(s[i], full[i]);
      }
    }
  }

  lemma LoweredAppend(a: string, b: string)
    ensures Lowered(a + b) == Lowered(a) + Lowered(b)
  {
  }

  predicate LastOne(s: string, p: int) {
    0 <= p < |s| && s[p] == '1' && forall i | p < i < |s| :: s[i] != '1'
  }

  /** The tests before any symbol is looked up. */
  predicate Framed(s: string, p: int) {
    |s| <= 90 && Printable(s) && !(HasLower(s) && HasUpper(s)) && LastOne(s, p) && 1 <= p && p + 7 <= |s|
  }

  function Full(h: string, v: seq<nat>): seq<nat> { v + Checksum(Expand(h) + v) }

  /** Cut an encoding, up to case, at its separator. */
  lemma Cut(s: string, h: string, full: seq<nat>)
    requires Symbols(full) && Lowered(s) == h + "1" + Chars(full)
    ensures |s| == |h| + 1 + |full| && s[|h|] == '1'
    ensures Lowered(s[..|h|]) == h && Reads(s[|h| + 1..], full)
  {
    var p := |h|;
    var e := Lowered(s);
    assert |e| == |s| && |e| == p + 1 + |full|;
    assert Lowered(s[..p]) == e[..p] == h;
    assert e[p] == '1' && e[p] == LowerCase(s[p]);
    assert Lowered(s[p + 1..]) == e[p + 1..] == Chars(full);
    ReadsIff(s[p + 1..], full);
  }

  lemma Paste(s: string, h: string, full: seq<nat>)
    requires Symbols(full) && |h| < |s| && s[|h|] == '1'
    requires Lowered(s[..|h|]) == h && Reads(s[|h| + 1..], full)
    ensures Lowered(s) == h + "1" + Chars(full)
  {
    var p := |h|;
    ReadsIff(s[p + 1..], full);
    LoweredAppend(s[..p] + "1", s[p + 1..]);
    LoweredAppend(s[..p], "1");
    assert s == s[..p] + "1" + s[p + 1..];
  }

  lemma PrintableLowered(s: string)
    ensures Printable(s) <==> Printable(Lowered(s))
    ensures NoUpper(Lowered(s))
  {
    assert forall i | 0 <= i < |s| :: PrintableChar(s[i]) <==> PrintableChar(Lowered(s)[i]);
    assert |Lowered(s)| == |s|;
  }

  lemma ReadsChars(s: string, full: seq<nat>)
    requires Reads(s, full) && Symbols(full)
    ensures Printable(s) && forall i | 0 <= i < |s| :: s[i] != '1'
  {
    forall i | 0 <= i < |s|
      ensures PrintableChar(s[i]) && s[i] != '1'
    {
      CharOfReverse(s[i], full[i]);
      ReverseOfChar(full[i]);
    }
  }

  lemma FrameFrom(s: string, h: string, full: seq<nat>)
    requires Clean(h) && Symbols(full) && |full| >= 6 && |s| <= 90 && !(HasLower(s) && HasUpper(s))
    requires |s| == |h| + 1 + |full| && s[|h|] == '1'
    requires Lowered(s[..|h|]) == h && Reads(s[|h| + 1..], full)
    ensures Framed(s, |h|)
  {
    var p := |h|;
    ReadsChars(s[p + 1..], full);
    PrintableLowered(s[..p]);
    assert forall i | 0 <= i < p :: s[i] == s[..p][i];
    assert forall i | p < i < |s| :: s[i] == s[p + 1..][i - p - 1];
  }

  /** What decoding looks for is there whenever the string is an encoding. */
  lemma Necessary(s: string, h: string, v: seq<nat>)
    requires Accepts(s, h, v)
    ensures Symbols(Full(h, v)) && Framed(s, |h|)
    ensures Lowered(s[..|h|]) == h && Reads(s[|h| + 1..], Full(h, v))
    ensures Verifies(h, Full(h, v))
  {
    ChecksumSymbols(h, v);
    Cut(s, h, Full(h, v));
    FrameFrom(s, h, Full(h, v));
    CreateThenVerify(h, v, Checksum(Expand(h) + v));
  }

  /** And finding it makes the string an encoding. */
  lemma Sufficient(s: string, p: nat, full: seq<nat>)
    requires Framed(s, p) && Symbols(full) && Reads(s[p + 1..], full)
    requires Verifies(Lowered(s[..p]), full)
    ensures Accepts(s, Lowered(s[..p]), full[..|full| - 6])
  {
    var h, v, t := Lowered(s[..p]), full[..|full| - 6], full[|full| - 6..];
    assert full == v + t;
    PrintableLowered(s[..p]);
    CleanBytes(h);
    CreateThenVerify(h, v, t);
    assert Full(h, v) == full;
    Paste(s, h, full);
  }

  lemma OneSeparator(s: string, p: int, q: int)
    requires LastOne(s, p) && LastOne(s, q)
    ensures p == q
  {
  }

  /** A string is the encoding of at most one payload. */
  lemma AcceptsUnique(s: string, h: string, v: seq<nat>, g: string, w: seq<nat>)
    requires Accepts(s, h, v) && Accepts(s, g, w)
    ensures h == g && v == w
  {
    Necessary(s, h, v);
    Necessary(s, g, w);
    OneSeparator(s, |h|, |g|);
    assert Full(h, v) == Full(g, w);
    assert v == Full(h, v)[..|v|] && w == Full(g, w)[..|w|];
  }

  lemma CharsNoUpper(full: seq<nat>)
    requires Symbols(full)
    ensures NoUpper(Chars(full))
  {
    forall i | 0 <= i < |full|
      ensures !IsUpper(Chars(full)[i])
    {
      ReverseOfChar(full[i]);
    }
  }

  /** An encoding is accepted exactly when its prefix is non-empty and printable and it is not too long. */
  lemma RoundTripIff(h: string, v: seq<nat>)
    requires Bytes(h) && NoUpper(h) && Symbols(v)
    ensures Accepts(Encoding(h, v), h, v) <==> h != "" && Printable(h) && |h| + 7 + |v| <= 90
  {
    ChecksumSymbols(h, v);
    CharsNoUpper(Full(h, v));
    var s := Encoding(h, v);
    assert NoUpper(s);
    assert Lowered(s) == s;
  }

  // ------------------------------------------------------------- the methods

  lemma {:induction false} FeedFive(c: nat, c0: nat, k0: nat, k1: nat, k2: nat, k3: nat, k4: nat)
    ensures Feed(c, c0, [k0, k1, k2, k3, k4]) ==
            Pick(Pick(Pick(Pick(Pick(c, c0 % 2 == 1, k0), c0 / 2 % 2 == 1, k1), c0 / 2 / 2 % 2 == 1, k2),
                      c0 / 2 / 2 / 2 % 2 == 1, k3), c0 / 2 / 2 / 2 / 2 % 2 == 1, k4)
  {
    FeedHead(c, c0, k0, [k1, k2, k3, k4]);
    var c1 := Pick(c, c0 % 2 == 1, k0);
    FeedHead(c1, c0 / 2, k1, [k2, k3, k4]);
    var c2 := Pick(c1, c0 / 2 % 2 == 1, k1);
    FeedHead(c2, c0 / 2 / 2, k2, [k3, k4]);
    var c3 := Pick(c2, c0 / 2 / 2 % 2 == 1, k2);
    FeedHead(c3, c0 / 2 / 2 / 2, k3, [k4]);
    FeedHead(Pick(c3, c0 / 2 / 2 / 2 % 2 == 1, k3), c0 / 2 / 2 / 2 / 2, k4, []);
    assert [k0] + [k1, k2, k3, k4] == [k0, k1, k2, k3, k4];
    assert [k1] + [k2, k3, k4] == [k1, k2, k3, k4];
    assert [k2] + [k3, k4] == [k2, k3, k4];
    assert [k3] + [k4] == [k3, k4];
    assert [k4] + [] == [k4];
  }

  lemma {:induction false} FeedHead(c: nat, c0: nat, k: nat, ks: seq<nat>)
    ensures Feed(c, c0, [k] + ks) == Feed(Pick(c, c0 % 2 == 1, k), c0 / 2, ks)
  {
    assert ([k] + ks)[1..] == ks;
  }

  /** One turn of the loop; c0's bits are tested one after the other. */
  method PolyStep(c: nat, v: nat) returns (r: nat)
    ensures r == Step(c, v)
  {
    var c0 := c / TOP;
    r := Xor((c % TOP) * 32, v);
    FeedFive(r, c0, 0x3b6a57b2, 0x26508e6d, 0x1ea119fa, 0x3d4233dd, 0x2a1462b3);
    if c0 % 2 == 1 { r := Xor(r, 0x3b6a57b2); }
    if c0 / 2 % 2 == 1 { r := Xor(r, 0x26508e6d); }
    if c0 / 2 / 2 % 2 == 1 { r := Xor(r, 0x1ea119fa); }
    if c0 / 2 / 2 / 2 % 2 == 1 { r := Xor(r, 0x3d4233dd); }
    if c0 / 2 / 2 / 2 / 2 % 2 == 1 { r := Xor(r, 0x2a1462b3); }
  }

  method PolyMod(vs: seq<nat>) returns (c: nat)
    requires Symbols(vs)
    ensures c == Run(1, vs) && c < LIMIT
  {
    c := 1;
    for i := 0 to |vs|
      invariant c == Run(1, vs[..i]) && c < LIMIT
    {
      StepBound(c, vs[i]);
      RunNext(1, vs[..i], vs[i]);
      assert vs[..i + 1] == vs[..i] + [vs[i]];
      c := PolyStep(c, vs[i]);
    }
    assert vs[..|vs|] == vs;
  }

  /** The high and the low symbol of a character. */
  predicate TwoSymbols(c: char, high: nat, low: nat) { c as nat == 32 * high + low && low < 32 }

  method ExpandHRP(hrp: string) returns (r: seq<nat>)
    ensures r == Expand(hrp) && |r| == 2 * |hrp| + 1 && r[|hrp|] == 0
    ensures forall i | 0 <= i < |hrp| :: TwoSymbols(hrp[i], r[i], r[|hrp| + 1 + i])
  {
    var n := |hrp|;
    var ret := new nat[2 * n + 1](_ => 0);
    for i := 0 to n
      invariant forall k | 0 <= k < i :: ret[k] == hrp[k] as nat / 32 && ret[k + n + 1] == hrp[k] as nat % 32
    {
      ret[i] := hrp[i] as nat / 32;
      ret[i + n + 1] := hrp[i] as nat % 32;
    }
    ret[n] := 0;
    r := ret[..];
  }

  method VerifyChecksum(hrp: string, values: seq<nat>) returns (ok: bool)
    requires Bytes(hrp) && Symbols(values)
    ensures ok <==> Verifies(hrp, values)
  {
    var enc := ExpandHRP(hrp);
    ExpandSymbols(hrp);
    var c := PolyMod(enc + values);
    ok := c == 1;
  }

  /** m shifted right by 5 * j bits. */
  function Down(m: nat, j: nat): nat { if j == 0 then m else Down(m / 32, j - 1) }

  lemma {:induction false} GroupAt(m: nat, n: nat, i: nat)
    requires i < n
    ensures Groups(m, n)[i] == Down(m, n - 1 - i) % 32
    decreases n
  {
    if i < n - 1 {
      GroupAt(m / 32, n - 1, i);
    }
  }

  method CreateChecksum(hrp: string, values: seq<nat>) returns (r: seq<nat>)
    requires Bytes(hrp) && Symbols(values)
    ensures r == Checksum(Expand(hrp) + values)
    ensures Symbols(r) && Verifies(hrp, values + r)
  {
    var enc := ExpandHRP(hrp);
    enc := enc + values;
    ExpandSymbols(hrp);
    var c := PolyMod(enc + ZEROES);
    var m := Xor(c, 1);
    r := [];
    for i := 0 to 6
      invariant |r| == i && forall k | 0 <= k < i :: r[k] == Groups(m, 6)[k]
    {
      GroupAt(m, 6, i);
      r := r + [Down(m, 5 - i) % 32];
    }
    assert r == Groups(m, 6);
    ChecksumSymbols(hrp, values);
    CreateThenVerify(hrp, values, r);
  }

  lemma CharsNext(vs: seq<nat>, x: nat)
    requires Symbols(vs) && x < 32
    ensures Symbols(vs + [x]) && Chars(vs + [x]) == Chars(vs) + [CharOf(x)]
  {
  }

  /** The loop of Encode. */
  method AppendChars(prefix: string, vs: seq<nat>) returns (r: string)
    requires Symbols(vs)
    ensures r == prefix + Chars(vs)
  {
    r := prefix;
    for i := 0 to |vs|
      invariant r == prefix + Chars(vs[..i])
    {
      CharsNext(vs[..i], vs[i]);
      assert vs[..i + 1] == vs[..i] + [vs[i]];
      r := r + [CharOf(vs[i])];
    }
    assert vs[..|vs|] == vs;
  }

  method Encode(hrp: string, values: seq<nat>) returns (r: string)
    requires Bytes(hrp) && NoUpper(hrp) && Symbols(values)
    ensures r == Encoding(hrp, values)
  {
    var checksum := CreateChecksum(hrp, values);
    r := AppendChars(hrp + "1", values + checksum);
  }

  /** The first loop of Decode. */
  method Scan(s: string) returns (ok: bool, lower: bool, upper: bool)
    ensures ok <==> Printable(s)
    ensures ok ==> (lower <==> HasLower(s)) && (upper <==> HasUpper(s))
  {
    lower, upper := false, false;
    for i := 0 to |s|
      invariant forall k | 0 <= k < i :: PrintableChar(s[k])
      invariant lower <==> exists k | 0 <= k < i :: IsLower(s[k])
      invariant upper <==> exists k | 0 <= k < i :: IsUpper(s[k])
    {
      if IsLower(s[i]) {
        lower := true;
      } else if IsUpper(s[i]) {
        upper := true;
      } else if s[i] < 33 as char || s[i] > 126 as char {
        assert !PrintableChar(s[i]);
        return false, lower, upper;
      }
    }
    return true, lower, upper;
  }

  method FindLast(s: string) returns (p: int)
    ensures p >= 0 ==> LastOne(s, p)
    ensures p < 0 ==> forall i | 0 <= i < |s| :: s[i] != '1'
  {
    p := |s| - 1;
    while p >= 0 && s[p] != '1'
      invariant -1 <= p < |s| && forall i | p < i < |s| :: s[i] != '1'
    {
      p := p - 1;
    }
  }

  method LookUp(s: string) returns (r: Option<seq<nat>>)
    ensures r.Some? ==> Reads(s, r.value) && Symbols(r.value)
    ensures r.None? ==> exists i | 0 <= i < |s| :: Reverse(s[i]) == -1
  {
    var vs: seq<nat> := [];
    for i := 0 to |s|
      invariant |vs| == i && Symbols(vs) && forall k | 0 <= k < i :: Reverse(s[k]) == vs[k]
    {
      var rev := Reverse(s[i]);
      CharOfFound(s[i]);
      if rev == -1 {
        return None;
      }
      vs := vs + [rev];
    }
    return Some(vs);
  }

  method LowerAll(s: string) returns (r: string)
    ensures r == Lowered(s)
  {
    r := "";
    for i := 0 to |s|
      invariant |r| == i && forall k | 0 <= k < i :: r[k] == LowerCase(s[k])
    {
      r := r + [LowerCase(s[i])];
    }
  }

  lemma SameReading(s: string, a: seq<nat>, b: seq<nat>)
    requires Reads(s, a) && Reads(s, b)
    ensures a == b
  {
  }

  lemma NotFramed(s: string)
    requires forall p: nat :: !Framed(s, p)
    ensures forall h, v :: !Accepts(s, h, v)
  {
    forall h, v
      ensures !Accepts(s, h, v)
    {
      if Accepts(s, h, v) {
        Necessary(s, h, v);
      }
    }
  }

  lemma NotKnown(s: string, p: nat, i: nat)
    requires Framed(s, p) && p + 1 + i < |s| && Reverse(s[p + 1..][i]) == -1
    ensures forall h, v :: !Accepts(s, h, v)
  {
    forall h, v
      ensures !Accepts(s, h, v)
    {
      if Accepts(s, h, v) {
        Necessary(s, h, v);
        OneSeparator(s, p, |h|);
      }
    }
  }

  lemma NotVerified(s: string, p: nat, full: seq<nat>)
    requires Framed(s, p) && Symbols(full) && Reads(s[p + 1..], full)
    requires !Verifies(Lowered(s[..p]), full)
    ensures forall h, v :: !Accepts(s, h, v)
  {
    forall h, v
      ensures !Accepts(s, h, v)
    {
      if Accepts(s, h, v) {
        Necessary(s, h, v);
        OneSeparator(s, p, |h|);
        SameReading(s[p + 1..], Full(h, v), full);
      }
    }
  }

  /** Decoding finds the payload whose encoding the string is, up to case, whenever there is one. */
  method Decode(str: string) returns (r: Option<Payload>)
    ensures r.Some? ==> Accepts(str, r.value.hrp, r.value.values)
    ensures r.None? ==> forall h, v :: !Accepts(str, h, v)
  {
    var ok, lower, upper := Scan(str);
    var pos := FindLast(str);
    if !ok || (lower && upper) || |str| > 90 || pos < 1 || pos + 7 > |str| {
      NotFramedFrom(str, ok, lower, upper, pos);
      return None;
    }
    r := DecodeAt(str, pos);
  }

  /** The rest of Decode, once the separator is known. */
  method DecodeAt(str: string, pos: nat) returns (r: Option<Payload>)
    requires Framed(str, pos)
    ensures r.Some? ==> Accepts(str, r.value.hrp, r.value.values)
    ensures r.None? ==> forall h, v :: !Accepts(str, h, v)
  {
    var data := str[pos + 1..];
    var values := LookUp(data);
    if values.None? {
      var i :| 0 <= i < |data| && Reverse(data[i]) == -1;
      NotKnown(str, pos, i);
      return None;
    }
    var hrp := LowerAll(str[..pos]);
    PrintableLowered(str[..pos]);
    CleanBytes(hrp);
    var good := VerifyChecksum(hrp, values.value);
    if !good {
      NotVerified(str, pos, values.value);
      return None;
    }
    Sufficient(str, pos, values.value);
    return Some(Payload(hrp, values.value[..|values.value| - 6]));
  }

  lemma NotFramedFrom(s: string, ok: bool, lower: bool, upper: bool, pos: int)
    requires ok <==> Printable(s)
    requires ok ==> (lower <==> HasLower(s)) && (upper <==> HasUpper(s))
    requires pos >= 0 ==> LastOne(s, pos)
    requires pos < 0 ==> forall i | 0 <= i < |s| :: s[i] != '1'
    requires !ok || (lower && upper) || |s| > 90 || pos < 1 || pos + 7 > |s|
    ensures forall h, v :: !Accepts(s, h, v)
  {
    forall p: nat
      ensures !Framed(s, p)
    {
      if LastOne(s, p) && pos >= 0 {
        OneSeparator(s, p, pos);
      }
    }
    NotFramed(s);
  }

  /** Encoding and then decoding gives the payload back, exactly for the payloads that fit. */
  method EncodeAndDecode(hrp: string, values: seq<nat>) returns (r: Option<Payload>)
    requires Bytes(hrp) && NoUpper(hrp) && Symbols(values)
    ensures r == Some(Payload(hrp, values)) <==> hrp != "" && Printable(hrp) && |hrp| + 7 + |values| <= 90
  {
    var s := Encode(hrp, values);
    RoundTripIff(hrp, values);
    r := Decode(s);
    if r.Some? && Accepts(s, hrp, values) {
      AcceptsUnique(s, hrp, values, r.value.hrp, r.value.values);
    }
  }
}
