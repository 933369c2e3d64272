/** Partial Merkle trees (section "Partial Merkle branch format" of BIP 37).

    A node of the tree is given here by its height h and its first transaction lo,
    so that its children are (h-1, lo) and (h-1, lo + 2^(h-1)). The class below
    runs the code's own traversals, which number nodes by position, and is proved
    against these functions. Node hashes are free: hashing two children is a
    constructor, so distinct children give distinct parents. */
module MerkleTrees {
  import opened Basics
  import opened Powers

  datatype Hash = Digest(id: nat) | Node(left: Hash, right: Hash)

  // ------------------------------------------------------------ the full tree

  /** Does node (h, lo) of a tree over n transactions have a right child? */
  predicate HasRight(n: nat, h: nat, lo: nat)
    requires h > 0
  {
    lo + Pow2(h - 1) < n
  }

  /** The Merkle hash of node (h, lo); a missing right child repeats the left one. */
  function TreeHash(txids: seq<Hash>, h: nat, lo: nat): Hash
    requires lo < |txids|
  {
    if h == 0 then txids[lo]
    else
      var left := TreeHash(txids, h - 1, lo);
      Node(left, if HasRight(|txids|, h, lo) then TreeHash(txids, h - 1, lo + Pow2(h - 1)) else left)
  }

  predicate Distinct(txids: seq<Hash>) { forall i, j | 0 <= i < j < |txids| :: txids[i] != txids[j] }

  /** The leftmost transaction below a node, read off its hash. */
  function LeftSpine(x: Hash, h: nat): Option<Hash> {
    if h == 0 then Some(x) else if x.Node? then LeftSpine(x.left, h - 1) else None
  }

  lemma {:induction false} SpineIsFirst(txids: seq<Hash>, h: nat, lo: nat)
    requires lo < |txids|
    ensures LeftSpine(TreeHash(txids, h, lo), h) == Some(txids[lo])
  {
    if h > 0 {
      SpineIsFirst(txids, h - 1, lo);
    }
  }

  /** Subtrees over distinct transactions never share a hash. */
  lemma {:induction false} SubtreesDiffer(txids: seq<Hash>, h: nat, lo: nat, hi: nat)
    requires Distinct(txids) && lo < hi < |txids|
    ensures TreeHash(txids, h, lo) != TreeHash(txids, h, hi)
  {
    SpineIsFirst(txids, h, lo);
    SpineIsFirst(txids, h, hi);
  }

  // ------------------------------------------------------------------- matches

  /** The matched positions in [lo, hi), in order. */
  function Matched(mask: seq<bool>, lo: nat, hi: int): (r: seq<nat>)
    requires hi <= |mask|
    decreases hi - lo
  {
    if lo >= hi then [] else (if mask[lo] then [lo] else []) + Matched(mask, lo + 1, hi)
  }

  lemma {:induction false} MatchedAppend(mask: seq<bool>, lo: nat, mid: nat, hi: int)
    requires lo <= mid <= hi <= |mask|
    ensures Matched(mask, lo, hi) == Matched(mask, lo, mid) + Matched(mask, mid, hi)
    decreases mid - lo
  {
    if lo < mid {
      MatchedAppend(mask, lo + 1, mid, hi);
    }
  }

  lemma {:induction false} MatchedIs(mask: seq<bool>, lo: nat, hi: int, i: nat)
    requires hi <= |mask|
    ensures i in Matched(mask, lo, hi) <==> lo <= i < hi && mask[i]
    decreases hi - lo
  {
    if lo < hi {
      MatchedIs(mask, lo + 1, hi, i);
    }
  }

  /** The matched transactions below node (h, lo). */
  function Below(mask: seq<bool>, h: nat, lo: nat): seq<nat> { Matched(mask, lo, Min(lo + Pow2(h), |mask|)) }

  lemma BelowSplit(mask: seq<bool>, h: nat, lo: nat)
    requires h > 0 && lo < |mask|
    ensures Below(mask, h, lo) ==
            Below(mask, h - 1, lo) + if HasRight(|mask|, h, lo) then Below(mask, h - 1, lo + Pow2(h - 1)) else []
  {
    MatchedAppend(mask, lo, Min(lo + Pow2(h - 1), |mask|), Min(lo + Pow2(h), |mask|));
  }

  lemma BelowInRange(mask: seq<bool>, h: nat, lo: nat)
    ensures forall i | 0 <= i < |Below(mask, h, lo)| :: Below(mask, h, lo)[i] < |mask|
  {
    forall i | 0 <= i < |Below(mask, h, lo)| ensures Below(mask, h, lo)[i] < |mask| {
      MatchedIs(mask, lo, Min(lo + Pow2(h), |mask|), Below(mask, h, lo)[i]);
    }
  }

  // ------------------------------------------------------------------- encoder

  datatype Partial = Partial(bits: seq<bool>, hashes: seq<Hash>)

  /** What the encoder writes for node (h, lo). */
  function Build(txids: seq<Hash>, mask: seq<bool>, h: nat, lo: nat): Partial
    requires |mask| == |txids| && lo < |txids|
  {
    var parent := Below(mask, h, lo) != [];
    if h == 0 || !parent then Partial([parent], [TreeHash(txids, h, lo)])
    else
      var l := Build(txids, mask, h - 1, lo);
      if HasRight(|txids|, h, lo) then
        var r := Build(txids, mask, h - 1, lo + Pow2(h - 1));
        Partial([true] + l.bits + r.bits, l.hashes + r.hashes)
      else Partial([true] + l.bits, l.hashes)
  }

  // ------------------------------------------------------------------- decoder

  /** A successful traversal: the node's hash, how much was consumed, what matched. */
  datatype Found = Found(hash: Hash, bitsUsed: nat, hashUsed: nat, matches: seq<(Hash, nat)>)

  /** What the decoder reads for node (h, lo) from the given cursors; None is failure. */
  function Extract(n: nat, bits: seq<bool>, hashes: seq<Hash>, h: nat, lo: nat, b: nat, k: nat): Option<Found>
    decreases h
  {
    if b >= |bits| then None
    else if h == 0 || !bits[b] then
      if k >= |hashes| then None
      else Some(Found(hashes[k], b + 1, k + 1, if h == 0 && bits[b] then [(hashes[k], lo)] else []))
    else
      match Extract(n, bits, hashes, h - 1, lo, b + 1, k)
      case None => None
      case Some(l) =>
        if HasRight(n, h, lo) then
          match Extract(n, bits, hashes, h - 1, lo + Pow2(h - 1), l.bitsUsed, l.hashUsed)
          case None => None
          case Some(r) => if r.hash == l.hash then None else Some(Join(l, r))
        else Some(l.(hash := Node(l.hash, l.hash)))
  }

  function Join(l: Found, r: Found): Found {
    Found(Node(l.hash, r.hash), r.bitsUsed, r.hashUsed, l.matches + r.matches)
  }

  /** What the decoder should report for matched positions `at`. */
  function Report(txids: seq<Hash>, at: seq<nat>): seq<(Hash, nat)>
    requires forall i | 0 <= i < |at| :: at[i] < |txids|
  {
    seq(|at|, i requires 0 <= i < |at| => (txids[at[i]], at[i]))
  }

  // ----------------------------------------------------- decoding undoes encoding

  /** `part` stands in `s` at `at`. */
  predicate At<T(==)>(s: seq<T>, at: nat, part: seq<T>) { at + |part| <= |s| && s[at..at + |part|] == part }

  lemma AtParts<T>(s: seq<T>, at: nat, x: seq<T>, y: seq<T>)
    requires At(s, at, x + y)
    ensures At(s, at, x) && At(s, at + |x|, y)
  {
    assert s[at..at + |x|] == (x + y)[..|x|] == x;
    assert s[at + |x|..at + |x| + |y|] == (x + y)[|x|..] == y;
  }

  /** What decoding node (h, lo) should give when it ends at cursors b and k. */
  function Decoded(txids: seq<Hash>, mask: seq<bool>, h: nat, lo: nat, b: nat, k: nat): Found
    requires |mask| == |txids| && lo < |txids|
  {
    BelowInRange(mask, h, lo);
    Found(TreeHash(txids, h, lo), b, k, Report(txids, Below(mask, h, lo)))
  }

  lemma {:induction false} LeafReport(txids: seq<Hash>, mask: seq<bool>, h: nat, lo: nat)
    requires |mask| == |txids| && lo < |txids| && (h == 0 || Below(mask, h, lo) == [])
    requires forall i | 0 <= i < |Below(mask, h, lo)| :: Below(mask, h, lo)[i] < |txids|
    ensures Report(txids, Below(mask, h, lo)) ==
            if h == 0 && Below(mask, h, lo) != [] then [(TreeHash(txids, h, lo), lo)] else []
  {
    if h == 0 {
      assert Matched(mask, lo + 1, lo + 1) == [];
    }
  }

  lemma ReportAppend(txids: seq<Hash>, x: seq<nat>, y: seq<nat>)
    requires forall i | 0 <= i < |x| :: x[i] < |txids|
    requires forall i | 0 <= i < |y| :: y[i] < |txids|
    ensures Report(txids, x + y) == Report(txids, x) + Report(txids, y)
  {
  }

  /** p stands in the two streams between the cursors (b, k) and (b2, k2). */
  predicate Stands(p: Partial, bits: seq<bool>, hashes: seq<Hash>, b: nat, k: nat, b2: nat, k2: nat) {
    At(bits, b, p.bits) && At(hashes, k, p.hashes) && b2 == b + |p.bits| && k2 == k + |p.hashes|
  }

  /** Decoding what was encoded, wherever it stands in the two streams: the node's
      hash, all of its bits and hashes consumed, exactly the matched transactions. */
  lemma {:induction false} ExtractBuild(txids: seq<Hash>, mask: seq<bool>, h: nat, lo: nat, p: Partial,
                                        bits: seq<bool>, hashes: seq<Hash>, b: nat, k: nat, b2: nat, k2: nat)
    requires |mask| == |txids| && Distinct(txids) && lo < |txids|
    requires p == Build(txids, mask, h, lo) && Stands(p, bits, hashes, b, k, b2, k2)
    ensures Extract(|txids|, bits, hashes, h, lo, b, k) == Some(Decoded(txids, mask, h, lo, b2, k2))
    decreases h, 1
  {
    if h == 0 || Below(mask, h, lo) == [] {
      ExtractLeaf(txids, mask, h, lo, bits, hashes, b, k);
    } else if HasRight(|txids|, h, lo) {
      var right := lo + Pow2(h - 1);
      var l, r := Build(txids, mask, h - 1, lo), Build(txids, mask, h - 1, right);
      var b1, k1 := b + 1 + |l.bits|, k + |l.hashes|;
      Split(p, l, r, bits, hashes, b, k, b1, k1, b2, k2);
      ExtractTwo(txids, mask, h - 1, lo, right, l, r, bits, hashes, b + 1, k, b1, k1, b2, k2);
      JoinTwo(txids, mask, h, lo, right, bits, hashes, b, k, b1, k1, b2, k2);
    } else {
      var l := Build(txids, mask, h - 1, lo);
      var none := Partial([], []);
      assert p.bits == [true] + l.bits + none.bits && p.hashes == l.hashes + none.hashes;
      Split(p, l, none, bits, hashes, b, k, b2, k2, b2, k2);
      ExtractBuild(txids, mask, h - 1, lo, l, bits, hashes, b + 1, k, b2, k2);
      JoinOne(txids, mask, h, lo, bits, hashes, b, k, b2, k2);
    }
  }

  lemma {:induction false} ExtractTwo(txids: seq<Hash>, mask: seq<bool>, g: nat, lo: nat, right: nat, l: Partial,
      r: Partial,
                   bits: seq<bool>, hashes: seq<Hash>, b: nat, k: nat, b1: nat, k1: nat, b2: nat, k2: nat)
    requires |mask| == |txids| && Distinct(txids) && lo < |txids| && right < |txids|
    requires l == Build(txids, mask, g, lo) && r == Build(txids, mask, g, right)
    requires Stands(l, bits, hashes, b, k, b1, k1) && Stands(r, bits, hashes, b1, k1, b2, k2)
    ensures Extract(|txids|, bits, hashes, g, lo, b, k) == Some(Decoded(txids, mask, g, lo, b1, k1))
    ensures Extract(|txids|, bits, hashes, g, right, b1, k1) == Some(Decoded(txids, mask, g, right, b2, k2))
    decreases g, 2
  {
    ExtractBuild(txids, mask, g, lo, l, bits, hashes, b, k, b1, k1);
    ExtractBuild(txids, mask, g, right, r, bits, hashes, b1, k1, b2, k2);
  }

  lemma {:induction false} ExtractLeaf(txids: seq<Hash>, mask: seq<bool>, h: nat, lo: nat, bits: seq<bool>,
      hashes: seq<Hash>, b: nat,
      k: nat)
    requires |mask| == |txids| && lo < |txids| && (h == 0 || Below(mask, h, lo) == [])
    requires At(bits, b, Build(txids, mask, h, lo).bits) && At(hashes, k, Build(txids, mask, h, lo).hashes)
    ensures Extract(|txids|, bits, hashes, h, lo, b, k) == Some(Decoded(txids, mask, h, lo, b + 1, k + 1))
  {
    BelowInRange(mask, h, lo);
    assert bits[b] == bits[b..b + 1][0];
    assert hashes[k] == hashes[k..k + 1][0];
    LeafReport(txids, mask, h, lo);
  }

  lemma Split(p: Partial, l: Partial, r: Partial, bits: seq<bool>, hashes: seq<Hash>,
              b: nat, k: nat, b1: nat, k1: nat, b2: nat, k2: nat)
    requires p.bits == [true] + l.bits + r.bits && p.hashes == l.hashes + r.hashes
    requires Stands(p, bits, hashes, b, k, b2, k2) && b1 == b + 1 + |l.bits| && k1 == k + |l.hashes|
    ensures b < |bits| && bits[b]
    ensures Stands(l, bits, hashes, b + 1, k, b1, k1) && Stands(r, bits, hashes, b1, k1, b2, k2)
  {
    assert p.bits == [true] + (l.bits + r.bits);
    AtParts(bits, b, [true], l.bits + r.bits);
    AtParts(bits, b + 1, l.bits, r.bits);
    AtParts(hashes, k, l.hashes, r.hashes);
    assert bits[b] == bits[b..b + 1][0];
  }

  lemma JoinTwo(txids: seq<Hash>, mask: seq<bool>, h: nat, lo: nat, right: nat, bits: seq<bool>, hashes: seq<Hash>,
                b: nat, k: nat, b1: nat, k1: nat, b2: nat, k2: nat)
    requires |mask| == |txids| && Distinct(txids) && lo < |txids| && h > 0 && HasRight(|txids|, h, lo)
    requires right == lo + Pow2(h - 1)
    requires b < |bits| && bits[b]
    requires Extract(|txids|, bits, hashes, h - 1, lo, b + 1, k) == Some(Decoded(txids, mask, h - 1, lo, b1, k1))
    requires Extract(|txids|, bits, hashes, h - 1, right, b1, k1) == Some(Decoded(txids, mask, h - 1, right, b2, k2))
    ensures Extract(|txids|, bits, hashes, h, lo, b, k) == Some(Decoded(txids, mask, h, lo, b2, k2))
  {
    DecodedJoin(txids, mask, h, lo, right, b1, k1, b2, k2);
    ExtractNode(|txids|, bits, hashes, h, lo, right, b, k,
                Decoded(txids, mask, h - 1, lo, b1, k1), Decoded(txids, mask, h - 1, right, b2, k2));
  }

  lemma {:induction false} DecodedJoin(txids: seq<Hash>, mask: seq<bool>, h: nat, lo: nat, right: nat, b1: nat,
      k1: nat, b2: nat, k2: nat)
    requires |mask| == |txids| && Distinct(txids) && lo < |txids| && h > 0 && HasRight(|txids|, h, lo)
    requires right == lo + Pow2(h - 1)
    ensures var l, r := Decoded(txids, mask, h - 1, lo, b1, k1), Decoded(txids, mask, h - 1, right, b2, k2);
            l.hash != r.hash && Decoded(txids, mask, h, lo, b2, k2) == Join(l, r)
  {
    SubtreesDiffer(txids, h - 1, lo, right);
    BelowSplit(mask, h, lo);
    BelowInRange(mask, h - 1, lo);
    BelowInRange(mask, h - 1, right);
    ReportAppend(txids, Below(mask, h - 1, lo), Below(mask, h - 1, right));
  }

  lemma ExtractNode(n: nat, bits: seq<bool>, hashes: seq<Hash>, h: nat, lo: nat, right: nat, b: nat, k: nat,
      l: Found, r: Found)
    requires h > 0 && HasRight(n, h, lo) && right == lo + Pow2(h - 1) && b < |bits| && bits[b] && l.hash != r.hash
    requires Extract(n, bits, hashes, h - 1, lo, b + 1, k) == Some(l)
    requires Extract(n, bits, hashes, h - 1, right, l.bitsUsed, l.hashUsed) == Some(r)
    ensures Extract(n, bits, hashes, h, lo, b, k) == Some(Join(l, r))
  {
  }

  lemma JoinOne(txids: seq<Hash>, mask: seq<bool>, h: nat, lo: nat, bits: seq<bool>, hashes: seq<Hash>,
                b: nat, k: nat, b2: nat, k2: nat)
    requires |mask| == |txids| && lo < |txids| && h > 0 && !HasRight(|txids|, h, lo)
    requires b < |bits| && bits[b]
    requires Extract(|txids|, bits, hashes, h - 1, lo, b + 1, k) == Some(Decoded(txids, mask, h - 1, lo, b2, k2))
    ensures Extract(|txids|, bits, hashes, h, lo, b, k) == Some(Decoded(txids, mask, h, lo, b2, k2))
  {
    BelowSplit(mask, h, lo);
  }

  // ------------------------------------------------- arbitrary input is harmless

  /** Positions strictly increase, lie in [lo, hi), and carry their own txid. */
  predicate Authentic(txids: seq<Hash>, ms: seq<(Hash, nat)>, lo: nat, hi: int) {
    && (forall i | 0 <= i < |ms| :: lo <= ms[i].1 < hi && ms[i].1 < |txids| && ms[i].0 == txids[ms[i].1])
    && (forall i, j | 0 <= i < j < |ms| :: ms[i].1 < ms[j].1)
  }

  /** Whatever bits and hashes the sender chose, a traversal that ends in the node's
      true hash reports only transactions that are really there. */
  lemma {:induction false} ExtractSound(txids: seq<Hash>, bits: seq<bool>, hashes: seq<Hash>, h: nat, lo: nat,
      b: nat, k: nat)
    requires lo < |txids|
    requires var r := Extract(|txids|, bits, hashes, h, lo, b, k); r.Some? && r.value.hash == TreeHash(txids, h, lo)
    ensures Authentic(txids, Extract(|txids|, bits, hashes, h, lo, b, k).value.matches, lo, lo + Pow2(h))
    decreases h
  {
    if h > 0 && bits[b] {
      var l := Extract(|txids|, bits, hashes, h - 1, lo, b + 1, k).value;
      ExtractSound(txids, bits, hashes, h - 1, lo, b + 1, k);
      if HasRight(|txids|, h, lo) {
        ExtractSound(txids, bits, hashes, h - 1, lo + Pow2(h - 1), l.bitsUsed, l.hashUsed);
      }
    }
  }

  // ------------------------------------------------------------------ size bounds

  /** Nodes the encoder descends into that have a single child. */
  function OneChild(mask: seq<bool>, h: nat, lo: nat): nat
    requires lo < |mask|
  {
    if h == 0 || Below(mask, h, lo) == [] then 0
    else
      OneChild(mask, h - 1, lo) +
      if HasRight(|mask|, h, lo) then OneChild(mask, h - 1, lo + Pow2(h - 1)) else 1
  }

  /** The number of stored hashes is bounded by the transactions below, and by one
      plus one per match and level. */
  lemma {:induction false} HashBounds(txids: seq<Hash>, mask: seq<bool>, h: nat, lo: nat)
    requires |mask| == |txids| && lo < |txids|
    ensures var p := Build(txids, mask, h, lo);
            && 1 <= |p.hashes| <= Min(lo + Pow2(h), |txids|) - lo
            && |p.hashes| <= 1 + PerLevel(|Below(mask, h, lo)|, h)
  {
    if h > 0 && Below(mask, h, lo) != [] {
      BelowSplit(mask, h, lo);
      HashBounds(txids, mask, h - 1, lo);
      if HasRight(|txids|, h, lo) {
        HashBounds(txids, mask, h - 1, lo + Pow2(h - 1));
        PerLevelSplit(|Below(mask, h - 1, lo)|, |Below(mask, h - 1, lo + Pow2(h - 1))|, h);
      } else {
        PerLevelSplit(|Below(mask, h - 1, lo)|, 0, h);
      }
    }
  }

  /** The number of flag bits is twice the hashes minus one, plus one for every
      single-child node on the way. */
  lemma {:induction false} BitCount(txids: seq<Hash>, mask: seq<bool>, h: nat, lo: nat)
    requires |mask| == |txids| && lo < |txids|
    ensures var p := Build(txids, mask, h, lo);
            |p.bits| == 2 * |p.hashes| - 1 + OneChild(mask, h, lo)
  {
    if h > 0 && Below(mask, h, lo) != [] {
      BitCount(txids, mask, h - 1, lo);
      if HasRight(|txids|, h, lo) {
        BitCount(txids, mask, h - 1, lo + Pow2(h - 1));
      }
    }
  }

  function PerLevel(matched: nat, height: nat): nat { matched * height }

  lemma PerLevelSplit(m1: nat, m2: nat, h: nat)
    requires h > 0
    ensures PerLevel(m1 + m2, h) == PerLevel(m1, h - 1) + PerLevel(m2, h - 1) + m1 + m2
  {
  }

  /** The documented bound of 2N-1 flag bits fails: three transactions with only the
      last one matched take four bits for two hashes. */
  lemma FlagBitsCounterexample()
    ensures var txids := [Digest(0), Digest(1), Digest(2)];
            var p := Build(txids, [false, false, true], 2, 0);
            |p.hashes| == 2 && |p.bits| == 4
  {
    var txids := [Digest(0), Digest(1), Digest(2)];
    var mask := [false, false, true];
    assert Pow2(1) == 2 && Pow2(2) == 4;
    assert Matched(mask, 3, 3) == [] && Matched(mask, 2, 3) == [2];
    assert Matched(mask, 1, 2) == [] && Matched(mask, 1, 3) == [2];
    assert Below(mask, 2, 0) == Matched(mask, 0, 3) == [2];
    assert Below(mask, 1, 0) == Matched(mask, 0, 2) == [];
    assert Below(mask, 1, 2) == [2] && Below(mask, 0, 2) == [2];
    assert Build(txids, mask, 0, 2).bits == [true];
    assert Build(txids, mask, 1, 2) == Partial([true] + Build(txids, mask, 0, 2).bits, Build(txids, mask, 0, 2).hashes);
  }

  /** Every ancestor of transaction i up to node (h, lo) has two children. */
  predicate FullPath(n: nat, h: nat, lo: nat, i: nat) {
    h == 0 ||
    (HasRight(n, h, lo) &&
     if i < lo + Pow2(h - 1) then FullPath(n, h - 1, lo, i) else FullPath(n, h - 1, lo + Pow2(h - 1), i))
  }

  ghost predicate AllFull(mask: seq<bool>, h: nat, lo: nat) {
    forall i | i in Below(mask, h, lo) :: FullPath(|mask|, h, lo, i)
  }

  lemma BelowHalf(mask: seq<bool>, h: nat, lo: nat, i: nat)
    requires h > 0 && lo < |mask| && HasRight(|mask|, h, lo)
    ensures i in Below(mask, h - 1, lo) <==> i in Below(mask, h, lo) && i < lo + Pow2(h - 1)
    ensures i in Below(mask, h - 1, lo + Pow2(h - 1)) <==> i in Below(mask, h, lo) && i >= lo + Pow2(h - 1)
  {
    MatchedIs(mask, lo, Min(lo + Pow2(h), |mask|), i);
    MatchedIs(mask, lo, Min(lo + Pow2(h - 1), |mask|), i);
    MatchedIs(mask, lo + Pow2(h - 1), Min(lo + Pow2(h - 1) + Pow2(h - 1), |mask|), i);
  }

  lemma AllFullSplit(mask: seq<bool>, h: nat, lo: nat)
    requires h > 0 && lo < |mask| && HasRight(|mask|, h, lo)
    ensures AllFull(mask, h, lo) <==> AllFull(mask, h - 1, lo) && AllFull(mask, h - 1, lo + Pow2(h - 1))
  {
    var g, right := h - 1, lo + Pow2(h - 1);
    if AllFull(mask, h, lo) {
      forall i | i in Below(mask, g, lo) ensures FullPath(|mask|, g, lo, i) {
        BelowHalf(mask, h, lo, i);
        assert FullPath(|mask|, h, lo, i);
      }
      forall i | i in Below(mask, g, right) ensures FullPath(|mask|, g, right, i) {
        BelowHalf(mask, h, lo, i);
        assert FullPath(|mask|, h, lo, i);
      }
    }
    if AllFull(mask, h - 1, lo) && AllFull(mask, h - 1, right) {
      forall i | i in Below(mask, h, lo) ensures FullPath(|mask|, h, lo, i) {
        BelowHalf(mask, h, lo, i);
      }
    }
  }

  lemma SingleNotFull(mask: seq<bool>, h: nat, lo: nat)
    requires lo < |mask| && h > 0 && Below(mask, h, lo) != [] && !HasRight(|mask|, h, lo)
    ensures !AllFull(mask, h, lo)
  {
    var i := Below(mask, h, lo)[0];
    assert i in Below(mask, h, lo) && !FullPath(|mask|, h, lo, i);
  }

  lemma {:induction false} OneChildIff(mask: seq<bool>, h: nat, lo: nat)
    requires lo < |mask|
    ensures OneChild(mask, h, lo) == 0 <==> AllFull(mask, h, lo)
  {
    if h == 0 || Below(mask, h, lo) == [] {
    } else if HasRight(|mask|, h, lo) {
      var right := lo + Pow2(h - 1);
      OneChildIff(mask, h - 1, lo);
      OneChildIff(mask, h - 1, right);
      AllFullSplit(mask, h, lo);
      assert OneChild(mask, h, lo) == OneChild(mask, h - 1, lo) + OneChild(mask, h - 1, right);
    } else {
      SingleNotFull(mask, h, lo);
    }
  }

  /** ... and it holds exactly when every ancestor of every matched transaction has
      two children. */
  lemma {:induction false} FlagBitsIff(txids: seq<Hash>, mask: seq<bool>, h: nat, lo: nat)
    requires |mask| == |txids| && lo < |txids|
    ensures var p := Build(txids, mask, h, lo);
            |p.bits| <= 2 * |p.hashes| - 1 <==> AllFull(mask, h, lo)
  {
    BitCount(txids, mask, h, lo);
    OneChildIff(mask, h, lo);
  }
}
