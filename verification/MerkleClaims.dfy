/** What a receiver may believe of a decoded block whose number of transactions it knows only
    from the sender. */
module MerkleClaims {
  import opened Basics
  import opened Powers
  import opened MerkleTrees
  import opened MerkleBlocks

  // --------------------------------------------------- a tree of the right height

  /** What a traversal that goes down did with its children. */
  lemma {:induction false} ExtractParts(n: nat, bits: seq<bool>, hashes: seq<Hash>, h: nat, lo: nat, b: nat, k: nat,
      f: Found) returns (l: Found, r: Found)
    requires h > 0 && b < |bits| && bits[b] && Extract(n, bits, hashes, h, lo, b, k) == Some(f)
    ensures Extract(n, bits, hashes, h - 1, lo, b + 1, k) == Some(l)
    ensures if HasRight(n, h, lo)
            then && Extract(n, bits, hashes, h - 1, lo + Pow2(h - 1), l.bitsUsed, l.hashUsed) == Some(r)
                 && r.hash != l.hash && f == Join(l, r)
            else f == l.(hash := Node(l.hash, l.hash))
  {
    l := Extract(n, bits, hashes, h - 1, lo, b + 1, k).value;
    r := l;
    if HasRight(n, h, lo) {
      r := Extract(n, bits, hashes, h - 1, lo + Pow2(h - 1), l.bitsUsed, l.hashUsed).value;
    }
  }

  lemma {:induction false} TreeParts(txids: seq<Hash>, h: nat, lo: nat)
    requires h > 0 && lo < |txids|
    ensures TreeHash(txids, h, lo) ==
            Node(TreeHash(txids, h - 1, lo),
                 if HasRight(|txids|, h, lo) then TreeHash(txids, h - 1, lo + Pow2(h - 1))
                     else TreeHash(txids, h - 1, lo))
  {
  }

  /** Whatever count is claimed, a traversal at the right height that ends in the true hash
      reports only transactions that are there: a child that only the block has, or only the
      message has, would have to equal its sibling. */
  lemma {:induction false} ExtractAnyCount(txids: seq<Hash>, n: nat, bits: seq<bool>, hashes: seq<Hash>, h: nat,
      lo: nat, b: nat, k: nat, f: Found)
    requires Distinct(txids) && lo < |txids|
    requires Extract(n, bits, hashes, h, lo, b, k) == Some(f) && f.hash == TreeHash(txids, h, lo)
    ensures Authentic(txids, f.matches, lo, lo + Pow2(h))
    decreases h
  {
    if h > 0 && bits[b] {
      var l, r := ExtractParts(n, bits, hashes, h, lo, b, k, f);
      var right := lo + Pow2(h - 1);
      TreeParts(txids, h, lo);
      ExtractAnyCount(txids, n, bits, hashes, h - 1, lo, b + 1, k, l);
      if HasRight(|txids|, h, lo) {
        SubtreesDiffer(txids, h - 1, lo, right);
        ExtractAnyCount(txids, n, bits, hashes, h - 1, right, l.bitsUsed, l.hashUsed, r);
        AuthenticJoin(txids, l.matches, r.matches, lo, right, lo + Pow2(h));
      } else {
        AuthenticJoin(txids, l.matches, [], lo, right, lo + Pow2(h));
        assert l.matches + [] == l.matches;
      }
    }
  }

  lemma AuthenticJoin(txids: seq<Hash>, x: seq<(Hash, nat)>, y: seq<(Hash, nat)>, lo: nat, mid: nat, hi: int)
    requires Authentic(txids, x, lo, mid) && Authentic(txids, y, mid, hi) && lo <= mid <= hi
    ensures Authentic(txids, x + y, lo, hi)
  {
  }

  // ---------------------------------------------------------- a tree too high

  predicate Leaves(txids: seq<Hash>) { forall i | 0 <= i < |txids| :: txids[i].Digest? }

  /** A traversal that starts too high cannot get down to a match. */
  lemma {:induction false} TooHigh(txids: seq<Hash>, n: nat, bits: seq<bool>, hashes: seq<Hash>, g: nat, at: nat,
      b: nat, k: nat, h: nat, lo: nat)
    requires Leaves(txids) && lo < |txids| && h < g
    requires var r := Extract(n, bits, hashes, g, at, b, k); r.Some? && r.value.hash == TreeHash(txids, h, lo)
    ensures Extract(n, bits, hashes, g, at, b, k).value.matches == []
    decreases g
  {
    if bits[b] {
      assert TreeHash(txids, h, lo).Node?;
      var l := Extract(n, bits, hashes, g - 1, at, b + 1, k).value;
      TooHigh(txids, n, bits, hashes, g - 1, at, b + 1, k, h - 1, lo);
      if HasRight(n, g, at) {
        var right := if HasRight(|txids|, h, lo) then lo + Pow2(h - 1) else lo;
        TooHigh(txids, n, bits, hashes, g - 1, at + Pow2(g - 1), l.bitsUsed, l.hashUsed, h - 1, right);
      }
    }
  }

  /** A claimed count that does not make the tree lower than it is does no harm. */
  lemma {:induction false} ClaimSound(txids: seq<Hash>, n: nat, bits: seq<bool>, hashes: seq<Hash>)
    requires txids != [] && Distinct(txids) && Leaves(txids) && Height(n, 0) >= Height(|txids|, 0)
    requires var v := Verdict(n, bits, hashes); v.Some? && v.value.hash == Root(txids)
    ensures Authentic(txids, Verdict(n, bits, hashes).value.matches, 0, |txids|)
  {
    var g, h := Height(n, 0), Height(|txids|, 0);
    if g == h {
      ExtractAnyCount(txids, n, bits, hashes, h, 0, 0, 0, Verdict(n, bits, hashes).value);
    } else {
      TooHigh(txids, n, bits, hashes, g, 0, 0, 0, h, 0);
    }
  }

  // ----------------------------------------------------------- a tree too low

  /** The tree has right neighbours of its first nodes at the g heights from d on. */
  ghost predicate Neighbours(txids: seq<Hash>, d: nat, g: nat) {
    txids != [] && forall i: nat | d <= i < d + g :: Pow2(i) < |txids|
  }

  /** The path to the first node at height d, from g levels above it: all the way down on the
      left, then the right neighbours on the way up. */
  function SpineBits(g: nat): seq<bool> { seq(2 * g + 1, i => i <= g) }

  function SpineHashes(txids: seq<Hash>, d: nat, g: nat): seq<Hash>
    requires Neighbours(txids, d, g)
  {
    seq(g + 1, j requires 0 <= j <= g =>
      if j == 0 then TreeHash(txids, d, 0) else TreeHash(txids, d + (j - 1), Pow2(d + (j - 1))))
  }

  /** What the traversal along that path gives at level j. */
  function SpineFound(txids: seq<Hash>, d: nat, g: nat, j: nat): Found
    requires txids != []
  {
    Found(TreeHash(txids, d + j, 0), g + 1 + j, 1 + j, [(TreeHash(txids, d, 0), 0)])
  }

  lemma {:induction false} SpineExtract(txids: seq<Hash>, n: nat, d: nat, g: nat, j: nat, bits: seq<bool>,
      hashes: seq<Hash>)
    requires Distinct(txids) && Neighbours(txids, d, g) && j <= g && (forall i: nat | i < g :: Pow2(i) < n)
    requires bits == SpineBits(g) && hashes == SpineHashes(txids, d, g)
    ensures Extract(n, bits, hashes, j, 0, g - j, 0) == Some(SpineFound(txids, d, g, j))
    decreases j
  {
    if j > 0 {
      SpineExtract(txids, n, d, g, j - 1, bits, hashes);
      var top := d + (j - 1);
      SubtreesDiffer(txids, top, 0, Pow2(top));
      SpineUp(txids, n, d, g, j, bits, hashes, top);
    }
  }

  lemma {:induction false} SpineUp(txids: seq<Hash>, n: nat, d: nat, g: nat, j: nat, bits: seq<bool>,
      hashes: seq<Hash>, top: nat)
    requires 0 < j <= g && top == d + (j - 1) && Pow2(top) < |txids| && Pow2(j - 1) < n
    requires TreeHash(txids, top, 0) != TreeHash(txids, top, Pow2(top))
    requires bits == SpineBits(g) && |hashes| == g + 1 && hashes[j] == TreeHash(txids, top, Pow2(top))
    requires Extract(n, bits, hashes, j - 1, 0, g - j + 1, 0) == Some(SpineFound(txids, d, g, j - 1))
    ensures Extract(n, bits, hashes, j, 0, g - j, 0) == Some(SpineFound(txids, d, g, j))
  {
    var l := SpineFound(txids, d, g, j - 1);
    assert bits[g - j] && !bits[g + j];
    var r := Found(hashes[j], g + 1 + j, 1 + j, []);
    assert Extract(n, bits, hashes, j - 1, Pow2(j - 1), l.bitsUsed, l.hashUsed) == Some(r);
    assert l.matches + r.matches == l.matches;
    assert TreeHash(txids, d + j, 0) == Node(l.hash, r.hash);
  }

  lemma {:induction false} HeightOver(n: nat, h: nat, i: nat)
    requires h <= i < Height(n, h)
    ensures Pow2(i) < n
    decreases n - Pow2(h)
  {
    if h < i {
      HeightOver(n, h + 1, i);
    }
  }

  lemma {:induction false} PowerOver(g: nat)
    ensures g < Pow2(g)
  {
    if g > 0 {
      PowerOver(g - 1);
    }
  }

  /** More than g nodes fit where the tree has g levels. */
  lemma WideEnough(n: nat, g: nat)
    requires n > 0 && forall i: nat | i < g :: Pow2(i) < n
    ensures g + 1 <= n
  {
    if g > 0 {
      PowerOver(g - 1);
      assert Pow2(g - 1) < n;
    }
  }

  /** A claimed count that makes the tree lower than it is lets an inner node pass for a
      transaction. */
  lemma {:induction false} ClaimTooLow(txids: seq<Hash>, n: nat, bits: seq<bool>, hashes: seq<Hash>, g: nat, d: nat)
    requires txids != [] && Distinct(txids) && Leaves(txids) && 1 <= n <= 16666
    requires g == Height(n, 0) && d > 0 && d + g == Height(|txids|, 0)
    requires Neighbours(txids, d, g) && bits == SpineBits(g) && hashes == SpineHashes(txids, d, g)
    ensures var v := Verdict(n, bits, hashes);
            v.Some? && v.value.hash == Root(txids) && !Authentic(txids, v.value.matches, 0, |txids|)
  {
    forall i: nat | i < g ensures Pow2(i) < n {
      HeightOver(n, 0, i);
    }
    SpineExtract(txids, n, d, g, g, bits, hashes);
    WideEnough(n, g);
    var ms := SpineFound(txids, d, g, g).matches;
    assert ms[0].0.Node?;
  }

  lemma {:induction false} TallNeighbours(txids: seq<Hash>, d: nat, g: nat)
    requires txids != [] && d + g <= Height(|txids|, 0)
    ensures Neighbours(txids, d, g)
  {
    forall i: nat | d <= i < d + g ensures Pow2(i) < |txids| {
      HeightOver(|txids|, 0, i);
    }
  }

  /** The receiver may believe what is decoded with the true root. */
  ghost predicate Believable(txids: seq<Hash>, n: nat)
    requires txids != []
  {
    forall bits, hashes | Verdict(n, bits, hashes).Some? && Verdict(n, bits, hashes).value.hash == Root(txids) ::
      Authentic(txids, Verdict(n, bits, hashes).value.matches, 0, |txids|)
  }

  /** That is so exactly if the claimed count does not make the tree lower than it is. */
  lemma {:induction false} BelievableIff(txids: seq<Hash>, n: nat)
    requires txids != [] && Distinct(txids) && Leaves(txids) && 1 <= n <= 16666
    ensures Believable(txids, n) <==> Height(n, 0) >= Height(|txids|, 0)
  {
    var g, h := Height(n, 0), Height(|txids|, 0);
    if g >= h {
      forall bits, hashes | Verdict(n, bits, hashes).Some? && Verdict(n, bits, hashes).value.hash == Root(txids)
        ensures Authentic(txids, Verdict(n, bits, hashes).value.matches, 0, |txids|)
      {
        ClaimSound(txids, n, bits, hashes);
      }
    } else {
      TallNeighbours(txids, h - g, g);
      ClaimTooLow(txids, n, SpineBits(g), SpineHashes(txids, h - g, g), g, h - g);
    }
  }

  // ------------------------------------------------------ nothing may be left over

  /** A traversal that succeeds does not look beyond what it consumes. */
  lemma {:induction false} ExtractPrefix(n: nat, bits: seq<bool>, hashes: seq<Hash>, h: nat, lo: nat, b: nat, k: nat,
      xs: seq<bool>, ys: seq<Hash>)
    requires Extract(n, bits, hashes, h, lo, b, k).Some?
    ensures Extract(n, bits + xs, hashes + ys, h, lo, b, k) == Extract(n, bits, hashes, h, lo, b, k)
    decreases h
  {
    if h > 0 && bits[b] {
      var l := Extract(n, bits, hashes, h - 1, lo, b + 1, k).value;
      ExtractPrefix(n, bits, hashes, h - 1, lo, b + 1, k, xs, ys);
      if HasRight(n, h, lo) {
        ExtractPrefix(n, bits, hashes, h - 1, lo + Pow2(h - 1), l.bitsUsed, l.hashUsed, xs, ys);
      }
    }
  }

  /** Of a message that is accepted, neither one more hash nor one more byte of flags is. */
  lemma {:induction false} NothingLeftOver(n: nat, bits: seq<bool>, hashes: seq<Hash>, xs: seq<bool>, ys: seq<Hash>)
    requires Verdict(n, bits, hashes).Some? && (ys != [] || |xs| >= 8)
    ensures Verdict(n, bits + xs, hashes + ys) == None
  {
    ExtractPrefix(n, bits, hashes, Height(n, 0), 0, 0, 0, xs, ys);
  }

  /** No count of transactions is believed that a block cannot have, and no more hashes than
      transactions or than flags. */
  lemma VerdictLimits(n: nat, bits: seq<bool>, hashes: seq<Hash>)
    requires Verdict(n, bits, hashes).Some?
    ensures 1 <= n <= 16666 && |hashes| <= n && |hashes| <= |bits|
  {
  }
}
