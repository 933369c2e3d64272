/** The partial Merkle tree object: its two traversals, which number nodes by
    (height, position), the packing of the flag bits, and the checks made before a
    decoded root is believed. */
module MerkleBlocks {
  import opened Basics
  import opened MerkleTrees
  import opened Powers
  import opened ByteBits

  const MAX_BLOCK_WEIGHT := 4000000
  const MIN_TRANSACTION_WEIGHT := 4 * 60

  // ------------------------------------------------------- nodes by position

  /** The number of nodes at a height. */
  function Width(n: nat, height: nat): nat { (n + Pow2(height) - 1) / Pow2(height) }

  /** The first transaction below node (height, pos). */
  function First(height: nat, pos: nat): nat { pos * Pow2(height) }

  lemma DivFacts(a: nat, d: nat, q: nat)
    requires d > 0
    ensures q < (a + d - 1) / d <==> q * d < a
  {
    var w := (a + d - 1) / d;
    assert w * d <= a + d - 1 < w * d + d;
    if q < w {
      assert (q + 1) * d <= w * d;
    } else {
      assert w * d <= q * d;
    }
  }

  /** A position exists exactly when its first transaction does. */
  lemma WidthIff(n: nat, height: nat, pos: nat)
    ensures pos < Width(n, height) <==> First(height, pos) < n
  {
    DivFacts(n, Pow2(height), pos);
  }

  lemma {:induction false} Children(height: nat, pos: nat)
    requires height > 0
    ensures First(height - 1, pos * 2) == First(height, pos)
    ensures First(height - 1, pos * 2 + 1) == First(height, pos) + Pow2(height - 1)
  {
  }

  /** The right child exists exactly when the code's position test says so. */
  lemma RightIff(n: nat, height: nat, pos: nat)
    requires height > 0
    ensures pos * 2 + 1 < Width(n, height - 1) <==> HasRight(n, height, First(height, pos))
  {
    WidthIff(n, height - 1, pos * 2 + 1);
    Children(height, pos);
  }

  /** The least height, from h up, whose single node covers all n transactions. */
  function Height(n: nat, h: nat): (r: nat)
    ensures n <= Pow2(r)
    decreases n - Pow2(h)
  {
    if n <= Pow2(h) then h else Height(n, h + 1)
  }

  lemma {:induction false} OneNode(n: nat, h: nat)
    ensures Width(n, h) > 1 <==> n > Pow2(h)
  {
    WidthIff(n, h, 1);
  }

  // ---------------------------------------------------------------- bit packing

  function Unpacked(bytes: seq<bv8>): seq<bool> {
    seq(8 * |bytes|, p requires 0 <= p < 8 * |bytes| => FlagAt(bytes, p))
  }

  /** `bytes` holds `bits`, least significant bit first, the rest clear. */
  ghost predicate Packs(bytes: seq<bv8>, bits: seq<bool>) {
    && |bytes| == (|bits| + 7) / 8
    && forall p: nat | p < 8 * |bytes| :: FlagAt(bytes, p) == (p < |bits| && bits[p])
  }

  predicate SetAt(bits: seq<bool>, p: nat) { p < |bits| && bits[p] }

  /** A byte of the eight bits from p on, the first weighing one and the last 128. */
  predicate ByteOf(x: bv8, bits: seq<bool>, p: nat) {
    x == Weight(SetAt(bits, p), 1) + Weight(SetAt(bits, p + 1), 2) + Weight(SetAt(bits, p + 2), 4)
         + Weight(SetAt(bits, p + 3), 8) + Weight(SetAt(bits, p + 4), 16) + Weight(SetAt(bits, p + 5), 32)
         + Weight(SetAt(bits, p + 6), 64) + Weight(SetAt(bits, p + 7), 128)
  }

  ghost predicate Weighs(bytes: seq<bv8>, bits: seq<bool>) {
    forall i: nat | i < |bytes| :: ByteOf(bytes[i], bits, 8 * i)
  }

  lemma FlagOf(bytes: seq<bv8>, bits: seq<bool>, i: nat, k: nat, p: nat)
    requires Packs(bytes, bits) && i < |bytes| && k < 8 && p == 8 * i + k
    ensures SetAt(bits, p) == Bit(bytes[i], k)
  {
    assert FlagAt(bytes, p) == (p < |bits| && bits[p]);
    assert p / 8 == i && p % 8 == k;
  }

  lemma {:induction false} PacksByte(bytes: seq<bv8>, bits: seq<bool>, i: nat, x: bv8, p: nat)
    requires Packs(bytes, bits) && i < |bytes| && x == bytes[i] && p == 8 * i
    ensures ByteOf(x, bits, p)
  {
    FlagOf(bytes, bits, i, 0, p);
    FlagOf(bytes, bits, i, 1, p + 1);
    FlagOf(bytes, bits, i, 2, p + 2);
    FlagOf(bytes, bits, i, 3, p + 3);
    FlagOf(bytes, bits, i, 4, p + 4);
    FlagOf(bytes, bits, i, 5, p + 5);
    FlagOf(bytes, bits, i, 6, p + 6);
    FlagOf(bytes, bits, i, 7, p + 7);
    BitsWeigh(x);
  }

  lemma {:induction false} PacksWeighs(bytes: seq<bv8>, bits: seq<bool>)
    requires Packs(bytes, bits)
    ensures Weighs(bytes, bits)
  {
    forall i: nat | i < |bytes| ensures ByteOf(bytes[i], bits, 8 * i) {
      PacksByte(bytes, bits, i, bytes[i], 8 * i);
    }
  }

  /** bits followed by at most seven clear bits, up to a whole number of bytes. */
  ghost predicate Padded(padded: seq<bool>, bits: seq<bool>) {
    && |bits| <= |padded| && (|padded| + 7) / 8 == (|bits| + 7) / 8
    && padded[..|bits|] == bits
    && forall p | |bits| <= p < |padded| :: !padded[p]
  }

  /** Packing to bytes and back only pads. */
  lemma UnpackPack(bytes: seq<bv8>, bits: seq<bool>)
    requires Packs(bytes, bits)
    ensures Padded(Unpacked(bytes), bits)
  {
    var u := Unpacked(bytes);
    assert |u| == 8 * |bytes|;
    forall p | 0 <= p < |u| ensures u[p] == (p < |bits| && bits[p]) {
      assert FlagAt(bytes, p) == (p < |bits| && bits[p]);
    }
    assert u[..|bits|] == bits;
  }

  // --------------------------------------------------------------- the verdict

  /** What a decoded tree is believed to say; None when any check rejects it. */
  function Verdict(n: nat, bits: seq<bool>, hashes: seq<Hash>): Option<Found> {
    if n == 0 || n > MAX_BLOCK_WEIGHT / MIN_TRANSACTION_WEIGHT || |hashes| > n || |bits| < |hashes| then None
    else
      match Extract(n, bits, hashes, Height(n, 0), 0, 0, 0)
      case None => None
      case Some(f) => if (f.bitsUsed + 7) / 8 == (|bits| + 7) / 8 && f.hashUsed == |hashes| then Some(f) else None
  }

  function Root(txids: seq<Hash>): Hash
    requires txids != []
  {
    TreeHash(txids, Height(|txids|, 0), 0)
  }

  /** The matched transactions of a block, with their positions, in order. */
  function Matches(txids: seq<Hash>, mask: seq<bool>): seq<(Hash, nat)>
    requires |mask| == |txids|
  {
    MatchedInRange(mask);
    Report(txids, Matched(mask, 0, |mask|))
  }

  lemma {:induction false} MatchedInRange(mask: seq<bool>)
    ensures forall i | 0 <= i < |Matched(mask, 0, |mask|)| :: Matched(mask, 0, |mask|)[i] < |mask|
  {
    var m := Matched(mask, 0, |mask|);
    forall i | 0 <= i < |m| ensures m[i] < |mask| {
      MatchedIs(mask, 0, |mask|, m[i]);
    }
  }

  /** What the encoder writes for a whole block. */
  function Encode(txids: seq<Hash>, mask: seq<bool>): Partial
    requires |mask| == |txids| && txids != []
  {
    Build(txids, mask, Height(|txids|, 0), 0)
  }

  /** Decoding an encoded block, before or after packing the flag bits, gives the
      block's root and exactly the matched transactions with their positions. */
  lemma VerdictOfEncode(txids: seq<Hash>, mask: seq<bool>, bits: seq<bool>)
    requires |mask| == |txids| && Distinct(txids) && 1 <= |txids| <= MAX_BLOCK_WEIGHT / MIN_TRANSACTION_WEIGHT
    requires Padded(bits, Encode(txids, mask).bits)
    ensures var v := Verdict(|txids|, bits, Encode(txids, mask).hashes);
            v.Some? && v.value.hash == Root(txids) && v.value.matches == Matches(txids, mask)
  {
    var n, h, p := |txids|, Height(|txids|, 0), Encode(txids, mask);
    HashBounds(txids, mask, h, 0);
    BitCount(txids, mask, h, 0);
    assert bits[0..|p.bits|] == bits[..|p.bits|] == p.bits;
    assert p.hashes[0..|p.hashes|] == p.hashes;
    ExtractBuild(txids, mask, h, 0, p, bits, p.hashes, 0, 0, |p.bits|, |p.hashes|);
    assert Below(mask, h, 0) == Matched(mask, 0, n);
  }

  /** Whatever flag bits and hashes are supplied, if they decode to the block's own
      root then every reported transaction is the block's own at that position, and
      positions strictly increase. */
  lemma VerdictSound(txids: seq<Hash>, bits: seq<bool>, hashes: seq<Hash>)
    requires txids != []
    requires var v := Verdict(|txids|, bits, hashes); v.Some? && v.value.hash == Root(txids)
    ensures Authentic(txids, Verdict(|txids|, bits, hashes).value.matches, 0, |txids|)
  {
    var h := Height(|txids|, 0);
    ExtractSound(txids, bits, hashes, h, 0, 0, 0);
  }

  /** The documented size bounds of a whole encoded block. */
  lemma {:induction false} EncodeBounds(txids: seq<Hash>, mask: seq<bool>)
    requires |mask| == |txids| && txids != []
    ensures var N := |Encode(txids, mask).hashes|;
            1 <= N <= |txids| && N <= 1 + |Matched(mask, 0, |mask|)| * Height(|txids|, 0)
  {
    var h := Height(|txids|, 0);
    HashBounds(txids, mask, h, 0);
    assert Below(mask, h, 0) == Matched(mask, 0, |mask|);
  }

  // ---------------------------------------------------------------- the object

  lemma BuildSplit(txids: seq<Hash>, mask: seq<bool>, h: nat, lo: nat, l: Partial, r: Partial)
    requires |mask| == |txids| && lo < |txids| && h > 0 && Below(mask, h, lo) != []
    requires l == Build(txids, mask, h - 1, lo)
    requires r == if HasRight(|txids|, h, lo) then Build(txids, mask, h - 1, lo + Pow2(h - 1)) else Partial([], [])
    ensures Build(txids, mask, h, lo) == Partial([true] + l.bits + r.bits, [] + l.hashes + r.hashes)
  {
    assert [] + l.hashes == l.hashes;
    if !HasRight(|txids|, h, lo) {
      assert [true] + l.bits + [] == [true] + l.bits;
      assert l.hashes + [] == l.hashes;
    }
  }

  lemma Regroup<T>(a: seq<T>, b: seq<T>, c: seq<T>, d: seq<T>, r: seq<T>)
    requires r == (if b == [] then a else a + b) + c + d || (d == [] && r == (if b == [] then a else a + b) + c)
    ensures r == a + (b + c + d)
  {
  }

  datatype Message = Message(nTransactions: nat, vHash: seq<Hash>, vBytes: seq<bv8>)

  function Hashes(ms: seq<(Hash, nat)>): seq<Hash> { seq(|ms|, i requires 0 <= i < |ms| => ms[i].0) }

  function Indices(ms: seq<(Hash, nat)>): seq<nat> { seq(|ms|, i requires 0 <= i < |ms| => ms[i].1) }

  /** The traversal's outputs are those of f, its matches appended to the given lists. */
  predicate Reports(e: Option<Found>, hash: Hash, bitsUsed: nat, hashUsed: nat,
                    match0: seq<Hash>, index0: seq<nat>, vMatch: seq<Hash>, vnIndex: seq<nat>)
  {
    match e
    case None => false
    case Some(f) =>
      && hash == f.hash && bitsUsed == f.bitsUsed && hashUsed == f.hashUsed
      && vMatch == match0 + Hashes(f.matches) && vnIndex == index0 + Indices(f.matches)
  }

  class PartialMerkleTree {
    var nTransactions: nat
    var vBits: seq<bool>
    var vHash: seq<Hash>
    var fBad: bool

    /** The hash of a node of the full tree. */
    method CalcHash(height: nat, pos: nat, vTxid: seq<Hash>) returns (r: Hash)
      requires nTransactions == |vTxid| && First(height, pos) < |vTxid|
      ensures r == TreeHash(vTxid, height, First(height, pos))
      decreases height
    {
      if height == 0 {
        assert First(0, pos) == pos;
        return vTxid[pos];
      }
      Children(height, pos);
      RightIff(nTransactions, height, pos);
      var left := CalcHash(height - 1, pos * 2, vTxid);
      var right := left;
      if pos * 2 + 1 < Width(nTransactions, height - 1) {
        right := CalcHash(height - 1, pos * 2 + 1, vTxid);
      }
      return Node(left, right);
    }

    method ParentOfMatch(height: nat, pos: nat, vMatch: seq<bool>) returns (f: bool)
      requires nTransactions == |vMatch| && First(height, pos) < |vMatch|
      ensures f == (Below(vMatch, height, First(height, pos)) != [])
    {
      f := false;
      var first := First(height, pos);
      var p := first;
      while p < first + Pow2(height) && p < nTransactions
        invariant first <= p <= Min(first + Pow2(height), |vMatch|)
        invariant f == (Matched(vMatch, first, p) != [])
      {
        MatchedAppend(vMatch, first, p, p + 1);
        assert Matched(vMatch, p + 1, p + 1) == [];
        f := f || vMatch[p];
        p := p + 1;
      }
    }

    method TraverseAndBuild(height: nat, pos: nat, ghost lo: nat, vTxid: seq<Hash>, vMatch: seq<bool>)
      requires nTransactions == |vTxid| == |vMatch| && lo == First(height, pos) < |vTxid|
      modifies this
      ensures nTransactions == old(nTransactions) && fBad == old(fBad)
      ensures vBits == old(vBits) + Build(vTxid, vMatch, height, lo).bits
      ensures vHash == old(vHash) + Build(vTxid, vMatch, height, lo).hashes
      decreases height
    {
      var fParentOfMatch := ParentOfMatch(height, pos, vMatch);
      vBits := vBits + [fParentOfMatch];
      if height == 0 || !fParentOfMatch {
        var hash := CalcHash(height, pos, vTxid);
        vHash := vHash + [hash];
      } else {
        Children(height, pos);
        RightIff(nTransactions, height, pos);
        ghost var l := Build(vTxid, vMatch, height - 1, lo);
        ghost var r := Partial([], []);
        TraverseAndBuild(height - 1, pos * 2, lo, vTxid, vMatch);
        if pos * 2 + 1 < Width(nTransactions, height - 1) {
          r := Build(vTxid, vMatch, height - 1, lo + Pow2(height - 1));
          TraverseAndBuild(height - 1, pos * 2 + 1, lo + Pow2(height - 1), vTxid, vMatch);
        }
        BuildSplit(vTxid, vMatch, height, lo, l, r);
        Regroup(old(vBits), [true], l.bits, r.bits, vBits);
        Regroup(old(vHash), [], l.hashes, r.hashes, vHash);
      }
    }

    /** The traversal goes on after an error; only the flag then means anything. */
    method TraverseAndExtract(height: nat, pos: nat, ghost lo: nat, bitsUsed: nat, hashUsed: nat,
                              match0: seq<Hash>, index0: seq<nat>)
      returns (hash: Hash, nBitsUsed: nat, nHashUsed: nat, vMatch: seq<Hash>, vnIndex: seq<nat>)
      requires lo == First(height, pos)
      modifies this`fBad
      ensures old(fBad) ==> fBad
      ensures Extract(nTransactions, vBits, vHash, height, lo, bitsUsed, hashUsed) == None ==> fBad
      ensures Extract(nTransactions, vBits, vHash, height, lo, bitsUsed, hashUsed).Some? ==>
                fBad == old(fBad) &&
                Reports(Extract(nTransactions, vBits, vHash, height, lo, bitsUsed, hashUsed),
                        hash, nBitsUsed, nHashUsed, match0, index0, vMatch, vnIndex)
      decreases height
    {
      nBitsUsed, nHashUsed, vMatch, vnIndex := bitsUsed, hashUsed, match0, index0;
      if nBitsUsed >= |vBits| {
        fBad := true;
        return Digest(0), nBitsUsed, nHashUsed, vMatch, vnIndex;
      }
      var fParentOfMatch := vBits[nBitsUsed];
      nBitsUsed := nBitsUsed + 1;
      if height == 0 || !fParentOfMatch {
        if nHashUsed >= |vHash| {
          fBad := true;
          return Digest(0), nBitsUsed, nHashUsed, vMatch, vnIndex;
        }
        hash := vHash[nHashUsed];
        nHashUsed := nHashUsed + 1;
        if height == 0 && fParentOfMatch {
          vMatch := vMatch + [hash];
          vnIndex := vnIndex + [pos];
        }
      } else {
        Children(height, pos);
        RightIff(nTransactions, height, pos);
        var left;
        left, nBitsUsed, nHashUsed, vMatch, vnIndex :=
          TraverseAndExtract(height - 1, pos * 2, lo, nBitsUsed, nHashUsed, vMatch, vnIndex);
        var right := left;
        if pos * 2 + 1 < Width(nTransactions, height - 1) {
          right, nBitsUsed, nHashUsed, vMatch, vnIndex :=
            TraverseAndExtract(height - 1, pos * 2 + 1, lo + Pow2(height - 1), nBitsUsed, nHashUsed, vMatch, vnIndex);
          if right == left {
            fBad := true;
          }
        }
        hash := Node(left, right);
      }
    }

    method TreeHeight(n: nat) returns (nHeight: nat)
      ensures nHeight == Height(n, 0)
    {
      nHeight := 0;
      OneNode(n, 0);
      while Width(n, nHeight) > 1
        invariant Height(n, nHeight) == Height(n, 0)
        invariant Width(n, nHeight) > 1 <==> n > Pow2(nHeight)
        decreases n - Pow2(nHeight)
      {
        nHeight := nHeight + 1;
        OneNode(n, nHeight);
      }
    }

    constructor FromBlock(vTxid: seq<Hash>, vMatch: seq<bool>)
      requires vTxid != [] && |vTxid| == |vMatch|
      ensures nTransactions == |vTxid| && !fBad
      ensures vBits == Encode(vTxid, vMatch).bits && vHash == Encode(vTxid, vMatch).hashes
    {
      nTransactions, fBad := |vTxid|, false;
      vBits, vHash := [], [];
      new;
      var nHeight := TreeHeight(nTransactions);
      assert First(nHeight, 0) == 0;
      TraverseAndBuild(nHeight, 0, 0, vTxid, vMatch);
    }

    constructor Empty()
      ensures nTransactions == 0 && fBad && vBits == [] && vHash == []
    {
      nTransactions, fBad := 0, true;
      vBits, vHash := [], [];
    }

    /** None stands for the null hash. The index list is appended to, not cleared. */
    method ExtractMatches(index0: seq<nat>) returns (root: Option<Hash>, vMatch: seq<Hash>, vnIndex: seq<nat>)
      modifies this`fBad
      ensures old(fBad) ==> root == None
      ensures !old(fBad) ==>
                var v := Verdict(nTransactions, vBits, vHash);
                && root == (if v.Some? then Some(v.value.hash) else None)
                && (v.Some? ==> vMatch == Hashes(v.value.matches) && vnIndex == index0 + Indices(v.value.matches))
                && (v.Some? ==> 1 <= nTransactions <= 16666 && |vHash| <= nTransactions && |vHash| <= |vBits|)
                && (v.Some? ==> !fBad)
    {
      vMatch, vnIndex := [], index0;
      if nTransactions == 0 || nTransactions > MAX_BLOCK_WEIGHT / MIN_TRANSACTION_WEIGHT
         || |vHash| > nTransactions || |vBits| < |vHash| {
        return None, vMatch, vnIndex;
      }
      var nHeight := TreeHeight(nTransactions);
      assert First(nHeight, 0) == 0;
      var hash, nBitsUsed, nHashUsed;
      hash, nBitsUsed, nHashUsed, vMatch, vnIndex := TraverseAndExtract(nHeight, 0, 0, 0, 0, vMatch, vnIndex);
      if fBad || (nBitsUsed + 7) / 8 != (|vBits| + 7) / 8 || nHashUsed != |vHash| {
        return None, vMatch, vnIndex;
      }
      return Some(hash), vMatch, vnIndex;
    }

    method Write() returns (m: Message)
      ensures m.nTransactions == nTransactions && m.vHash == vHash && Packs(m.vBytes, vBits) && Weighs(m.vBytes, vBits)
    {
      var vBytes := seq((|vBits| + 7) / 8, _ => 0 as bv8);
      var p := 0;
      while p < |vBits|
        invariant 0 <= p <= |vBits|
        invariant |vBytes| == (|vBits| + 7) / 8
        invariant forall q: nat | q < 8 * |vBytes| :: FlagAt(vBytes, q) == (q < p && vBits[q])
      {
        var next := if vBits[p] then vBytes[p / 8 := vBytes[p / 8] | Mask(p % 8)] else vBytes;
        forall q: nat | q < 8 * |vBytes| ensures FlagAt(next, q) == (q < p + 1 && vBits[q]) {
          SetBit(vBytes[p / 8], p % 8, q % 8);
          assert FlagAt(vBytes, q) == (q < p && vBits[q]);
        }
        vBytes := next;
        p := p + 1;
      }
      PacksWeighs(vBytes, vBits);
      m := Message(nTransactions, vHash, vBytes);
    }

    constructor Read(m: Message)
      ensures nTransactions == m.nTransactions && vHash == m.vHash && !fBad
      ensures vBits == Unpacked(m.vBytes) && Weighs(m.vBytes, vBits)
    {
      nTransactions, vHash, fBad := m.nTransactions, m.vHash, false;
      var bits := [];
      var p := 0;
      while p < 8 * |m.vBytes|
        invariant 0 <= p <= 8 * |m.vBytes|
        invariant bits == Unpacked(m.vBytes)[..p]
      {
        bits := bits + [m.vBytes[p / 8] & Mask(p % 8) != 0];
        p := p + 1;
      }
      vBits := bits;
      PacksWeighs(m.vBytes, Unpacked(m.vBytes));
    }
  }

  /** A block filtered by its sender and decoded by its receiver. */
  method SendAndReceive(vTxid: seq<Hash>, vMatch: seq<bool>)
    returns (root: Option<Hash>, hashes: seq<Hash>, index: seq<nat>)
    requires |vMatch| == |vTxid| && Distinct(vTxid) && 1 <= |vTxid| <= MAX_BLOCK_WEIGHT / MIN_TRANSACTION_WEIGHT
    ensures root == Some(Root(vTxid))
    ensures hashes == Hashes(Matches(vTxid, vMatch)) && index == Indices(Matches(vTxid, vMatch))
  {
    var sent := new PartialMerkleTree.FromBlock(vTxid, vMatch);
    var m := sent.Write();
    var received := new PartialMerkleTree.Read(m);
    UnpackPack(m.vBytes, sent.vBits);
    VerdictOfEncode(vTxid, vMatch, received.vBits);
    root, hashes, index := received.ExtractMatches([]);
    assert [] + Indices(Matches(vTxid, vMatch)) == Indices(Matches(vTxid, vMatch));
  }
}
