/** The Merkle root of a block, level by level, and the flag for lists that could stand for
    another one. Two lists of transactions without the flag never share a root. */
module MerkleRoots {
  import opened Basics
  import opened Powers
  import opened MerkleTrees
  import opened MerkleBlocks

  // ---------------------------------------------------------------- one level

  /** The level above: neighbours hashed together, a last one left over with itself. */
  function Parents(xs: seq<Hash>): (r: seq<Hash>)
    ensures |r| == (|xs| + 1) / 2
  {
    seq((|xs| + 1) / 2, i requires 0 <= i < (|xs| + 1) / 2 =>
      Node(xs[2 * i], if 2 * i + 1 < |xs| then xs[2 * i + 1] else xs[2 * i]))
  }

  /** The root, of a list that is not empty. */
  function MerkleRoot(xs: seq<Hash>): Hash
    requires xs != []
    decreases |xs|
  {
    if |xs| == 1 then xs[0] else MerkleRoot(Parents(xs))
  }

  /** Some pair of neighbours that would be hashed together is equal. */
  ghost predicate EqualPair(xs: seq<Hash>) { exists i: nat | 2 * i + 1 < |xs| :: SamePair(xs, i) }

  predicate SamePair(xs: seq<Hash>, i: nat)
    requires 2 * i + 1 < |xs|
  {
    xs[2 * i] == xs[2 * i + 1]
  }

  /** There is such a pair at some level. */
  ghost predicate Mutated(xs: seq<Hash>)
    decreases |xs|
  {
    |xs| > 1 && (EqualPair(xs) || Mutated(Parents(xs)))
  }

  // ------------------------------------------------------------ roots tell the list

  lemma {:induction false} SameAt(xs: seq<Hash>, ys: seq<Hash>, i: nat)
    requires Parents(xs) == Parents(ys) && !EqualPair(xs) && !EqualPair(ys) && 2 * i < |xs|
    ensures 2 * i < |ys| && xs[2 * i] == ys[2 * i]
    ensures 2 * i + 1 < |xs| <==> 2 * i + 1 < |ys|
    ensures 2 * i + 1 < |xs| ==> xs[2 * i + 1] == ys[2 * i + 1]
  {
    assert |Parents(xs)| == |Parents(ys)|;
    assert Parents(xs)[i] == Parents(ys)[i];
    if 2 * i + 1 < |xs| {
      assert !SamePair(xs, i);
    }
    if 2 * i + 1 < |ys| {
      assert !SamePair(ys, i);
    }
  }

  /** A level without equal pairs can be read off the one above. */
  lemma {:induction false} ParentsTell(xs: seq<Hash>, ys: seq<Hash>)
    requires Parents(xs) == Parents(ys) && !EqualPair(xs) && !EqualPair(ys)
    ensures xs == ys
  {
    assert |Parents(xs)| == |Parents(ys)|;
    if xs != [] {
      SameAt(xs, ys, (|xs| - 1) / 2);
      assert |xs| == |ys|;
    }
    forall k | 0 <= k < |xs| ensures xs[k] == ys[k] {
      SameAt(xs, ys, k / 2);
    }
  }

  /** Hashed d times over. */
  predicate AtDepth(x: Hash, d: nat) { if d == 0 then x.Digest? else x.Node? && AtDepth(x.left, d - 1) }

  lemma {:induction false} DepthUnique(x: Hash, d: nat, e: nat)
    requires AtDepth(x, d) && AtDepth(x, e)
    ensures d == e
  {
    if d > 0 && e > 0 {
      DepthUnique(x.left, d - 1, e - 1);
    }
  }

  ghost predicate AllAtDepth(xs: seq<Hash>, d: nat) { forall i | 0 <= i < |xs| :: AtDepth(xs[i], d) }

  lemma ParentsDepth(xs: seq<Hash>, d: nat)
    requires AllAtDepth(xs, d)
    ensures AllAtDepth(Parents(xs), d + 1)
  {
  }

  /** The root lies above the list, as far as there are levels. */
  lemma {:induction false} RootDepth(xs: seq<Hash>, d: nat) returns (e: nat)
    requires xs != [] && AllAtDepth(xs, d)
    ensures e >= d && AtDepth(MerkleRoot(xs), e) && (|xs| > 1 ==> e > d)
    decreases |xs|
  {
    e := d;
    if |xs| > 1 {
      ParentsDepth(xs, d);
      e := RootDepth(Parents(xs), d + 1);
    }
  }

  lemma {:induction false} SameLevels(xs: seq<Hash>, ys: seq<Hash>, d: nat)
    requires xs != [] && ys != [] && AllAtDepth(xs, d) && AllAtDepth(ys, d) && MerkleRoot(xs) == MerkleRoot(ys)
    ensures |xs| > 1 <==> |ys| > 1
  {
    var e := RootDepth(xs, d);
    var f := RootDepth(ys, d);
    DepthUnique(MerkleRoot(xs), e, f);
    if |xs| == 1 {
      DepthUnique(xs[0], d, e);
    }
    if |ys| == 1 {
      DepthUnique(ys[0], d, f);
    }
  }

  /** Lists of the same depth with one root, neither of them with the flag, are equal. */
  lemma {:induction false} RootsTell(xs: seq<Hash>, ys: seq<Hash>, d: nat)
    requires xs != [] && ys != [] && AllAtDepth(xs, d) && AllAtDepth(ys, d) && MerkleRoot(xs) == MerkleRoot(ys)
    requires !Mutated(xs) && !Mutated(ys)
    ensures xs == ys
    decreases |xs|
  {
    SameLevels(xs, ys, d);
    if |xs| == 1 {
      assert xs == [xs[0]] && ys == [ys[0]];
    } else {
      ParentsDepth(xs, d);
      ParentsDepth(ys, d);
      RootsTell(Parents(xs), Parents(ys), d + 1);
      ParentsTell(xs, ys);
    }
  }

  /** Without the flag, transactions cannot be changed without changing the root. */
  lemma {:induction false} RootsDiffer(xs: seq<Hash>, ys: seq<Hash>)
    requires xs != [] && ys != [] && xs != ys && !Mutated(xs) && !Mutated(ys)
    requires forall i | 0 <= i < |xs| :: xs[i].Digest?
    requires forall i | 0 <= i < |ys| :: ys[i].Digest?
    ensures MerkleRoot(xs) != MerkleRoot(ys)
  {
    if MerkleRoot(xs) == MerkleRoot(ys) {
      RootsTell(xs, ys, 0);
    }
  }

  // ------------------------------------------------------------ what has the flag

  lemma {:induction false} ParentsDistinct(xs: seq<Hash>)
    requires Distinct(xs)
    ensures Distinct(Parents(xs)) && !EqualPair(xs)
  {
    var ps := Parents(xs);
    forall i, j | 0 <= i < j < |ps| ensures ps[i] != ps[j] {
      assert ps[i].left == xs[2 * i] && ps[j].left == xs[2 * j];
    }
  }

  /** A list of distinct transactions never has the flag. */
  lemma {:induction false} DistinctUnmutated(xs: seq<Hash>)
    requires Distinct(xs)
    ensures !Mutated(xs)
    decreases |xs|
  {
    ParentsDistinct(xs);
    if |xs| > 1 {
      DistinctUnmutated(Parents(xs));
    }
  }

  /** Repeating the last of an odd number of transactions keeps the root, and sets the flag. */
  lemma {:induction false} RepeatedLast(xs: seq<Hash>, ys: seq<Hash>)
    requires |xs| % 2 == 1 && |xs| > 1 && ys == xs + [xs[|xs| - 1]]
    ensures MerkleRoot(ys) == MerkleRoot(xs) && Mutated(ys)
  {
    assert Parents(ys) == Parents(xs);
    assert SamePair(ys, (|xs| - 1) / 2);
  }

  // ------------------------------------------------------------- the tree of a block

  lemma {:induction false} ParentsTree(xs: seq<Hash>, h: nat, p: nat)
    requires 2 * p < |xs|
    ensures p < |Parents(xs)| && TreeHash(Parents(xs), h, p) == TreeHash(xs, h + 1, 2 * p)
    decreases h
  {
    if h == 0 {
      assert TreeHash(xs, 1, 2 * p) == Node(xs[2 * p], if 2 * p + 1 < |xs| then xs[2 * p + 1] else xs[2 * p]);
    } else {
      ParentsTree(xs, h - 1, p);
      if HasRight(|xs|, h + 1, 2 * p) {
        ParentsTree(xs, h - 1, p + Pow2(h - 1));
      }
    }
  }

  lemma {:induction false} HeightParents(n: nat, h: nat)
    requires n > Pow2(h + 1) || n > 1
    ensures Height(n, h + 1) == 1 + Height((n + 1) / 2, h)
    decreases n - Pow2(h)
  {
    if n > Pow2(h + 1) {
      HeightParents(n, h + 1);
    }
  }

  /** The root that partial trees are checked against is the root computed level by level. */
  lemma {:induction false} RootIsTree(xs: seq<Hash>)
    requires xs != []
    ensures MerkleRoot(xs) == Root(xs)
    decreases |xs|
  {
    if |xs| > 1 {
      RootIsTree(Parents(xs));
      HeightParents(|xs|, 0);
      ParentsTree(xs, Height(|Parents(xs)|, 0), 0);
    }
  }

  // ------------------------------------------------------------------- the loops

  /** Whether one of the pairs to be hashed together is equal. */
  method FindEqualPair(hashes: seq<Hash>) returns (found: bool)
    ensures found == EqualPair(hashes)
  {
    found := false;
    var pos := 0;
    while pos + 1 < |hashes|
      invariant pos % 2 == 0 && 0 <= pos <= |hashes| + 1
      invariant found <==> exists i: nat | 2 * i < pos && 2 * i + 1 < |hashes| :: SamePair(hashes, i)
    {
      assert hashes[pos] == hashes[pos + 1] <==> SamePair(hashes, pos / 2);
      if hashes[pos] == hashes[pos + 1] {
        found := true;
      }
      pos := pos + 2;
    }
  }

  /** Hashes the pairs of an even number of hashes, in place of the first half. */
  method HashPairs(hashes: seq<Hash>) returns (r: seq<Hash>)
    requires |hashes| % 2 == 0
    ensures r == Parents(hashes)
  {
    r := [];
    for i := 0 to |hashes| / 2
      invariant |r| == i && forall j | 0 <= j < i :: r[j] == Node(hashes[2 * j], hashes[2 * j + 1])
    {
      r := r + [Node(hashes[2 * i], hashes[2 * i + 1])];
    }
  }

  /** The root, None for an empty list, and whether some level has an equal pair. */
  method ComputeMerkleRoot(leaves: seq<Hash>) returns (root: Option<Hash>, mutated: bool)
    ensures root == if leaves == [] then None else Some(Root(leaves))
    ensures mutated == Mutated(leaves)
    ensures Distinct(leaves) ==> !mutated
  {
    var hashes := leaves;
    mutated := false;
    while |hashes| > 1
      invariant hashes == [] <==> leaves == []
      invariant hashes != [] ==> MerkleRoot(hashes) == MerkleRoot(leaves)
      invariant mutated || Mutated(hashes) <==> Mutated(leaves)
      decreases |hashes|
    {
      var equal := FindEqualPair(hashes);
      if equal {
        mutated := true;
      }
      ghost var level := hashes;
      if |hashes| % 2 == 1 {
        hashes := hashes + [hashes[|hashes| - 1]];
      }
      assert Parents(hashes) == Parents(level);
      hashes := HashPairs(hashes);
    }
    if leaves != [] {
      RootIsTree(leaves);
    }
    if Distinct(leaves) {
      DistinctUnmutated(leaves);
    }
    root := if |hashes| == 0 then None else Some(hashes[0]);
  }
}
