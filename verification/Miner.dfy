/** Selecting packages of transactions for a block. */
module Miner {
  import opened Mempools
  import opened ModifiedTotals
  import opened FeeRates

  const MAX_BLOCK_WEIGHT := 4000000
  const MAX_BLOCK_SIGOPS_COST := 80000
  const MAX_CONSECUTIVE_FAILURES := 1000
  const COINBASE_WEIGHT := 4000
  const COINBASE_SIGOPS := 400

  // ------------------------------------------------------------ the selection

  function Elements(s: seq<nat>): set<nat> { set t | t in s }

  /** The selected transactions are distinct, and each follows all its ancestors. */
  ghost predicate Ordered(pool: Pool, vtx: seq<nat>) {
    && (forall i | 0 <= i < |vtx| :: vtx[i] in pool && pool[vtx[i]].ancestors <= Elements(vtx[..i]))
    && (forall i, j | 0 <= i < j < |vtx| :: vtx[i] != vtx[j])
  }

  lemma OrderedClosed(pool: Pool, vtx: seq<nat>)
    requires Ordered(pool, vtx)
    ensures Closed(pool, Elements(vtx))
  {
    forall t | t in Elements(vtx) ensures t in pool && pool[t].ancestors <= Elements(vtx) {
      var i :| 0 <= i < |vtx| && vtx[i] == t;
      assert Elements(vtx[..i]) <= Elements(vtx);
    }
  }

  /** A transaction may be appended once all its ancestors are there. */
  lemma AppendOrdered(pool: Pool, vtx: seq<nat>, t: nat)
    requires Ordered(pool, vtx) && t in pool && pool[t].ancestors <= Elements(vtx) && t !in vtx
    ensures Ordered(pool, vtx + [t]) && Elements(vtx + [t]) == Elements(vtx) + {t}
  {
    var v := vtx + [t];
    forall i | 0 <= i < |v| ensures v[i] in pool && pool[v[i]].ancestors <= Elements(v[..i]) {
      if i < |vtx| {
        assert v[..i] == vtx[..i];
      } else {
        assert v[..i] == vtx;
      }
    }
  }

  // ------------------------------------------------------------------ the block

  datatype Block = Block(vtx: seq<nat>, inBlock: set<nat>, weight: int, sigOps: int, fees: int)

  /** The selection is in order and the counters are its exact totals. */
  ghost predicate Sound(pool: Pool, b: Block) {
    && Ordered(pool, b.vtx) && b.inBlock == Elements(b.vtx)
    && b.weight == COINBASE_WEIGHT + Total(pool, Weights, b.inBlock)
    && b.sigOps == COINBASE_SIGOPS + Total(pool, SigOps, b.inBlock)
    && b.fees == Total(pool, Fees, b.inBlock)
  }

  function Append(pool: Pool, b: Block, t: nat): Block
    requires t in pool
  {
    Block(b.vtx + [t], b.inBlock + {t}, b.weight + pool[t].weight, b.sigOps + pool[t].sigOps, b.fees + pool[t].fee)
  }

  lemma AppendSound(pool: Pool, b: Block, t: nat)
    requires Sound(pool, b) && t in pool && pool[t].ancestors <= b.inBlock && t !in b.inBlock
    ensures Sound(pool, Append(pool, b, t))
  {
    AppendOrdered(pool, b.vtx, t);
    var s := b.inBlock + {t};
    assert s - {t} == b.inBlock;
    TotalTake(pool, Weights, s, t);
    TotalTake(pool, SigOps, s, t);
    TotalTake(pool, Fees, s, t);
  }

  /** Sorted by ancestor count, ties by hash: what a sorted package looks like. */
  predicate Before(pool: Pool, a: nat, b: nat)
    requires a in pool && b in pool
  {
    |pool[a].ancestors| < |pool[b].ancestors| || (|pool[a].ancestors| == |pool[b].ancestors| && a < b)
  }

  ghost predicate Sorted(pool: Pool, s: seq<nat>) {
    && (forall i | 0 <= i < |s| :: s[i] in pool)
    && (forall i, j | 0 <= i < j < |s| :: Before(pool, s[i], s[j]))
  }

  /** In a sorted package every ancestor comes earlier or is in the block already. */
  lemma SortedFollows(pool: Pool, t: nat, inBlock: set<nat>, s: seq<nat>, i: nat)
    requires Graph(pool) && t in pool && Sorted(pool, s) && Elements(s) == Missing(pool, t, inBlock) && i < |s|
    ensures s[i] in pool && pool[s[i]].ancestors <= inBlock + Elements(s[..i])
    ensures s[i] !in inBlock + Elements(s[..i])
  {
    assert s[i] in Elements(s);
    forall a | a in pool[s[i]].ancestors && a !in inBlock ensures a in Elements(s[..i]) {
      assert a in Package(pool, t);
      assert a in Elements(s);
      var j :| 0 <= j < |s| && s[j] == a;
      CountGrows(pool, a, s[i]);
      assert j < i;
      assert s[..i][j] == a;
    }
  }

  /** A package that passes the size test fits, whatever slack its totals carry. */
  lemma {:induction false} PackageFits(pool: Pool, b: Block, pkg: set<nat>, b2: Block, size: int, sigOps: int,
      maxWeight: nat)
    requires Sound(pool, b) && Sound(pool, b2) && b2.inBlock == b.inBlock + pkg && pkg !! b.inBlock
    requires Total(pool, Sizes, pkg) <= size && Total(pool, SigOps, pkg) <= sigOps
    requires b.weight + WITNESS_SCALE_FACTOR * size < maxWeight && b.sigOps + sigOps < MAX_BLOCK_SIGOPS_COST
    ensures b.weight <= b2.weight < maxWeight && b.sigOps <= b2.sigOps < 80000
  {
    TotalSplit(pool, Weights, b.inBlock, pkg);
    TotalSplit(pool, SigOps, b.inBlock, pkg);
    WeightBySize(pool, pkg);
    TotalNat(pool, Weights, pkg);
    TotalNat(pool, SigOps, pkg);
  }

  // --------------------------------------------------------- what is left out

  predicate Acceptable(pool: Pool, t: nat, segwit: bool) {
    t in pool && pool[t].isFinal && (segwit || !pool[t].hasWitness)
  }

  /** The package of t does not fit on top of the block. */
  ghost predicate Oversize(pool: Pool, t: nat, b: Block, maxWeight: nat)
    requires t in pool
  {
    || b.weight + WITNESS_SCALE_FACTOR * Total(pool, Sizes, Package(pool, t)) >= maxWeight
    || b.sigOps + Total(pool, SigOps, Package(pool, t)) >= MAX_BLOCK_SIGOPS_COST
  }

  /** The reason a transaction stays out: its package does not fit on top of the
      block, or holds a transaction that may not be included. */
  ghost predicate Rejected(pool: Pool, t: nat, b: Block, maxWeight: nat, segwit: bool) {
    t in pool &&
    (Oversize(pool, t, b, maxWeight) || exists x :: x in Package(pool, t) && !Acceptable(pool, x, segwit))
  }

  /** A transaction is in the block, still to be considered, or rejected. */
  ghost predicate Settled(pool: Pool, t: nat, b: Block, m: ModifiedMap, rest: seq<nat>, maxWeight: nat, segwit: bool) {
    t in b.inBlock || t in m || t in rest || Rejected(pool, t, b, maxWeight, segwit)
  }

  ghost predicate Pending(pool: Pool, b: Block, m: ModifiedMap, failed: set<nat>, rest: seq<nat>, maxWeight: nat,
      segwit: bool) {
    && (forall t | t in pool :: Settled(pool, t, b, m, rest, maxWeight, segwit))
    && (forall t | t in failed :: Rejected(pool, t, b, maxWeight, segwit))
    && Tracked(pool, b.inBlock, m, failed)
  }

  ghost predicate Good(pool: Pool, b: Block, maxWeight: nat) {
    && Graph(pool) && Exact(pool) && Sound(pool, b)
    && b.weight <= maxWeight && b.sigOps < MAX_BLOCK_SIGOPS_COST
  }

  lemma InPool(pool: Pool, b: Block)
    requires Sound(pool, b)
    ensures b.inBlock <= pool.Keys
  {
    OrderedClosed(pool, b.vtx);
  }

  function Fill(pool: Pool, b: Block, s: seq<nat>): Block
    requires Elements(s) <= pool.Keys
  {
    if s == [] then b
    else
      assert s[|s| - 1] in Elements(s) && Elements(s[..|s| - 1]) <= Elements(s);
      Append(pool, Fill(pool, b, s[..|s| - 1]), s[|s| - 1])
  }

  /** Each entry of s may be appended once the block and those before it are there. */
  ghost predicate Follows(pool: Pool, inBlock: set<nat>, s: seq<nat>) {
    forall i | 0 <= i < |s| ::
      s[i] in pool && s[i] !in inBlock + Elements(s[..i]) && pool[s[i]].ancestors <= inBlock + Elements(s[..i])
  }

  /** f is b with the transactions `done` added in some valid order. */
  ghost predicate Extends(pool: Pool, b: Block, done: set<nat>, f: Block) {
    Sound(pool, f) && f.inBlock == b.inBlock + done && b.vtx <= f.vtx
  }

  lemma ExtendOne(pool: Pool, b: Block, done: set<nat>, f: Block, x: nat, f2: Block)
    requires Extends(pool, b, done, f) && x in pool && f2 == Append(pool, f, x)
    requires x !in b.inBlock + done && pool[x].ancestors <= b.inBlock + done
    ensures Extends(pool, b, done + {x}, f2)
  {
    AppendSound(pool, f, x);
  }

  /** Adding such a sequence one by one keeps the selection in order at each step. */
  lemma {:induction false} FillSound(pool: Pool, b: Block, s: seq<nat>, i: nat)
    requires Sound(pool, b) && Follows(pool, b.inBlock, s) && i <= |s|
    ensures Elements(s[..i]) <= pool.Keys
    ensures Extends(pool, b, Elements(s[..i]), Fill(pool, b, s[..i]))
  {
    if i > 0 {
      FillSound(pool, b, s, i - 1);
      FillNext(pool, b, s, i);
      ExtendOne(pool, b, Elements(s[..i - 1]), Fill(pool, b, s[..i - 1]), s[i - 1], Fill(pool, b, s[..i]));
    }
  }

  lemma {:induction false} FillNext(pool: Pool, b: Block, s: seq<nat>, i: nat)
    requires 0 < i <= |s| && Elements(s[..i - 1]) <= pool.Keys && s[i - 1] in pool
    ensures Elements(s[..i]) == Elements(s[..i - 1]) + {s[i - 1]}
    ensures Fill(pool, b, s[..i]) == Append(pool, Fill(pool, b, s[..i - 1]), s[i - 1])
  {
    assert s[..i][..i - 1] == s[..i - 1] && s[..i][i - 1] == s[i - 1];
  }

  /** What holds of the block and the modified entries at the head of the loop. */
  ghost predicate Head(pool: Pool, b0: Block, b: Block, m: ModifiedMap, maxWeight: nat, segwit: bool) {
    && Good(pool, b, maxWeight) && b0.vtx <= b.vtx && (b.vtx != b0.vtx ==> b.weight < maxWeight)
    && Bounds(pool, b.inBlock, m)
    && (forall t | t in b.inBlock - b0.inBlock :: Acceptable(pool, t, segwit))
  }

  lemma HeadStart(pool: Pool, b0: Block, m: ModifiedMap, order: seq<nat>, maxWeight: nat, segwit: bool)
    requires Good(pool, b0, maxWeight) && Index(pool, order)
    requires Updated(pool, map[], b0.inBlock, b0.inBlock, m)
    ensures Head(pool, b0, b0, m, maxWeight, segwit) && Pending(pool, b0, m, {}, order[0..], maxWeight, segwit)
  {
    UpdatedBounds(pool, {}, b0.inBlock, map[], m);
    assert {} + b0.inBlock == b0.inBlock;
    assert order[0..] == order;
    TrackedStart(pool, b0.inBlock, m);
  }

  lemma PendingSkip(pool: Pool, b: Block, m: ModifiedMap, failed: set<nat>, order: seq<nat>, mi: nat, maxWeight: nat,
      segwit: bool)
    requires mi < |order| && Pending(pool, b, m, failed, order[mi..], maxWeight, segwit)
    requires order[mi] in m || order[mi] in b.inBlock || order[mi] in failed
             || Rejected(pool, order[mi], b, maxWeight, segwit)
    ensures Pending(pool, b, m, failed, order[mi + 1..], maxWeight, segwit)
  {
    assert order[mi..] == [order[mi]] + order[mi + 1..];
    forall t | t in pool ensures Settled(pool, t, b, m, order[mi + 1..], maxWeight, segwit) {
      assert Settled(pool, t, b, m, order[mi..], maxWeight, segwit);
    }
  }

  /** A transaction outside the block with usable bounds on what its package adds. */
  ghost predicate Candidate(pool: Pool, b: Block, t: nat, totals: Modified) {
    && t in pool && t !in b.inBlock
    && Total(pool, Sizes, Missing(pool, t, b.inBlock)) <= totals.size <= Total(pool, Sizes, Package(pool, t))
    && Total(pool, SigOps, Missing(pool, t, b.inBlock)) <= totals.sigOps <= Total(pool, SigOps, Package(pool, t))
  }

  /** The selection ends at c: it is outside the block and pays less than the minimum by
      the totals in force, and whatever else there is was added, was rejected or pays no more. */
  ghost predicate EndsAt(pool: Pool, b: Block, left: ModifiedMap, failed: set<nat>, c: nat, minimumFee: int -> int,
      maxWeight: nat, segwit: bool) {
    && c in pool && c !in b.inBlock && (c in left || c !in failed)
    && InForce(pool, left, c).modFees < minimumFee(InForce(pool, left, c).size)
    && forall t | t in pool :: t in b.inBlock || Rejected(pool, t, b, maxWeight, segwit) || NoFaster(pool, left, t, c)
  }

  lemma NoneBetter(pool: Pool, b: Block, m: ModifiedMap, failed: set<nat>, order: seq<nat>, mi: nat, c: nat, t: nat,
      maxWeight: nat, segwit: bool)
    requires c in pool && t in pool && mi <= |order| && Chosen(pool, m, order, mi, c)
    requires Settled(pool, t, b, m, order[mi..], maxWeight, segwit)
    ensures t in b.inBlock || Rejected(pool, t, b, maxWeight, segwit) || NoFaster(pool, m, t, c)
  {
    if t in order[mi..] && t !in m {
      var k :| mi <= k < |order| && order[k] == t;
    }
  }

  /** Transactions that failed the size test since the block last grew: outside the block,
      too large for it and out of the running. */
  ghost predicate Misfits(pool: Pool, b: Block, misfits: set<nat>, m: ModifiedMap, failed: set<nat>, rest: seq<nat>,
      maxWeight: nat) {
    forall t | t in misfits ::
      && t in pool && t !in b.inBlock && Oversize(pool, t, b, maxWeight)
      && t !in m && (t in failed || t !in rest)
  }

  /** Transactions outside the block whose packages do not fit on top of it. */
  ghost predicate TooLarge(pool: Pool, b: Block, ts: set<nat>, maxWeight: nat) {
    forall t | t in ts :: t in pool && t !in b.inBlock && Oversize(pool, t, b, maxWeight)
  }

  lemma MisfitsTooLarge(pool: Pool, b: Block, misfits: set<nat>, m: ModifiedMap, failed: set<nat>, rest: seq<nat>,
      maxWeight: nat)
    requires Misfits(pool, b, misfits, m, failed, rest, maxWeight)
    ensures TooLarge(pool, b, misfits, maxWeight)
  {
  }

  /** A failed candidate leaves the running: a modified entry is erased and remembered, an
      index entry is passed over. */
  predicate Dropped(iter: nat, modified: bool, mi0: nat, m0: ModifiedMap, failed0: set<nat>, mi: nat, m: ModifiedMap,
      failed: set<nat>) {
    if modified then iter in m0 && m == m0 - {iter} && failed == failed0 + {iter} && mi == mi0
    else iter !in m0 && iter !in failed0 && m == m0 && failed == failed0 && mi == mi0 + 1
  }

  lemma MisfitsDrop(pool: Pool, b: Block, misfits: set<nat>, order: seq<nat>, iter: nat, modified: bool, mi0: nat,
      m0: ModifiedMap, failed0: set<nat>, mi: nat, m: ModifiedMap, failed: set<nat>, maxWeight: nat)
    requires mi0 <= mi <= |order| && Misfits(pool, b, misfits, m0, failed0, order[mi0..], maxWeight)
    requires Dropped(iter, modified, mi0, m0, failed0, mi, m, failed) && Once(order)
    requires !modified ==> order[mi0] == iter
    requires iter in pool && iter !in b.inBlock
    ensures Misfits(pool, b, misfits, m, failed, order[mi..], maxWeight)
    ensures |misfits + {iter}| == |misfits| + 1
    ensures Oversize(pool, iter, b, maxWeight) ==> Misfits(pool, b, misfits + {iter}, m, failed, order[mi..], maxWeight)
  {
    assert iter !in misfits;
    if !modified {
      assert order[mi0..] == [iter] + order[mi..];
      assert forall k: nat | mi <= k < |order| :: order[k] != iter;
    }
  }

  lemma MisfitsSkip(pool: Pool, b: Block, misfits: set<nat>, m: ModifiedMap, failed: set<nat>, order: seq<nat>,
      mi: nat, maxWeight: nat)
    requires mi < |order| && Misfits(pool, b, misfits, m, failed, order[mi..], maxWeight)
    ensures Misfits(pool, b, misfits, m, failed, order[mi + 1..], maxWeight)
  {
    assert order[mi..] == [order[mi]] + order[mi + 1..];
  }

  lemma CachedCandidate(pool: Pool, b: Block, t: nat)
    requires Exact(pool) && t in pool && t !in b.inBlock
    ensures Candidate(pool, b, t, Cached(pool, t))
  {
    TotalWithout(pool, Sizes, Package(pool, t), b.inBlock);
    TotalWithout(pool, SigOps, Package(pool, t), b.inBlock);
  }

  predicate Fits(b: Block, totals: Modified, maxWeight: nat) {
    b.weight + WITNESS_SCALE_FACTOR * totals.size < maxWeight && b.sigOps + totals.sigOps < MAX_BLOCK_SIGOPS_COST
  }

  ghost predicate AllAcceptable(pool: Pool, s: set<nat>, segwit: bool) {
    forall t | t in s :: Acceptable(pool, t, segwit)
  }

  lemma FailedIsRejected(pool: Pool, b: Block, t: nat, totals: Modified, maxWeight: nat, segwit: bool)
    requires Candidate(pool, b, t, totals)
    requires !Fits(b, totals, maxWeight) || !AllAcceptable(pool, Missing(pool, t, b.inBlock), segwit)
    ensures Rejected(pool, t, b, maxWeight, segwit)
    ensures !Fits(b, totals, maxWeight) ==> Oversize(pool, t, b, maxWeight)
  {
    if Fits(b, totals, maxWeight) {
      var x :| x in Missing(pool, t, b.inBlock) && !Acceptable(pool, x, segwit);
      assert x in Package(pool, t);
    }
  }

  lemma PendingErase(pool: Pool, b: Block, m: ModifiedMap, failed: set<nat>, rest: seq<nat>, t: nat, maxWeight: nat,
      segwit: bool)
    requires Pending(pool, b, m, failed, rest, maxWeight, segwit) && Rejected(pool, t, b, maxWeight, segwit)
    ensures Pending(pool, b, m - {t}, failed + {t}, rest, maxWeight, segwit)
  {
    TrackedErase(pool, b.inBlock, m, failed, t);
    forall x | x in pool ensures Settled(pool, x, b, m - {t}, rest, maxWeight, segwit) {
      assert Settled(pool, x, b, m, rest, maxWeight, segwit);
    }
  }

  lemma HeadErase(pool: Pool, b0: Block, b: Block, m: ModifiedMap, t: nat, maxWeight: nat, segwit: bool)
    requires Head(pool, b0, b, m, maxWeight, segwit)
    ensures Head(pool, b0, b, m - {t}, maxWeight, segwit)
  {
  }

  lemma RejectedGrows(pool: Pool, t: nat, b: Block, b2: Block, maxWeight: nat, segwit: bool)
    requires Rejected(pool, t, b, maxWeight, segwit) && b.weight <= b2.weight && b.sigOps <= b2.sigOps
    ensures Rejected(pool, t, b2, maxWeight, segwit)
  {
  }

  /** Adding a package settles it and unsettles nothing. */
  lemma PendingAdd(pool: Pool, b: Block, b2: Block, m: ModifiedMap, m2: ModifiedMap, pkg: set<nat>, failed: set<nat>,
                   rest: seq<nat>, rest2: seq<nat>, maxWeight: nat, segwit: bool)
    requires Pending(pool, b, m, failed, rest, maxWeight, segwit)
    requires b2.inBlock == b.inBlock + pkg && m.Keys - pkg <= m2.Keys && Tracked(pool, b2.inBlock, m2, failed)
    requires b.weight <= b2.weight && b.sigOps <= b2.sigOps
    requires forall t | t in rest && t !in pkg :: t in rest2
    ensures Pending(pool, b2, m2, failed, rest2, maxWeight, segwit)
  {
    forall t | t in pool ensures Settled(pool, t, b2, m2, rest2, maxWeight, segwit) {
      assert Settled(pool, t, b, m, rest, maxWeight, segwit);
      if Rejected(pool, t, b, maxWeight, segwit) {
        RejectedGrows(pool, t, b, b2, maxWeight, segwit);
      }
    }
    forall t | t in failed ensures Rejected(pool, t, b2, maxWeight, segwit) {
      RejectedGrows(pool, t, b, b2, maxWeight, segwit);
    }
  }

  /** Adding a candidate's missing package keeps everything that holds at the head. */
  lemma {:induction false} HeadAdd(pool: Pool, b0: Block, b: Block, m: ModifiedMap, t: nat, totals: Modified,
      pkg: set<nat>, s: seq<nat>,
                b2: Block, m2: ModifiedMap, maxWeight: nat, segwit: bool)
    requires Head(pool, b0, b, m, maxWeight, segwit) && Candidate(pool, b, t, totals) && Fits(b, totals, maxWeight)
    requires pkg == Missing(pool, t, b.inBlock) && AllAcceptable(pool, pkg, segwit)
    requires Sorted(pool, s) && Elements(s) == pkg && pkg <= pool.Keys && b2 == Fill(pool, b, s)
    requires Updated(pool, m - pkg, pkg, pkg, m2)
    ensures Head(pool, b0, b2, m2, maxWeight, segwit)
    ensures b2.inBlock == b.inBlock + pkg && m.Keys - pkg <= m2.Keys && b.weight <= b2.weight && b.sigOps <= b2.sigOps
  {
    forall i | 0 <= i < |s|
      ensures s[i] in pool && s[i] !in b.inBlock + Elements(s[..i])
              && pool[s[i]].ancestors <= b.inBlock + Elements(s[..i])
    {
      SortedFollows(pool, t, b.inBlock, s, i);
    }
    FillSound(pool, b, s, |s|);
    assert s[..|s|] == s;
    PackageFits(pool, b, pkg, b2, totals.size, totals.sigOps, maxWeight);
    BoundsAdd(pool, b, m, pkg, m2);
  }

  lemma BoundsAdd(pool: Pool, b: Block, m: ModifiedMap, pkg: set<nat>, m2: ModifiedMap)
    requires Graph(pool) && Exact(pool) && Sound(pool, b) && Bounds(pool, b.inBlock, m) && pkg !! b.inBlock
    requires Updated(pool, m - pkg, pkg, pkg, m2)
    ensures Bounds(pool, b.inBlock + pkg, m2) && m.Keys - pkg <= m2.Keys
  {
    OrderedClosed(pool, b.vtx);
    UpdatedBounds(pool, b.inBlock, pkg, m - pkg, m2);
    forall t | t in m.Keys - pkg ensures t in m2 {
      assert Accounted(pool, m - pkg, pkg, pkg, m2, t);
    }
  }

  lemma KeysInPool(pool: Pool, inBlock: set<nat>, m: ModifiedMap)
    requires Bounds(pool, inBlock, m)
    ensures m.Keys <= pool.Keys
  {
  }

  lemma MissingInPool(pool: Pool, t: nat, inBlock: set<nat>, s: set<nat>)
    requires Graph(pool) && t in pool && t !in inBlock && s == pool[t].ancestors - inBlock + {t}
    ensures s == Missing(pool, t, inBlock) && s <= pool.Keys
  {
  }

  lemma PassOver(order: seq<nat>, mi0: nat, mi: nat, t: nat)
    requires mi0 <= mi <= |order| && (mi == mi0 || (mi == mi0 + 1 && order[mi0] == t))
    ensures forall x | x in order[mi0..] && x != t :: x in order[mi..]
  {
    if mi > mi0 {
      assert order[mi0..] == [t] + order[mi..];
    }
  }

  lemma NoneLeft(pool: Pool, b: Block, failed: set<nat>, order: seq<nat>, maxWeight: nat, segwit: bool)
    requires Pending(pool, b, map[], failed, order[|order|..], maxWeight, segwit)
    ensures forall t | t in pool :: t in b.inBlock || Rejected(pool, t, b, maxWeight, segwit)
  {
    forall t | t in pool ensures t in b.inBlock || Rejected(pool, t, b, maxWeight, segwit) {
      assert Settled(pool, t, b, map[], order[|order|..], maxWeight, segwit);
    }
  }

  lemma DroppedFewer(iter: nat, modified: bool, mi0: nat, m0: ModifiedMap, failed0: set<nat>, mi: nat, m: ModifiedMap,
      failed: set<nat>)
    requires Dropped(iter, modified, mi0, m0, failed0, mi, m, failed)
    ensures mi0 < mi || (mi == mi0 && |m| < |m0|)
  {
    if modified {
      Fewer(m0, iter);
    }
  }

  lemma EndsHere(pool: Pool, b: Block, m: ModifiedMap, failed: set<nat>, order: seq<nat>, mi: nat, c: nat,
      minimumFee: int -> int, maxWeight: nat, segwit: bool)
    requires c in pool && c !in b.inBlock && (c in m || c !in failed)
    requires InForce(pool, m, c).modFees < minimumFee(InForce(pool, m, c).size)
    requires mi <= |order| && Chosen(pool, m, order, mi, c)
    requires Pending(pool, b, m, failed, order[mi..], maxWeight, segwit)
    ensures EndsAt(pool, b, m, failed, c, minimumFee, maxWeight, segwit)
  {
    forall t | t in pool
      ensures t in b.inBlock || Rejected(pool, t, b, maxWeight, segwit) || NoFaster(pool, m, t, c)
    {
      NoneBetter(pool, b, m, failed, order, mi, c, t, maxWeight, segwit);
    }
  }

  lemma {:induction false} SomeSize(pool: Pool, s: set<nat>, t: nat)
    requires t in pool && t in s
    ensures Total(pool, Sizes, s) > 0
  {
    TotalTake(pool, Sizes, s, t);
    TotalNat(pool, Sizes, s - {t});
  }

  lemma HeadWeighted(pool: Pool, b0: Block, b: Block, m: ModifiedMap, maxWeight: nat, segwit: bool)
    requires Head(pool, b0, b, m, maxWeight, segwit)
    ensures Weighted(pool, m)
  {
    forall t | t in pool ensures InForce(pool, m, t).size > 0 {
      if t in m {
        SomeSize(pool, Missing(pool, t, b.inBlock), t);
      } else {
        SomeSize(pool, Package(pool, t), t);
      }
    }
  }

  lemma Fewer(m: ModifiedMap, t: nat)
    requires t in m
    ensures |m - {t}| < |m|
  {
    assert (m - {t}).Keys == m.Keys - {t};
    assert |m.Keys| == |m| && |(m - {t}).Keys| == |m - {t}|;
  }

  lemma IsCandidate(pool: Pool, b0: Block, b: Block, m: ModifiedMap, t: nat, totals: Modified, maxWeight: nat,
      segwit: bool, modified: bool)
    requires Head(pool, b0, b, m, maxWeight, segwit)
    requires if modified then t in m && totals == m[t] else t in pool && t !in b.inBlock && totals == Cached(pool, t)
    ensures Graph(pool) && Candidate(pool, b, t, totals)
  {
    if !modified {
      CachedCandidate(pool, b, t);
    }
  }

  lemma Grown(all: set<nat>, a: set<nat>, b: set<nat>, t: nat)
    requires a <= b && t in all && t in b && t !in a
    ensures |all - b| < |all - a|
  {
    assert all - b <= all - a - {t};
    Smaller(all - b, all - a - {t});
  }

  lemma {:induction false} SortedInsert(pool: Pool, s: seq<nat>, k: nat, t: nat)
    requires Sorted(pool, s) && k <= |s| && t in pool && t !in s
    requires forall i | 0 <= i < k :: Before(pool, s[i], t)
    requires forall i | k <= i < |s| :: Before(pool, t, s[i])
    ensures Sorted(pool, s[..k] + [t] + s[k..])
    ensures Elements(s[..k] + [t] + s[k..]) == Elements(s) + {t}
  {
    var r := s[..k] + [t] + s[k..];
    assert forall i | 0 <= i < |r| :: r[i] == if i < k then s[i] else if i == k then t else s[i - 1];
    forall x: nat ensures x in Elements(r) <==> x in Elements(s) + {t} {
      if x in s {
        var i :| 0 <= i < |s| && s[i] == x;
        assert r[if i < k then i else i + 1] == x;
      }
      if x == t {
        assert r[k] == x;
      }
    }
  }

  datatype Trial = Misfit | Unacceptable | Added

  datatype Outcome = Exhausted | BelowMinimumFee | GaveUp

  class BlockAssembler {
    const pool: Pool
    const fIncludeWitness: bool
    const nBlockMaxWeight: nat
    const minimumFee: int -> int

    var vtx: seq<nat>
    var vTxFees: seq<int>
    var vTxSigOpsCost: seq<nat>
    var inBlock: set<nat>
    var nBlockWeight: int
    var nBlockSigOpsCost: int
    var nBlockTx: nat
    var nFees: int

    function Abs(): Block
      reads this
    {
      Block(vtx, inBlock, nBlockWeight, nBlockSigOpsCost, nFees)
    }

    /** Per-transaction records line up with the selection. */
    ghost predicate Recorded()
      reads this
    {
      && nBlockTx == |vtx| == |vTxFees| == |vTxSigOpsCost|
      && forall i | 0 <= i < |vtx| ::
           vtx[i] in pool && vTxFees[i] == pool[vtx[i]].fee && vTxSigOpsCost[i] == pool[vtx[i]].sigOps
    }

    constructor (pool: Pool, maxWeight: nat, minimumFee: int -> int, includeWitness: bool)
      ensures this.pool == pool && this.minimumFee == minimumFee && fIncludeWitness == includeWitness
      ensures 4000 <= nBlockMaxWeight <= MAX_BLOCK_WEIGHT - 4000
      ensures 4000 <= maxWeight <= MAX_BLOCK_WEIGHT - 4000 ==> nBlockMaxWeight == maxWeight
      ensures Recorded() && vtx == [] && Sound(pool, Abs())
    {
      this.pool, this.minimumFee, fIncludeWitness := pool, minimumFee, includeWitness;
      nBlockMaxWeight := if maxWeight < 4000 then 4000 else if maxWeight < MAX_BLOCK_WEIGHT - 4000 then maxWeight
          else MAX_BLOCK_WEIGHT - 4000;
      new;
      ResetBlock();
    }

    method ResetBlock()
      modifies this
      ensures Recorded() && vtx == [] && Sound(pool, Abs())
      ensures nBlockWeight == 4000 && nBlockSigOpsCost == 400
    {
      vtx, vTxFees, vTxSigOpsCost, inBlock := [], [], [], {};
      nBlockWeight, nBlockSigOpsCost, nBlockTx, nFees := 4000, 400, 0, 0;
    }

    method OnlyUnconfirmed(testSet: set<nat>) returns (r: set<nat>)
      ensures r == testSet - inBlock
    {
      r := testSet;
      var todo := testSet;
      while todo != {}
        invariant todo <= testSet
        invariant r == (testSet - inBlock) + todo
        decreases |todo|
      {
        var t :| t in todo;
        todo := todo - {t};
        if t in inBlock {
          r := r - {t};
        }
      }
    }

    predicate TestPackage(packageSize: int, packageSigOpsCost: int)
      reads this
    {
      && nBlockWeight + WITNESS_SCALE_FACTOR * packageSize < nBlockMaxWeight
      && nBlockSigOpsCost + packageSigOpsCost < MAX_BLOCK_SIGOPS_COST
    }

    method TestPackageTransactions(package: set<nat>) returns (ok: bool)
      requires package <= pool.Keys
      ensures ok <==> forall t | t in package :: Acceptable(pool, t, fIncludeWitness)
    {
      var todo := package;
      while todo != {}
        invariant todo <= package
        invariant forall t | t in package - todo :: Acceptable(pool, t, fIncludeWitness)
        decreases |todo|
      {
        var t :| t in todo;
        todo := todo - {t};
        if !pool[t].isFinal || (!fIncludeWitness && pool[t].hasWitness) {
          assert !Acceptable(pool, t, fIncludeWitness);
          return false;
        }
      }
      return true;
    }

    method AddToBlock(t: nat)
      requires t in pool && Recorded()
      modifies this
      ensures Recorded() && Abs() == Append(pool, old(Abs()), t)
    {
      vtx := vtx + [t];
      vTxFees := vTxFees + [pool[t].fee];
      vTxSigOpsCost := vTxSigOpsCost + [pool[t].sigOps];
      nBlockWeight := nBlockWeight + pool[t].weight;
      nBlockTx := nBlockTx + 1;
      nBlockSigOpsCost := nBlockSigOpsCost + pool[t].sigOps;
      nFees := nFees + pool[t].fee;
      inBlock := inBlock + {t};
    }

    /** Lists a descendant less its parent, or updates it if it is listed. */
    method ListOrUpdate(m0: ModifiedMap, desc: nat, it: nat) returns (m: ModifiedMap)
      requires desc in pool && it in pool
      ensures m == m0[desc := Less(pool, InForce(pool, m0, desc), desc in m0, it)]
    {
      if desc !in m0 {
        var e := Cached(pool, desc);
        m := m0[desc := Modified(e.size - Size(pool[it]), e.modFees - ModFee(pool[it]), e.sigOps - pool[it].sigOps)];
      } else {
        var e := m0[desc];
        m := m0[desc := Modified(e.size - Size(pool[it]), e.modFees - pool[it].fee, e.sigOps - pool[it].sigOps)];
      }
    }

    method UpdateForParent(it: nat, added: set<nat>, ghost m0: ModifiedMap, ghost done: set<nat>, m1: ModifiedMap)
      returns (m: ModifiedMap)
      requires it in pool && it in added && it !in done && m0.Keys !! added
      requires Updated(pool, m0, added, done, m1)
      ensures Updated(pool, m0, added, done + {it}, m)
    {
      m := m1;
      var todo := Descendants(pool, it);
      ghost var seen: set<nat> := {};
      while todo != {}
        invariant todo !! seen && todo <= Descendants(pool, it)
        invariant Descendants(pool, it) - added <= todo + seen && seen <= Descendants(pool, it) - added
        invariant Partly(pool, m0, added, done, it, seen, m)
        decreases |todo|
      {
        var desc :| desc in todo;
        todo := todo - {desc};
        if desc !in added {
          ghost var before := m;
          m := ListOrUpdate(m, desc, it);
          PartlyNext(pool, m0, added, done, it, seen, before, desc, m);
          seen := seen + {desc};
        }
      }
      PartlyAll(pool, m0, added, done, it, seen, m);
    }

    method UpdatePackagesForAdded(alreadyAdded: set<nat>, m0: ModifiedMap) returns (m: ModifiedMap)
      requires alreadyAdded <= pool.Keys && m0.Keys <= pool.Keys && m0.Keys !! alreadyAdded
      ensures Updated(pool, m0, alreadyAdded, alreadyAdded, m)
    {
      m := m0;
      var todo := alreadyAdded;
      AccountedNone(pool, m0, alreadyAdded);
      assert alreadyAdded - todo == {};
      while todo != {}
        invariant todo <= alreadyAdded
        invariant Updated(pool, m0, alreadyAdded, alreadyAdded - todo, m)
        decreases |todo|
      {
        var it :| it in todo;
        m := UpdateForParent(it, alreadyAdded, m0, alreadyAdded - todo, m);
        assert alreadyAdded - todo + {it} == alreadyAdded - (todo - {it});
        todo := todo - {it};
      }
      assert alreadyAdded - todo == alreadyAdded;
    }

    method SortForBlock(package: set<nat>) returns (s: seq<nat>)
      requires package <= pool.Keys && Exact(pool)
      ensures Sorted(pool, s) && Elements(s) == package
      ensures forall i, j | 0 <= i < j < |s| ::
                var x, y := |pool[s[i]].ancestors|, |pool[s[j]].ancestors|; x < y || (x == y && s[i] < s[j])
    {
      s := [];
      var todo := package;
      while todo != {}
        invariant todo <= package && Sorted(pool, s) && Elements(s) == package - todo
        decreases |todo|
      {
        var t :| t in todo;
        todo := todo - {t};
        assert t !in Elements(s);
        s := InsertSorted(s, t);
      }
    }

    method InsertSorted(s: seq<nat>, t: nat) returns (r: seq<nat>)
      requires Exact(pool) && Sorted(pool, s) && t in pool && t !in s
      ensures Sorted(pool, r) && Elements(r) == Elements(s) + {t}
    {
      var k := 0;
      while k < |s| && ComesBefore(s[k], t)
        invariant 0 <= k <= |s|
        invariant forall i | 0 <= i < k :: Before(pool, s[i], t)
      {
        k := k + 1;
      }
      SortedInsert(pool, s, k, t);
      r := s[..k] + [t] + s[k..];
    }

    /** The comparison by cached ancestor count, then by hash. */
    predicate ComesBefore(a: nat, b: nat)
      requires a in pool && b in pool
      ensures Exact(pool) ==> ComesBefore(a, b) == Before(pool, a, b)
    {
      if pool[a].countWithAncestors != pool[b].countWithAncestors
      then pool[a].countWithAncestors < pool[b].countWithAncestors
      else a < b
    }

    /** Adds a package in sorted order, then updates what depends on it. */
    method AddSorted(package: set<nat>, m0: ModifiedMap) returns (ghost sorted: seq<nat>, m: ModifiedMap)
      requires Recorded() && Exact(pool) && package <= pool.Keys && m0.Keys <= pool.Keys
      modifies this
      ensures Recorded() && Sorted(pool, sorted) && Elements(sorted) == package
      ensures Abs() == Fill(pool, old(Abs()), sorted)
      ensures Updated(pool, m0 - package, package, package, m)
    {
      var sortedEntries := SortForBlock(package);
      m := AddEach(sortedEntries, m0);
      sorted := sortedEntries;
      m := UpdatePackagesForAdded(package, m);
    }

    method AddEach(sorted: seq<nat>, m0: ModifiedMap) returns (m: ModifiedMap)
      requires Recorded() && Elements(sorted) <= pool.Keys
      modifies this
      ensures Recorded() && Abs() == Fill(pool, old(Abs()), sorted) && m == m0 - Elements(sorted)
    {
      m := m0;
      var i := 0;
      while i < |sorted|
        invariant 0 <= i <= |sorted|
        invariant Recorded() && Elements(sorted[..i]) <= pool.Keys
        invariant Abs() == Fill(pool, old(Abs()), sorted[..i]) && m == m0 - Elements(sorted[..i])
      {
        assert sorted[i] in Elements(sorted);
        assert sorted[..i + 1][..i] == sorted[..i];
        assert Elements(sorted[..i + 1]) == Elements(sorted[..i]) + {sorted[i]};
        AddToBlock(sorted[i]);
        m := m - {sorted[i]};
        i := i + 1;
      }
      assert sorted[..i] == sorted;
    }

    /** The block is in order, its counters exact and within the limits. */
    ghost predicate Valid()
      reads this
    {
      Recorded() && Good(pool, Abs(), nBlockMaxWeight)
    }

    /** Why the selection ended before the candidates did. Either the block is nearly full and
        more than a thousand transactions in a row were too large for it, or the best that was
        left pays less than the minimum. */
    ghost predicate Stopped(outcome: Outcome, left: ModifiedMap, failed: set<nat>, misfits: set<nat>)
      reads this
    {
      && outcome != Exhausted
      && (outcome == GaveUp ==>
            nBlockWeight > nBlockMaxWeight - 4000 && |misfits| > 1000
                && TooLarge(pool, Abs(), misfits, nBlockMaxWeight))
      && (outcome == BelowMinimumFee ==>
            exists c :: EndsAt(pool, Abs(), left, failed, c, minimumFee, nBlockMaxWeight, fIncludeWitness))
    }

    /** The next candidate, the better of the best modified entry and the next of the index. */
    method Choose(order: seq<nat>, mi: nat, m: ModifiedMap) returns (fUsingModified: bool, iter: nat, totals: Modified)
      requires mi < |order| || (mi == |order| && m != map[])
      requires Index(pool, order) && m.Keys <= pool.Keys && Weighted(pool, m)
      requires mi < |order| ==> order[mi] !in m
      ensures iter in pool && totals == InForce(pool, m, iter) && Chosen(pool, m, order, mi, iter)
      ensures fUsingModified ==> iter in m
      ensures !fUsingModified ==> iter !in m && mi < |order| && iter == order[mi]
    {
      var modit := 0;
      if m != map[] {
        modit := Best(pool, m);
        if mi == |order| || Better(pool, m, modit, order[mi]) {
          ChooseModified(pool, m, order, mi, modit);
          return true, modit, m[modit];
        }
      }
      ChooseIndexed(pool, m, order, mi, order[mi], modit);
      return false, order[mi], Cached(pool, order[mi]);
    }

    method IncludePackage(iter: nat, ghost totals: Modified, package: set<nat>, m0: ModifiedMap,
        ghost failed: set<nat>, ghost b0: Block)
      returns (m: ModifiedMap)
      requires Tracked(pool, inBlock, m0, failed)
      requires Recorded() && Head(pool, b0, Abs(), m0, nBlockMaxWeight, fIncludeWitness)
      requires Candidate(pool, Abs(), iter, totals) && Fits(Abs(), totals, nBlockMaxWeight)
      requires package == Missing(pool, iter, inBlock) && AllAcceptable(pool, package, fIncludeWitness)
      modifies this
      ensures Recorded() && Head(pool, b0, Abs(), m, nBlockMaxWeight, fIncludeWitness)
      ensures inBlock == old(inBlock) + package && m0.Keys - package <= m.Keys && Tracked(pool, inBlock, m, failed)
      ensures old(nBlockWeight) <= nBlockWeight && old(nBlockSigOpsCost) <= nBlockSigOpsCost
    {
      ghost var b := Abs();
      ghost var sorted;
      KeysInPool(pool, b.inBlock, m0);
      assert package <= pool.Keys;
      sorted, m := AddSorted(package, m0);
      HeadAdd(pool, b0, b, m0, iter, totals, package, sorted, Abs(), m, nBlockMaxWeight, fIncludeWitness);
      TrackedAdd(pool, b.inBlock, m0, failed, package, m);
    }

    method Drop(iter: nat, fUsingModified: bool, order: seq<nat>, mi0: nat, modified0: ModifiedMap,
        failed0: set<nat>, ghost b0: Block)
      returns (modified: ModifiedMap, failed: set<nat>, mi: nat)
      requires Head(pool, b0, Abs(), modified0, nBlockMaxWeight, fIncludeWitness) && mi0 <= |order|
      requires Pending(pool, Abs(), modified0, failed0, order[mi0..], nBlockMaxWeight, fIncludeWitness)
      requires Rejected(pool, iter, Abs(), nBlockMaxWeight, fIncludeWitness)
      requires if fUsingModified then iter in modified0
               else mi0 < |order| && iter == order[mi0] && iter !in modified0 && iter !in failed0
      ensures mi <= |order| && Dropped(iter, fUsingModified, mi0, modified0, failed0, mi, modified, failed)
      ensures Head(pool, b0, Abs(), modified, nBlockMaxWeight, fIncludeWitness)
      ensures Pending(pool, Abs(), modified, failed, order[mi..], nBlockMaxWeight, fIncludeWitness)
    {
      modified, failed, mi := modified0, failed0, mi0;
      if fUsingModified {
        HeadErase(pool, b0, Abs(), modified, iter, nBlockMaxWeight, fIncludeWitness);
        PendingErase(pool, Abs(), modified, failed, order[mi..], iter, nBlockMaxWeight, fIncludeWitness);
        modified, failed := modified - {iter}, failed + {iter};
      } else {
        PendingSkip(pool, Abs(), modified, failed, order, mi, nBlockMaxWeight, fIncludeWitness);
        mi := mi + 1;
      }
    }

    /** Tries one candidate. A failed one is dropped for its reason; any other is added with
        all it misses. */
    method TryCandidate(iter: nat, totals: Modified, fUsingModified: bool, order: seq<nat>, mi0: nat,
                        modified0: ModifiedMap, failed0: set<nat>, ghost b0: Block)
      returns (trial: Trial, modified: ModifiedMap, failed: set<nat>, mi: nat)
      requires Recorded() && Head(pool, b0, Abs(), modified0, nBlockMaxWeight, fIncludeWitness) && mi0 <= |order|
      requires Pending(pool, Abs(), modified0, failed0, order[mi0..], nBlockMaxWeight, fIncludeWitness)
      requires Candidate(pool, Abs(), iter, totals)
      requires if fUsingModified then iter in modified0
               else mi0 < |order| && iter == order[mi0] && iter !in modified0 && iter !in failed0
      modifies this
      ensures Recorded() && mi <= |order| && Head(pool, b0, Abs(), modified, nBlockMaxWeight, fIncludeWitness)
      ensures Pending(pool, Abs(), modified, failed, order[mi..], nBlockMaxWeight, fIncludeWitness)
      ensures trial == Misfit <==> !old(Fits(Abs(), totals, nBlockMaxWeight))
      ensures trial == Misfit ==> Oversize(pool, iter, Abs(), nBlockMaxWeight)
      ensures trial == Unacceptable ==> !AllAcceptable(pool, Missing(pool, iter, inBlock), fIncludeWitness)
      ensures trial != Added ==>
                && Abs() == old(Abs()) && Rejected(pool, iter, Abs(), nBlockMaxWeight, fIncludeWitness)
                && Dropped(iter, fUsingModified, mi0, modified0, failed0, mi, modified, failed)
      ensures trial == Added ==>
                && inBlock == old(inBlock) + Missing(pool, iter, old(inBlock))
                && AllAcceptable(pool, Missing(pool, iter, old(inBlock)), fIncludeWitness)
                && failed == failed0 && |pool.Keys - inBlock| < |pool.Keys - old(inBlock)|
    {
      if !TestPackage(totals.size, totals.sigOps) {
        trial := Misfit;
        FailedIsRejected(pool, Abs(), iter, totals, nBlockMaxWeight, fIncludeWitness);
        modified, failed, mi := Drop(iter, fUsingModified, order, mi0, modified0, failed0, b0);
        return;
      }
      var ancestors := OnlyUnconfirmed(pool[iter].ancestors);
      ancestors := ancestors + {iter};
      MissingInPool(pool, iter, inBlock, ancestors);
      var ok := TestPackageTransactions(ancestors);
      if ok {
        trial := Added;
        mi := if fUsingModified then mi0 else mi0 + 1;
        failed := failed0;
        modified := IncludeAndSettle(iter, totals, ancestors, modified0, failed, order, mi0, mi, b0);
      } else {
        trial := Unacceptable;
        FailedIsRejected(pool, Abs(), iter, totals, nBlockMaxWeight, fIncludeWitness);
        modified, failed, mi := Drop(iter, fUsingModified, order, mi0, modified0, failed0, b0);
      }
    }

    method IncludeAndSettle(iter: nat, ghost totals: Modified, package: set<nat>, modified0: ModifiedMap,
                            ghost failed: set<nat>, ghost order: seq<nat>, ghost mi0: nat, ghost mi: nat,
                            ghost b0: Block)
      returns (modified: ModifiedMap)
      requires Recorded() && Head(pool, b0, Abs(), modified0, nBlockMaxWeight, fIncludeWitness)
      requires Candidate(pool, Abs(), iter, totals) && Fits(Abs(), totals, nBlockMaxWeight)
      requires package == Missing(pool, iter, inBlock) && AllAcceptable(pool, package, fIncludeWitness)
      requires mi0 <= mi <= |order| && (mi == mi0 || (mi == mi0 + 1 && order[mi0] == iter))
      requires Pending(pool, Abs(), modified0, failed, order[mi0..], nBlockMaxWeight, fIncludeWitness)
      modifies this
      ensures Recorded() && Head(pool, b0, Abs(), modified, nBlockMaxWeight, fIncludeWitness)
      ensures Pending(pool, Abs(), modified, failed, order[mi..], nBlockMaxWeight, fIncludeWitness)
      ensures inBlock == old(inBlock) + package
      ensures |pool.Keys - inBlock| < |pool.Keys - old(inBlock)|
    {
      ghost var b := Abs();
      modified := IncludePackage(iter, totals, package, modified0, failed, b0);
      Grown(pool.Keys, b.inBlock, inBlock, iter);
      PassOver(order, mi0, mi, iter);
      PendingAdd(pool, b, Abs(), modified0, modified, package, failed, order[mi0..], order[mi..], nBlockMaxWeight,
          fIncludeWitness);
    }

    /** What holds at the head of the selection loop. */
    ghost predicate Looping(order: seq<nat>, mi: nat, modified: ModifiedMap, failed: set<nat>, failures: nat,
        misfits: set<nat>, b0: Block)
      reads this
    {
      && mi <= |order| && Recorded() && Once(order)
      && Head(pool, b0, Abs(), modified, nBlockMaxWeight, fIncludeWitness)
      && Pending(pool, Abs(), modified, failed, order[mi..], nBlockMaxWeight, fIncludeWitness)
      && |misfits| == failures
      && Misfits(pool, Abs(), misfits, modified, failed, order[mi..], nBlockMaxWeight)
    }

    method SelectPackages(order: seq<nat>, modified0: ModifiedMap, ghost b0: Block)
      returns (outcome: Outcome, ghost left: ModifiedMap, ghost failedTx: set<nat>, ghost misfits: set<nat>)
      requires Index(pool, order) && Looping(order, 0, modified0, {}, 0, {}, b0)
      modifies this
      ensures Recorded() && Head(pool, b0, Abs(), left, nBlockMaxWeight, fIncludeWitness)
      ensures Tracked(pool, inBlock, left, failedTx)
      ensures outcome == Exhausted ==>
                forall t | t in pool :: t in inBlock || Rejected(pool, t, Abs(), nBlockMaxWeight, fIncludeWitness)
      ensures outcome != Exhausted ==> Stopped(outcome, left, failedTx, misfits)
    {
      var modified := modified0;
      var failed: set<nat> := {};
      var mi: nat, nConsecutiveFailed: nat := 0, 0;
      var stop := false;
      outcome, misfits := Exhausted, {};
      while !stop && (mi < |order| || modified != map[])
        invariant Looping(order, mi, modified, failed, nConsecutiveFailed, misfits, b0)
        invariant stop ==> Stopped(outcome, modified, failed, misfits)
        decreases !stop, |pool.Keys - inBlock|, |order| - mi, |modified|
      {
        stop, outcome, modified, failed, mi, nConsecutiveFailed, misfits :=
          Step(order, mi, modified, failed, nConsecutiveFailed, misfits, b0);
      }
      left, failedTx := modified, failed;
      if !stop {
        outcome := Exhausted;
        NoneLeft(pool, Abs(), failed, order, nBlockMaxWeight, fIncludeWitness);
      }
    }

    /** One turn of the selection loop. */
    method Step(order: seq<nat>, mi0: nat, modified0: ModifiedMap, failed0: set<nat>, failures0: nat,
        ghost misfits0: set<nat>, ghost b0: Block)
      returns (stop: bool, outcome: Outcome, modified: ModifiedMap, failed: set<nat>, mi: nat, failures: nat,
               ghost misfits: set<nat>)
      requires Index(pool, order) && (mi0 < |order| || modified0 != map[])
      requires Looping(order, mi0, modified0, failed0, failures0, misfits0, b0)
      modifies this
      ensures Looping(order, mi, modified, failed, failures, misfits, b0)
      ensures stop ==> Stopped(outcome, modified, failed, misfits)
      ensures stop || |pool.Keys - inBlock| < |pool.Keys - old(inBlock)|
              || (inBlock == old(inBlock) && (mi0 < mi || (mi == mi0 && |modified| < |modified0|)))
    {
      if mi0 < |order| && (order[mi0] in modified0 || order[mi0] in inBlock || order[mi0] in failed0) {
        stop, outcome, modified, failed, mi, failures, misfits :=
          false, Exhausted, modified0, failed0, mi0, failures0, misfits0;
        PendingSkip(pool, Abs(), modified, failed, order, mi, nBlockMaxWeight, fIncludeWitness);
        MisfitsSkip(pool, Abs(), misfits, modified, failed, order, mi, nBlockMaxWeight);
        mi := mi + 1;
        return;
      }
      stop, outcome, modified, failed, mi, failures, misfits :=
        Consider(order, mi0, modified0, failed0, failures0, misfits0, b0);
    }

    /** Takes up the best candidate there is. */
    method Consider(order: seq<nat>, mi0: nat, modified0: ModifiedMap, failed0: set<nat>, failures0: nat,
        ghost misfits0: set<nat>, ghost b0: Block)
      returns (stop: bool, outcome: Outcome, modified: ModifiedMap, failed: set<nat>, mi: nat, failures: nat,
               ghost misfits: set<nat>)
      requires Index(pool, order) && (mi0 < |order| || modified0 != map[])
      requires Looping(order, mi0, modified0, failed0, failures0, misfits0, b0)
      requires mi0 < |order| ==> order[mi0] !in inBlock && order[mi0] !in modified0 && order[mi0] !in failed0
      modifies this
      ensures Looping(order, mi, modified, failed, failures, misfits, b0)
      ensures stop ==> Stopped(outcome, modified, failed, misfits)
      ensures stop || |pool.Keys - inBlock| < |pool.Keys - old(inBlock)|
              || (inBlock == old(inBlock) && (mi0 < mi || (mi == mi0 && |modified| < |modified0|)))
    {
      stop, outcome, modified, failed, mi, failures, misfits :=
        false, Exhausted, modified0, failed0, mi0, failures0, misfits0;
      KeysInPool(pool, inBlock, modified);
      HeadWeighted(pool, b0, Abs(), modified, nBlockMaxWeight, fIncludeWitness);
      var fUsingModified, iter, totals := Choose(order, mi, modified);
      IsCandidate(pool, b0, Abs(), modified, iter, totals, nBlockMaxWeight, fIncludeWitness, fUsingModified);
      if totals.modFees < minimumFee(totals.size) {
        EndsHere(pool, Abs(), modified, failed, order, mi, iter, minimumFee, nBlockMaxWeight, fIncludeWitness);
        stop, outcome := true, BelowMinimumFee;
        return;
      }
      stop, outcome, modified, failed, mi, failures, misfits :=
        Attempt(iter, totals, fUsingModified, order, mi0, modified0, failed0, failures0, misfits0, b0);
    }

    /** Tries the candidate and keeps count of failures. */
    method Attempt(iter: nat, totals: Modified, fUsingModified: bool, order: seq<nat>, mi0: nat,
        modified0: ModifiedMap, failed0: set<nat>, failures0: nat, ghost misfits0: set<nat>, ghost b0: Block)
      returns (stop: bool, outcome: Outcome, modified: ModifiedMap, failed: set<nat>, mi: nat, failures: nat,
               ghost misfits: set<nat>)
      requires Looping(order, mi0, modified0, failed0, failures0, misfits0, b0)
      requires Candidate(pool, Abs(), iter, totals)
      requires if fUsingModified then iter in modified0
               else mi0 < |order| && iter == order[mi0] && iter !in modified0 && iter !in failed0
      modifies this
      ensures Looping(order, mi, modified, failed, failures, misfits, b0)
      ensures stop ==> Stopped(outcome, modified, failed, misfits)
      ensures stop || |pool.Keys - inBlock| < |pool.Keys - old(inBlock)|
              || (inBlock == old(inBlock) && (mi0 < mi || (mi == mi0 && |modified| < |modified0|)))
    {
      var trial;
      trial, modified, failed, mi := TryCandidate(iter, totals, fUsingModified, order, mi0, modified0, failed0, b0);
      if trial == Added {
        stop, outcome, failures, misfits := false, Exhausted, 0, {};
      } else {
        DroppedFewer(iter, fUsingModified, mi0, modified0, failed0, mi, modified, failed);
        MisfitsDrop(pool, Abs(), misfits0, order, iter, fUsingModified, mi0, modified0, failed0, mi, modified, failed,
            nBlockMaxWeight);
        stop, outcome, failures, misfits := Record(trial == Misfit, iter, order, mi, modified, failed, failures0,
            misfits0, b0);
      }
    }

    /** Counts a candidate that did not fit, and gives up when there were too many. */
    method Record(misfit: bool, ghost iter: nat, ghost order: seq<nat>, ghost mi: nat, ghost modified: ModifiedMap,
        ghost failed: set<nat>, failures0: nat, ghost misfits0: set<nat>, ghost b0: Block)
      returns (stop: bool, outcome: Outcome, failures: nat, ghost misfits: set<nat>)
      requires Looping(order, mi, modified, failed, failures0, misfits0, b0)
      requires misfit ==> && |misfits0 + {iter}| == failures0 + 1
                          && Misfits(pool, Abs(), misfits0 + {iter}, modified, failed, order[mi..], nBlockMaxWeight)
      ensures Looping(order, mi, modified, failed, failures, misfits, b0)
      ensures stop ==> Stopped(outcome, modified, failed, misfits)
    {
      stop, outcome, failures, misfits := false, Exhausted, failures0, misfits0;
      if misfit {
        failures, misfits := failures + 1, misfits + {iter};
        if failures > MAX_CONSECUTIVE_FAILURES && nBlockWeight > nBlockMaxWeight - 4000 {
          MisfitsTooLarge(pool, Abs(), misfits, modified, failed, order[mi..], nBlockMaxWeight);
          stop, outcome := true, GaveUp;
        }
      }
    }

    /** Every run ends. At each step and at the end the selection is duplicate-free
        and in order, within the weight and signature limits; when candidates run
        out, whatever is left out has a package that does not fit or may not enter. */
    method AddPackageTxs(order: seq<nat>)
      returns (outcome: Outcome, ghost left: ModifiedMap, ghost failedTx: set<nat>, ghost misfits: set<nat>)
      requires Valid() && Index(pool, order)
      modifies this
      ensures Valid() && old(vtx) <= vtx && nBlockWeight <= nBlockMaxWeight && nBlockSigOpsCost < 80000
      ensures vtx != old(vtx) ==> nBlockWeight < nBlockMaxWeight
      ensures forall t | t in inBlock - old(inBlock) :: Acceptable(pool, t, fIncludeWitness)
      ensures Tracked(pool, inBlock, left, failedTx)
      ensures outcome == Exhausted ==>
                forall t | t in pool :: t in inBlock || Rejected(pool, t, Abs(), nBlockMaxWeight, fIncludeWitness)
      ensures outcome != Exhausted ==> Stopped(outcome, left, failedTx, misfits)
    {
      ghost var b0 := Abs();
      InPool(pool, b0);
      var modified := UpdatePackagesForAdded(inBlock, map[]);
      HeadStart(pool, b0, modified, order, nBlockMaxWeight, fIncludeWitness);
      IndexOnce(pool, order);
      outcome, left, failedTx, misfits := SelectPackages(order, modified, b0);
    }
  }
}
