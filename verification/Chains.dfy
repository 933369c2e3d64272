/** The block tree with its skip pointers, and the active chain as a vector. Blocks
    are linked to their parents for good; only the skip pointer is set later. */
module Chains {
  import opened Powers
  import opened SkipHeights

  // ---------------------------------------------------------------- the block tree

  class BlockIndex {
    const pprev: BlockIndex?
    const nHeight: nat
    var pskip: BlockIndex?

    /** The block and its ancestors. */
    ghost const line: set<BlockIndex>

    constructor (prev: BlockIndex?)
      requires prev != null ==> Linked(prev)
      ensures pprev == prev && pskip == null && Linked(this)
      ensures nHeight == if prev == null then 0 else prev.nHeight + 1
    {
      pprev, pskip := prev, null;
      line := {this} + if prev == null then {} else prev.line;
      nHeight := if prev == null then 0 else prev.nHeight + 1;
    }

    /** The ancestor at a height, found with skip pointers. With all of them set it takes at
        most as many turns as the square of the number of bits of the height. */
    method GetAncestor(height: int) returns (r: BlockIndex?, ghost turns: nat)
      requires Linked(this) && SkipsOk(this)
      ensures height > nHeight || height < 0 ==> r == null
      ensures 0 <= height <= nHeight ==> r == Ancestor(this, height)
      ensures SkipsSet(this) ==> turns <= BitsOf(nHeight) * BitsOf(nHeight)
    {
      turns := 0;
      if height > nHeight || height < 0 {
        return null, turns;
      }
      TurnsBound(nHeight, height);
      var walk: BlockIndex, heightWalk: nat := this, nHeight;
      while heightWalk > height
        invariant heightWalk == walk.nHeight && Walking(this, walk, height, turns)
      {
        turns := turns + 1;
        var heightSkip := SkipHeight(heightWalk);
        var heightSkipPrev := SkipHeight(heightWalk - 1);
        if walk.pskip != null &&
           (heightSkip == height ||
            (heightSkip > height && !(heightSkipPrev < heightSkip - 2 && heightSkipPrev >= height))) {
          JumpTurn(this, walk, height, turns - 1);
          walk, heightWalk := walk.pskip, heightSkip;
        } else {
          BackTurn(this, walk, height, turns - 1);
          walk, heightWalk := walk.pprev, heightWalk - 1;
        }
      }
      return walk, turns;
    }

    /** Sets the skip pointer of a block whose ancestors have theirs. */
    method BuildSkip()
      requires Linked(this) && (pprev != null ==> SkipsOk(pprev)) && pskip == null
      modifies this`pskip
      ensures SkipsOk(this)
      ensures pprev != null ==> pskip == Ancestor(this, SkipHeight(nHeight))
      ensures pprev == null || SkipsSet(pprev) ==> SkipsSet(this)
    {
      if pprev != null {
        var skip, turns := pprev.GetAncestor(SkipHeight(nHeight));
        NotOwnAncestor(this);
        pskip := skip;
      }
    }
  }

  /** Heights count the parent links down to a parentless block at height 0. */
  ghost predicate Linked(b: BlockIndex)
    decreases b.nHeight
  {
    if b.pprev == null then b.nHeight == 0 && b.line == {b}
    else b.pprev.nHeight + 1 == b.nHeight && b.line == {b} + b.pprev.line && Linked(b.pprev)
  }

  /** nHeight - h steps to the parent. */
  ghost function Ancestor(b: BlockIndex, h: nat): (a: BlockIndex)
    requires Linked(b) && h <= b.nHeight
    ensures Linked(a) && a.nHeight == h
    decreases b.nHeight
  {
    if h == b.nHeight then b else Ancestor(b.pprev, h)
  }

  /** Every block of the line but the first has its skip pointer. */
  ghost predicate SkipsSet(b: BlockIndex)
    requires Linked(b)
    reads b.line
    decreases b.nHeight
  {
    b.pprev != null ==> b.pskip != null && SkipsSet(b.pprev)
  }

  lemma {:induction false} SetBelow(b: BlockIndex, h: nat)
    requires Linked(b) && SkipsSet(b) && h <= b.nHeight
    ensures SkipsSet(Ancestor(b, h))
    decreases b.nHeight
  {
    if h < b.nHeight {
      SetBelow(b.pprev, h);
    }
  }

  /** Every skip pointer set on the line points where it should. */
  ghost predicate SkipsOk(b: BlockIndex)
    requires Linked(b)
    reads b.line
    decreases b.nHeight
  {
    && (b.pskip != null ==> b.pprev != null && b.pskip == Ancestor(b, SkipHeight(b.nHeight)))
    && (b.pprev != null ==> SkipsOk(b.pprev))
  }

  lemma {:induction false} AncestorOfAncestor(b: BlockIndex, h: nat, k: nat)
    requires Linked(b) && k <= h <= b.nHeight
    ensures Ancestor(Ancestor(b, h), k) == Ancestor(b, k)
    decreases b.nHeight
  {
    if h < b.nHeight {
      AncestorOfAncestor(b.pprev, h, k);
    }
  }

  lemma {:induction false} SkipsBelow(b: BlockIndex, h: nat)
    requires Linked(b) && SkipsOk(b) && h <= b.nHeight
    ensures SkipsOk(Ancestor(b, h))
    decreases b.nHeight
  {
    if h < b.nHeight {
      SkipsBelow(b.pprev, h);
    }
  }

  /** A walk down to an ancestor, after a number of turns. */
  ghost predicate Walking(b: BlockIndex, walk: BlockIndex, height: nat, turns: nat)
    requires Linked(b)
    reads b, b.line, walk, walk.line
  {
    && Linked(walk) && SkipsOk(walk) && height <= walk.nHeight && height <= b.nHeight
    && Ancestor(walk, height) == Ancestor(b, height)
    && (SkipsSet(b) ==> SkipsSet(walk) && turns + TurnsLeft(walk.nHeight, height) <= TurnsLeft(b.nHeight, height))
  }

  lemma {:induction false} JumpTurn(b: BlockIndex, walk: BlockIndex, height: nat, turns: nat)
    requires Linked(b) && Walking(b, walk, height, turns) && height < walk.nHeight
    requires walk.pskip != null && Jumps(walk.nHeight, height)
    ensures Walking(b, walk.pskip, height, turns + 1) && walk.pskip.nHeight == SkipHeight(walk.nHeight)
  {
    var h := SkipHeight(walk.nHeight);
    SkipsBelow(walk, h);
    AncestorOfAncestor(walk, h, height);
    TurnLess(walk.nHeight, height);
    if SkipsSet(b) {
      SetBelow(walk, h);
    }
  }

  lemma {:induction false} BackTurn(b: BlockIndex, walk: BlockIndex, height: nat, turns: nat)
    requires Linked(b) && Walking(b, walk, height, turns) && height < walk.nHeight
    requires walk.pskip == null || !Jumps(walk.nHeight, height)
    ensures walk.pprev != null && Walking(b, walk.pprev, height, turns + 1)
  {
    TurnLess(walk.nHeight, height);
  }

  lemma {:induction false} LineBelow(b: BlockIndex, x: BlockIndex)
    requires Linked(b) && x in b.line
    ensures x.nHeight <= b.nHeight
    decreases b.nHeight
  {
    if x != b {
      LineBelow(b.pprev, x);
    }
  }

  lemma {:induction false} NotOwnAncestor(b: BlockIndex)
    requires Linked(b) && b.pprev != null
    ensures b !in b.pprev.line
  {
    if b in b.pprev.line {
      LineBelow(b.pprev, b);
    }
  }

  // --------------------------------------------------------------- common ancestors

  /** Two blocks meet at a height. */
  ghost predicate Meet(a: BlockIndex, b: BlockIndex, h: nat)
    requires Linked(a) && Linked(b)
  {
    h <= a.nHeight && h <= b.nHeight && Ancestor(a, h) == Ancestor(b, h)
  }

  /** Lines that meet at a height meet at every lower one. */
  lemma {:induction false} MeetBelow(a: BlockIndex, b: BlockIndex, h: nat, k: nat)
    requires Linked(a) && Linked(b) && Meet(a, b, h) && k <= h
    ensures Meet(a, b, k)
  {
    AncestorOfAncestor(a, h, k);
    AncestorOfAncestor(b, h, k);
  }

  /** The highest block both lines have; null when they have none. */
  method LastCommonAncestor(a: BlockIndex, b: BlockIndex) returns (r: BlockIndex?)
    requires Linked(a) && Linked(b) && SkipsOk(a) && SkipsOk(b)
    ensures r == null ==> forall h: nat :: !Meet(a, b, h)
    ensures r != null ==> Linked(r) && r.nHeight <= a.nHeight && r == Ancestor(a, r.nHeight)
    ensures r != null ==> forall h: nat :: Meet(a, b, h) <==> h <= r.nHeight
  {
    var pa: BlockIndex?, pb: BlockIndex? := a, b;
    if a.nHeight > b.nHeight {
      ghost var turns;
      pa, turns := a.GetAncestor(b.nHeight);
    } else if b.nHeight > a.nHeight {
      ghost var turns;
      pb, turns := b.GetAncestor(a.nHeight);
    }
    ghost var h: int := pa.nHeight;
    while pa != pb && pa != null && pb != null
      invariant -1 <= h <= a.nHeight && h <= b.nHeight
      invariant if h < 0 then pa == null && pb == null else pa == Ancestor(a, h) && pb == Ancestor(b, h)
      invariant forall k: nat | k > h :: !Meet(a, b, k)
      decreases h
    {
      if h > 0 {
        AncestorOfAncestor(a, h, h - 1);
        AncestorOfAncestor(b, h, h - 1);
      }
      pa, pb := pa.pprev, pb.pprev;
      h := h - 1;
    }
    assert pa == pb;
    if pa != null {
      forall k: nat | k <= pa.nHeight
        ensures Meet(a, b, k)
      {
        MeetBelow(a, b, pa.nHeight, k);
      }
    }
    return pa;
  }

  // -------------------------------------------------------------- the active chain

  /** floor(log2(n)), and zero for n = 0. */
  function Log2(n: nat): nat { if n < 2 then 0 else 1 + Log2(n / 2) }

  lemma {:induction false} Log2Bounds(k: nat, n: nat)
    requires Pow2(k) <= n
    ensures k <= Log2(n)
  {
    if k > 0 {
      Log2Bounds(k - 1, n / 2);
    }
  }

  /** The blocks of a chain are those of its tip's line, by height. */
  ghost predicate IsLine(vChain: seq<BlockIndex?>) {
    forall i | 0 <= i < |vChain| ::
      vChain[i] != null && Linked(vChain[i]) && vChain[i].nHeight == i && (i > 0 ==> vChain[i].pprev == vChain[i - 1])
  }

  lemma {:induction false} LineAt(vChain: seq<BlockIndex?>, j: nat, i: nat)
    requires IsLine(vChain) && i <= j < |vChain|
    ensures vChain[i] == Ancestor(vChain[j], i)
    decreases j
  {
    if i < j {
      LineAt(vChain, j - 1, i);
    }
  }

  /** How far below its start a locator's i-th entry lies: ten single steps, then
      steps that double. */
  function Distance(i: nat): nat { if i <= 10 then i else 9 + Pow2(i - 10) }

  function Back(height: nat, i: nat): nat { if height > Distance(i) then height - Distance(i) else 0 }

  /** The entries of a locator: ancestors of its start, at the heights given by Back,
      down to the one at height 0. */
  ghost predicate IsLocator(start: BlockIndex, have: seq<BlockIndex>)
    requires Linked(start)
  {
    && |have| > 0 && have[|have| - 1].nHeight == 0
    && Entries(start, have)
    && forall i | 0 <= i < |have| - 1 :: have[i].nHeight > 0
  }

  ghost predicate Entries(start: BlockIndex, have: seq<BlockIndex>)
    requires Linked(start)
  {
    forall i: nat | i < |have| :: IsEntry(start, have[i], i)
  }

  /** b is where a locator's i-th entry lies. */
  ghost predicate IsEntry(start: BlockIndex, b: BlockIndex, i: nat)
    requires Linked(start)
  {
    b == Ancestor(start, Back(start.nHeight, i))
  }

  lemma {:induction false} DistanceGrows(i: nat, j: nat)
    requires i < j
    ensures Distance(i) < Distance(j)
    decreases j - i
  {
    if i + 1 < j {
      DistanceGrows(i, j - 1);
    }
  }

  lemma {:induction false} EntriesNext(start: BlockIndex, have: seq<BlockIndex>, p: BlockIndex)
    requires Linked(start) && Entries(start, have) && IsEntry(start, p, |have|)
    ensures Entries(start, have + [p])
  {
  }

  /** The step taken after the k-th entry. */
  function StepAfter(k: nat): nat { if k <= 10 then 1 else Pow2(k - 10) }

  /** The loop's step leads from one entry's height to the next one's. */
  lemma NextBack(height: nat, k: nat, h: nat, nHeight: nat)
    requires h == Back(height, k) && h > 0
    requires nHeight == if h - StepAfter(k) > 0 then h - StepAfter(k) else 0
    ensures nHeight == Back(height, k + 1) && nHeight < h
    ensures StepAfter(k + 1) == if k + 1 > 10 then StepAfter(k) * 2 else StepAfter(k)
    ensures StepAfter(k + 1) <= 2 * height
  {
  }

  /** Heights strictly decrease along a locator. */
  lemma {:induction false} LocatorDecreases(start: BlockIndex, have: seq<BlockIndex>, i: nat, j: nat)
    requires Linked(start) && IsLocator(start, have) && i < j < |have|
    ensures have[i].nHeight > have[j].nHeight
  {
    assert IsEntry(start, have[i], i) && IsEntry(start, have[j], j);
    DistanceGrows(i, j);
  }

  /** A locator has at most 12 + floor(log2(height)) entries. */
  lemma {:induction false} LocatorShort(start: BlockIndex, have: seq<BlockIndex>)
    requires Linked(start) && IsLocator(start, have)
    ensures |have| <= 12 + Log2(start.nHeight)
  {
    if |have| > 12 {
      assert have[|have| - 2].nHeight > 0 && IsEntry(start, have[|have| - 2], |have| - 2);
      Log2Bounds(|have| - 12, start.nHeight);
    }
  }

  lemma {:induction false} DistanceAtLeast(i: nat)
    ensures Distance(i) >= i
  {
    if i > 10 {
      DistanceAtLeast(i - 1);
    }
  }

  /** The first distance that is not less than d. */
  lemma {:induction false} FirstDistance(d: nat, j: nat) returns (i: nat)
    requires Distance(j) >= d
    ensures i <= j && Distance(i) >= d && (i > 0 ==> Distance(i - 1) < d)
    decreases j
  {
    i := j;
    if j > 0 && Distance(j - 1) >= d {
      i := FirstDistance(d, j - 1);
    }
  }

  /** For every height a locator has a block not above it that is at most twice as far from
      the start, and for the eleven heights below the start the very block. */
  lemma {:induction false} LocatorNear(start: BlockIndex, have: seq<BlockIndex>, h: nat) returns (i: nat)
    requires Linked(start) && IsLocator(start, have) && h <= start.nHeight
    ensures i < |have| && have[i].nHeight <= h && start.nHeight - have[i].nHeight <= 2 * (start.nHeight - h)
    ensures start.nHeight - h <= 11 ==> have[i].nHeight == h
  {
    var d := start.nHeight - h;
    DistanceAtLeast(d);
    i := FirstDistance(d, d);
    if i >= |have| {
      assert IsEntry(start, have[|have| - 1], |have| - 1);
      if |have| - 1 < i - 1 {
        DistanceGrows(|have| - 1, i - 1);
      }
      assert false;
    }
    assert IsEntry(start, have[i], i);
  }

  class Chain {
    var vChain: seq<BlockIndex?>

    ghost predicate Valid()
      reads this
    {
      IsLine(vChain)
    }

    constructor ()
      ensures Valid() && vChain == []
    {
      vChain := [];
    }

    function At(height: int): BlockIndex?
      reads this
    {
      if height < 0 || height >= |vChain| then null else vChain[height]
    }

    function Tip(): BlockIndex?
      reads this
    {
      if |vChain| > 0 then vChain[|vChain| - 1] else null
    }

    function Height(): int
      reads this
    {
      |vChain| - 1
    }

    predicate Contains(b: BlockIndex)
      reads this
    {
      At(b.nHeight) == b
    }

    /** A block is on the chain exactly when it is an ancestor of the tip. */
    lemma {:induction false} ContainsIff(b: BlockIndex)
      requires Valid() && Linked(b)
      ensures Contains(b) <==> |vChain| > b.nHeight && b == Ancestor(vChain[|vChain| - 1], b.nHeight)
    {
      if b.nHeight < |vChain| {
        LineAt(vChain, |vChain| - 1, b.nHeight);
      }
    }

    /** Makes the chain the line of the given tip, stopping where the old chain
        already is that line. */
    method SetTip(tip: BlockIndex?)
      requires Valid() && (tip != null ==> Linked(tip))
      modifies this
      ensures Valid()
      ensures tip == null ==> vChain == []
      ensures tip != null ==>
                |vChain| == tip.nHeight + 1 && forall i | 0 <= i <= tip.nHeight :: vChain[i] == Ancestor(tip, i)
    {
      if tip == null {
        vChain := [];
        return;
      }
      ghost var before := vChain;
      var n := tip.nHeight + 1;
      vChain := if n <= |vChain| then vChain[..n] else vChain + seq(n - |vChain|, _ => null);
      var p: BlockIndex? := tip;
      while p != null && vChain[p.nHeight] != p
        invariant |vChain| == n
        invariant p != null ==> p.nHeight < n && Linked(p) && p == Ancestor(tip, p.nHeight)
        invariant forall i | 0 <= i < n && (p == null || i > p.nHeight) :: vChain[i] == Ancestor(tip, i)
        invariant p != null ==> forall i | 0 <= i <= p.nHeight ::
                    if i < |before| then vChain[i] == before[i] else vChain[i] == null
        decreases if p == null then 0 else p.nHeight + 1
      {
        if p.nHeight > 0 {
          AncestorOfAncestor(tip, p.nHeight, p.nHeight - 1);
        }
        vChain := vChain[p.nHeight := p];
        p := p.pprev;
      }
      if p != null {
        forall i | 0 <= i <= p.nHeight ensures vChain[i] == Ancestor(tip, i) {
          LineAt(before, p.nHeight, i);
          AncestorOfAncestor(tip, p.nHeight, i);
        }
      }
      AncestorsLine(tip, vChain);
    }

    /** An ancestor: by index for a block of the chain, by skip pointers otherwise. */
    method StepBack(p: BlockIndex, height: nat) returns (r: BlockIndex)
      requires Valid() && Linked(p) && SkipsOk(p) && height <= p.nHeight
      ensures r == Ancestor(p, height)
    {
      if Contains(p) {
        LineAt(vChain, p.nHeight, height);
        return At(height);
      }
      ghost var turns;
      r, turns := p.GetAncestor(height);
    }

    /** Ancestors of a block, or of the tip, at exponentially growing distances. */
    method GetLocator(pindex: BlockIndex?) returns (vHave: seq<BlockIndex>)
      requires Valid() && (pindex != null ==> Linked(pindex) && SkipsOk(pindex))
      requires pindex == null && Tip() != null ==> SkipsOk(Tip())
      ensures var start := if pindex == null then Tip() else pindex;
              if start == null then vHave == [] else Linked(start) && IsLocator(start, vHave)
    {
      var p := if pindex == null then Tip() else pindex;
      vHave := [];
      if p == null {
        return;
      }
      ghost var start: BlockIndex := p;
      var nStep := 1;
      while p != null
        invariant Linked(start) && SkipsOk(start) && Entries(start, vHave)
        invariant forall i | 0 <= i < |vHave| :: vHave[i].nHeight > 0
        invariant p != null && IsEntry(start, p, |vHave|)
        invariant nStep == StepAfter(|vHave|)
        decreases if p == null then 0 else p.nHeight + 1
      {
        ghost var k := |vHave|;
        EntriesNext(start, vHave, p);
        vHave := vHave + [p];
        if p.nHeight == 0 {
          break;
        }
        var nHeight := if p.nHeight - nStep > 0 then p.nHeight - nStep else 0;
        NextBack(start.nHeight, k, p.nHeight, nHeight);
        SkipsBelow(start, p.nHeight);
        AncestorOfAncestor(start, p.nHeight, nHeight);
        p := StepBack(p, nHeight);
        if |vHave| > 10 {
          nStep := nStep * 2;
        }
      }
    }

    /** The highest block of the chain that is an ancestor of the given one. */
    method FindFork(pindex: BlockIndex?) returns (r: BlockIndex?)
      requires Valid() && (pindex != null ==> Linked(pindex) && SkipsOk(pindex))
      ensures pindex == null ==> r == null
      ensures r != null ==> Linked(r) && Contains(r) && r.nHeight <= pindex.nHeight && r == Ancestor(pindex, r.nHeight)
      ensures pindex != null ==> forall h: nat | h < |vChain| && h <= pindex.nHeight && (r == null || h > r.nHeight) ::
                vChain[h] != Ancestor(pindex, h)
    {
      if pindex == null {
        return null;
      }
      var p: BlockIndex? := pindex;
      if pindex.nHeight > Height() {
        ghost var turns;
        p, turns := pindex.GetAncestor(Height());
      }
      while p != null && !Contains(p)
        invariant p != null ==> Linked(p) && p.nHeight <= pindex.nHeight && p == Ancestor(pindex, p.nHeight)
        invariant forall h: nat | h < |vChain| && h <= pindex.nHeight && (p == null || h > p.nHeight) ::
                    vChain[h] != Ancestor(pindex, h)
        decreases if p == null then 0 else p.nHeight + 1
      {
        if p.nHeight > 0 {
          AncestorOfAncestor(pindex, p.nHeight, p.nHeight - 1);
        }
        p := p.pprev;
      }
      return p;
    }
  }

  lemma {:induction false} AncestorsLine(tip: BlockIndex, vChain: seq<BlockIndex?>)
    requires Linked(tip) && |vChain| == tip.nHeight + 1
    requires forall i | 0 <= i <= tip.nHeight :: vChain[i] == Ancestor(tip, i)
    ensures IsLine(vChain)
  {
    forall i | 0 < i < |vChain| ensures vChain[i].pprev == vChain[i - 1] {
      AncestorOfAncestor(tip, i, i - 1);
    }
  }
}
