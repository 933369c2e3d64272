/** The ancestor totals that the block assembler keeps for entries some of whose
    ancestors are in the block already. */
module ModifiedTotals {
  import opened Mempools

  datatype Modified = Modified(size: int, modFees: int, sigOps: int)

  type ModifiedMap = map<nat, Modified>

  /** The totals a modified entry starts from. */
  function Cached(pool: Pool, t: nat): Modified
    requires t in pool
  {
    Modified(pool[t].sizeWithAncestors, pool[t].modFeesWithAncestors, pool[t].sigOpsWithAncestors)
  }

  /** The totals the assembler goes by. */
  function InForce(pool: Pool, m: ModifiedMap, t: nat): Modified
    requires t in pool
  {
    if t in m then m[t] else Cached(pool, t)
  }

  /** What accounting for parent `it` leaves: an entry that is only now listed loses the
      modified fee of the parent, one that was listed already the base fee. */
  function Less(pool: Pool, from: Modified, listed: bool, it: nat): Modified
    requires it in pool
  {
    var fee := if listed then pool[it].fee else ModFee(pool[it]);
    Modified(from.size - Size(pool[it]), from.modFees - fee, from.sigOps - pool[it].sigOps)
  }

  // --------------------------------------------------------- several parents

  /** Totals less by the transactions in `less`; of an entry not listed before, one of
      them, the first, has taken its modified fee along. */
  ghost predicate Reduced(pool: Pool, from: Modified, listed: bool, less: set<nat>, to: Modified) {
    && to.size == from.size - Total(pool, Sizes, less)
    && to.sigOps == from.sigOps - Total(pool, SigOps, less)
    && if listed then to.modFees == from.modFees - Total(pool, Fees, less)
       else exists first :: FirstOf(pool, from.modFees, less, to.modFees, first)
  }

  ghost predicate FirstOf(pool: Pool, from: int, less: set<nat>, to: int, first: nat) {
    first in less && to == from - Value(pool, ModFees, first) - Total(pool, Fees, less - {first})
  }

  lemma {:induction false} FeesNext(pool: Pool, from: Modified, listed: bool, less: set<nat>, to: Modified, it: nat,
      next: Modified)
    requires Reduced(pool, from, listed, less, to) && it in pool && it !in less
    requires next.modFees == to.modFees - pool[it].fee
    ensures if listed then next.modFees == from.modFees - Total(pool, Fees, less + {it})
            else exists first :: FirstOf(pool, from.modFees, less + {it}, next.modFees, first)
  {
    if listed {
      TotalTake(pool, Fees, less + {it}, it);
      assert less + {it} - {it} == less;
    } else {
      var first :| FirstOf(pool, from.modFees, less, to.modFees, first);
      var rest := less + {it} - {first};
      TotalTake(pool, Fees, rest, it);
      assert rest - {it} == less - {first};
      assert FirstOf(pool, from.modFees, less + {it}, next.modFees, first);
    }
  }

  lemma ReduceNext(pool: Pool, from: Modified, listed: bool, less: set<nat>, to: Modified, it: nat, next: Modified)
    requires Reduced(pool, from, listed, less, to) && it in pool && it !in less && next == Less(pool, to, true, it)
    ensures Reduced(pool, from, listed, less + {it}, next)
  {
    FeesNext(pool, from, listed, less, to, it, next);
    TotalTake(pool, Sizes, less + {it}, it);
    TotalTake(pool, SigOps, less + {it}, it);
    assert less + {it} - {it} == less;
  }

  lemma ReduceFirst(pool: Pool, from: Modified, it: nat, next: Modified)
    requires it in pool && next == Less(pool, from, false, it)
    ensures Reduced(pool, from, false, {it}, next)
  {
    TotalTake(pool, Sizes, {it}, it);
    TotalTake(pool, SigOps, {it}, it);
    assert {it} - {it} == {};
    assert FirstOf(pool, from.modFees, {it}, next.modFees, it);
  }

  /** How entry d stands once the transactions `done` have been accounted for: it is
      listed if it was or if one of its ancestors is in `done`, and its totals are
      less by exactly its ancestors in `done`. */
  ghost predicate Accounted(pool: Pool, m0: ModifiedMap, added: set<nat>, done: set<nat>, m: ModifiedMap, d: nat) {
    && (d in m <==> d in m0 || (d in pool && d !in added && pool[d].ancestors * done != {}))
    && (d in m ==> d in pool && Reduced(pool, InForce(pool, m0, d), d in m0, pool[d].ancestors * done, m[d]))
  }

  ghost predicate Updated(pool: Pool, m0: ModifiedMap, added: set<nat>, done: set<nat>, m: ModifiedMap) {
    forall d: nat :: Accounted(pool, m0, added, done, m, d)
  }

  lemma AccountedNone(pool: Pool, m: ModifiedMap, added: set<nat>)
    requires m.Keys <= pool.Keys
    ensures Updated(pool, m, added, {}, m)
  {
    forall d: nat ensures Accounted(pool, m, added, {}, m, d) {
      if d in pool {
        assert pool[d].ancestors * {} == {};
      }
    }
  }

  /** Accounting for one more parent leaves entries that do not descend from it. */
  lemma AccountedSame(pool: Pool, m0: ModifiedMap, added: set<nat>, done: set<nat>, it: nat, m: ModifiedMap, d: nat)
    requires Accounted(pool, m0, added, done, m, d) && m0.Keys !! added
    requires d !in Descendants(pool, it) - added
    ensures Accounted(pool, m0, added, done + {it}, m, d)
  {
    if d in pool && d !in added {
      assert pool[d].ancestors * (done + {it}) == pool[d].ancestors * done;
    }
  }

  /** Subtracting a parent from a listed entry, or listing it less that parent. */
  lemma AccountedNext(pool: Pool, m0: ModifiedMap, added: set<nat>, done: set<nat>, it: nat, m: ModifiedMap, d: nat,
                      m2: ModifiedMap)
    requires Accounted(pool, m0, added, done, m, d)
    requires it in pool && it !in done && d in Descendants(pool, it) - added && it in added
    requires d in m2 && m2[d] == Less(pool, InForce(pool, m, d), d in m, it)
    ensures Accounted(pool, m0, added, done + {it}, m2, d)
  {
    var less := pool[d].ancestors * done;
    var from := InForce(pool, m0, d);
    assert pool[d].ancestors * (done + {it}) == less + {it};
    if d in m {
      ReduceNext(pool, from, d in m0, less, m[d], it, m2[d]);
    } else {
      assert less + {it} == {it};
      ReduceFirst(pool, from, it, m2[d]);
    }
  }

  /** Halfway: parent `it` is accounted for in the entries seen so far. */
  ghost predicate Partly(pool: Pool, m0: ModifiedMap, added: set<nat>, done: set<nat>, it: nat, seen: set<nat>,
      m: ModifiedMap) {
    forall d: nat :: Accounted(pool, m0, added, if d in seen then done + {it} else done, m, d)
  }

  lemma PartlyNext(pool: Pool, m0: ModifiedMap, added: set<nat>, done: set<nat>, it: nat, seen: set<nat>,
                   m: ModifiedMap, desc: nat, m2: ModifiedMap)
    requires Partly(pool, m0, added, done, it, seen, m) && desc !in seen
    requires it in pool && it !in done && it in added && desc in Descendants(pool, it) - added
    requires m2 == m[desc := Less(pool, InForce(pool, m, desc), desc in m, it)]
    ensures Partly(pool, m0, added, done, it, seen + {desc}, m2)
  {
    assert Accounted(pool, m0, added, if desc in seen then done + {it} else done, m, desc);
    AccountedNext(pool, m0, added, done, it, m, desc, m2);
    forall d: nat ensures Accounted(pool, m0, added, if d in seen + {desc} then done + {it} else done, m2, d) {
      assert Accounted(pool, m0, added, if d in seen then done + {it} else done, m, d);
    }
  }

  lemma PartlyAll(pool: Pool, m0: ModifiedMap, added: set<nat>, done: set<nat>, it: nat, seen: set<nat>, m: ModifiedMap)
    requires Partly(pool, m0, added, done, it, seen, m) && m0.Keys !! added && Descendants(pool, it) - added <= seen
    ensures Updated(pool, m0, added, done + {it}, m)
  {
    forall d: nat ensures Accounted(pool, m0, added, done + {it}, m, d) {
      assert Accounted(pool, m0, added, if d in seen then done + {it} else done, m, d);
      if d !in seen {
        AccountedSame(pool, m0, added, done, it, m, d);
      }
    }
  }

  // ------------------------------------------------------------------- bounds

  /** Entries outside the block, whose totals are at least those of what is missing
      and at most those of the whole package. */
  ghost predicate Bounds(pool: Pool, inBlock: set<nat>, m: ModifiedMap) {
    forall t | t in m ::
      && t in pool && t !in inBlock
      && Total(pool, Sizes, Missing(pool, t, inBlock)) <= m[t].size <= Total(pool, Sizes, Package(pool, t))
      && Total(pool, SigOps, Missing(pool, t, inBlock)) <= m[t].sigOps <= Total(pool, SigOps, Package(pool, t))
  }

  /** Accounting for added transactions keeps the totals between their bounds. */
  lemma UpdatedBounds(pool: Pool, inBlock: set<nat>, added: set<nat>, m0: ModifiedMap, m: ModifiedMap)
    requires Graph(pool) && Exact(pool) && Bounds(pool, inBlock, m0) && Updated(pool, m0, added, added, m)
    requires added !! inBlock && Closed(pool, inBlock) && m0.Keys !! added
    ensures Bounds(pool, inBlock + added, m)
  {
    forall t | t in m
      ensures
        && t in pool && t !in inBlock + added
        && Total(pool, Sizes, Missing(pool, t, inBlock + added)) <= m[t].size <= Total(pool, Sizes, Package(pool, t))
        && Total(pool, SigOps, Missing(pool, t, inBlock + added)) <= m[t].sigOps
        && m[t].sigOps <= Total(pool, SigOps, Package(pool, t))
    {
      assert Accounted(pool, m0, added, added, m, t);
      if t !in m0 {
        var a :| a in pool[t].ancestors * added;
        assert t in inBlock ==> a in inBlock;
      }
      var from := InForce(pool, m0, t);
      BoundAfter(pool, Sizes, t, inBlock, added, from.size, m[t].size);
      BoundAfter(pool, SigOps, t, inBlock, added, from.sigOps, m[t].sigOps);
    }
  }

  lemma {:induction false} BoundAfter(pool: Pool, k: Measure, t: nat, inBlock: set<nat>, added: set<nat>,
      before: int, after: int)
    requires (k == Sizes || k == SigOps) && t in pool && t !in added && added !! inBlock
    requires Total(pool, k, Missing(pool, t, inBlock)) <= before <= Total(pool, k, Package(pool, t))
          || before == Total(pool, k, Package(pool, t))
    requires after == before - Total(pool, k, pool[t].ancestors * added)
    ensures Total(pool, k, Missing(pool, t, inBlock + added)) <= after <= Total(pool, k, Package(pool, t))
  {
    var p := Package(pool, t);
    TotalWithout(pool, k, p, inBlock);
    TotalWithout(pool, k, Missing(pool, t, inBlock), added);
    assert Missing(pool, t, inBlock) - added == Missing(pool, t, inBlock + added);
    assert Missing(pool, t, inBlock) * added == pool[t].ancestors * added;
    TotalNat(pool, k, pool[t].ancestors * added);
  }

  // ------------------------------------------------------------- exact totals

  /** Of the entries outside the block that have not failed, exactly those with an
      ancestor in the block are listed, less by exactly these ancestors. */
  ghost predicate Tracked(pool: Pool, inBlock: set<nat>, m: ModifiedMap, failed: set<nat>) {
    forall t | t in pool && t !in inBlock && t !in failed :: TrackedAt(pool, inBlock, m, t)
  }

  ghost predicate TrackedAt(pool: Pool, inBlock: set<nat>, m: ModifiedMap, t: nat)
    requires t in pool
  {
    var done := pool[t].ancestors * inBlock;
    (t in m <==> done != {}) && (t in m ==> Reduced(pool, Cached(pool, t), false, done, m[t]))
  }

  lemma TrackedStart(pool: Pool, inBlock: set<nat>, m: ModifiedMap)
    requires Updated(pool, map[], inBlock, inBlock, m)
    ensures Tracked(pool, inBlock, m, {})
  {
    forall t | t in pool && t !in inBlock ensures TrackedAt(pool, inBlock, m, t) {
      assert Accounted(pool, map[], inBlock, inBlock, m, t);
    }
  }

  lemma TrackedErase(pool: Pool, inBlock: set<nat>, m: ModifiedMap, failed: set<nat>, t: nat)
    requires Tracked(pool, inBlock, m, failed)
    ensures Tracked(pool, inBlock, m - {t}, failed + {t})
  {
    forall x | x in pool && x !in inBlock && x !in failed + {t} ensures TrackedAt(pool, inBlock, m - {t}, x) {
      assert TrackedAt(pool, inBlock, m, x);
    }
  }

  /** Adding a package and accounting for it keeps every total exact. */
  lemma TrackedAdd(pool: Pool, inBlock: set<nat>, m: ModifiedMap, failed: set<nat>, pkg: set<nat>, m2: ModifiedMap)
    requires Tracked(pool, inBlock, m, failed) && pkg !! inBlock && Updated(pool, m - pkg, pkg, pkg, m2)
    ensures Tracked(pool, inBlock + pkg, m2, failed)
  {
    forall t | t in pool && t !in inBlock + pkg && t !in failed ensures TrackedAt(pool, inBlock + pkg, m2, t) {
      assert TrackedAt(pool, inBlock, m, t);
      assert Accounted(pool, m - pkg, pkg, pkg, m2, t);
      TrackedNext(pool, inBlock, m, pkg, m2, t);
    }
  }

  lemma TrackedNext(pool: Pool, inBlock: set<nat>, m: ModifiedMap, pkg: set<nat>, m2: ModifiedMap, t: nat)
    requires t in pool && t !in pkg && TrackedAt(pool, inBlock, m, t) && pkg !! inBlock
    requires Accounted(pool, m - pkg, pkg, pkg, m2, t)
    ensures TrackedAt(pool, inBlock + pkg, m2, t)
  {
    var done, more := pool[t].ancestors * inBlock, pool[t].ancestors * pkg;
    assert pool[t].ancestors * (inBlock + pkg) == done + more;
    if t in m {
      assert (m - pkg)[t] == m[t];
      ReduceMore(pool, Cached(pool, t), done, m[t], more, m2[t]);
    } else {
      assert done + more == more;
    }
  }

  lemma ReduceMore(pool: Pool, from: Modified, done: set<nat>, mid: Modified, more: set<nat>, to: Modified)
    requires Reduced(pool, from, false, done, mid) && Reduced(pool, mid, true, more, to) && done !! more
    ensures Reduced(pool, from, false, done + more, to)
  {
    TotalSplit(pool, Sizes, done, more);
    TotalSplit(pool, SigOps, done, more);
    var first :| FirstOf(pool, from.modFees, done, mid.modFees, first);
    TotalSplit(pool, Fees, done - {first}, more);
    assert done + more - {first} == (done - {first}) + more;
    assert FirstOf(pool, from.modFees, done + more, to.modFees, first);
  }

  /** The fee total in force: that of what is missing, off by what the operator added to
      the fees of all ancestors in the block but the first. */
  ghost predicate FeesOff(pool: Pool, inBlock: set<nat>, t: nat, totals: Modified)
    requires t in pool
  {
    var done := pool[t].ancestors * inBlock;
    if done == {} then totals.modFees == Total(pool, ModFees, Missing(pool, t, inBlock))
    else exists first :: first in done && FeesOffBy(pool, inBlock, t, totals, first)
  }

  ghost predicate FeesOffBy(pool: Pool, inBlock: set<nat>, t: nat, totals: Modified, first: nat)
    requires t in pool
  {
    totals.modFees ==
      Total(pool, ModFees, Missing(pool, t, inBlock)) + Total(pool, Deltas, pool[t].ancestors * inBlock - {first})
  }

  /** The totals in force of an entry that has not failed are those of what is missing
      from the block, but for prioritised fees. */
  lemma {:induction false} TotalsExact(pool: Pool, inBlock: set<nat>, m: ModifiedMap, t: nat, totals: Modified)
    requires Exact(pool) && t in pool && t !in inBlock && TrackedAt(pool, inBlock, m, t)
    requires totals == InForce(pool, m, t)
    ensures totals.size == Total(pool, Sizes, Missing(pool, t, inBlock))
    ensures totals.sigOps == Total(pool, SigOps, Missing(pool, t, inBlock))
    ensures FeesOff(pool, inBlock, t, totals)
  {
    var done := pool[t].ancestors * inBlock;
    var left := Missing(pool, t, inBlock);
    assert Package(pool, t) == left + done;
    TotalSplit(pool, Sizes, left, done);
    TotalSplit(pool, SigOps, left, done);
    TotalSplit(pool, ModFees, left, done);
    if done != {} {
      var first :| FirstOf(pool, Cached(pool, t).modFees, done, totals.modFees, first);
      TotalTake(pool, ModFees, done, first);
      ModFeesTotal(pool, done - {first});
      assert FeesOffBy(pool, inBlock, t, totals, first);
    }
  }
  // ---------------------------------------------------------- prioritised fees

  lemma {:induction false} EqualValues(pool: Pool, k: Measure, s: set<nat>, v: int)
    requires forall a | a in s :: Value(pool, k, a) == v
    ensures Total(pool, k, s) == |s| * v
    decreases |s|
  {
    if x :| x in s {
      TotalTake(pool, k, s, x);
      EqualValues(pool, k, s - {x}, v);
      OneMore(|s - {x}|, v);
    } else {
      Nothing(s);
    }
  }

  lemma OneMore(n: nat, v: int)
    ensures (n + 1) * v == v + n * v
  {
  }

  /** Whichever of the ancestors in the block came first, the fee total in force is that
      of what is missing. */
  ghost predicate FeesAlwaysExact(pool: Pool, inBlock: set<nat>, t: nat)
    requires t in pool
  {
    forall first, totals | first in pool[t].ancestors * inBlock && FeesOffBy(pool, inBlock, t, totals, first) ::
      totals.modFees == Total(pool, ModFees, Missing(pool, t, inBlock))
  }

  lemma {:induction false} NoneOff(pool: Pool, inBlock: set<nat>, t: nat, first: nat)
    requires t in pool && first in pool[t].ancestors * inBlock && FeesAlwaysExact(pool, inBlock, t)
    ensures Total(pool, Deltas, pool[t].ancestors * inBlock - {first}) == 0
  {
    var off := Total(pool, Deltas, pool[t].ancestors * inBlock - {first});
    var totals := Modified(0, Total(pool, ModFees, Missing(pool, t, inBlock)) + off, 0);
    assert FeesOffBy(pool, inBlock, t, totals, first);
  }

  /** That is so exactly if at most one ancestor is in the block or none of those that are
      has been prioritised. */
  lemma FeesExactIff(pool: Pool, inBlock: set<nat>, t: nat, done: set<nat>)
    requires t in pool && done == pool[t].ancestors * inBlock
    ensures FeesAlwaysExact(pool, inBlock, t) <==> |done| <= 1 || forall a | a in done :: Value(pool, Deltas, a) == 0
  {
    if FeesAlwaysExact(pool, inBlock, t) {
      var all := Total(pool, Deltas, done);
      forall a | a in done ensures Value(pool, Deltas, a) == all {
        NoneOff(pool, inBlock, t, a);
        TotalTake(pool, Deltas, done, a);
      }
      EqualValues(pool, Deltas, done, all);
      ManyTimes(|done|, all);
    }
    if |done| <= 1 || forall a | a in done :: Value(pool, Deltas, a) == 0 {
      forall first | first in done ensures Total(pool, Deltas, done - {first}) == 0 {
        if |done| <= 1 {
          assert |done - {first}| == 0;
        } else {
          EqualValues(pool, Deltas, done - {first}, 0);
        }
      }
    }
  }

  lemma ManyTimes(n: nat, v: int)
    requires v == n * v
    ensures n == 1 || v == 0
  {
    assert (n - 1) * v == 0;
  }

  /** Two parents p and q, each prioritised by ten, and their child c. */
  ghost predicate Family(pool: Pool, p: nat, q: nat, c: nat) {
    && p != q && p != c && q != c && pool.Keys == {p, q, c}
    && pool[p] == Entry(4, 0, 0, 10, true, false, {}, 1, 1, 10, 0)
    && pool[q] == pool[p]
    && pool[c] == Entry(4, 0, 0, 0, true, false, {p, q}, 3, 3, 20, 0)
  }

  lemma FamilyExists(p: nat, q: nat, c: nat) returns (pool: Pool)
    requires p != q && p != c && q != c
    ensures Family(pool, p, q, c)
  {
    var parent := Entry(4, 0, 0, 10, true, false, {}, 1, 1, 10, 0);
    pool := map[p := parent, q := parent, c := Entry(4, 0, 0, 0, true, false, {p, q}, 3, 3, 20, 0)];
  }

  lemma {:induction false} OneOnly(pool: Pool, k: Measure, s: set<nat>, x: nat)
    requires s == {x}
    ensures Total(pool, k, s) == Value(pool, k, x)
  {
    TotalTake(pool, k, s, x);
    assert s - {x} == {};
  }

  lemma {:induction false} TwoOf(pool: Pool, k: Measure, s: set<nat>, x: nat, y: nat)
    requires s == {x, y} && x != y
    ensures Total(pool, k, s) == Value(pool, k, x) + Value(pool, k, y)
  {
    TotalTake(pool, k, s, x);
    OneOnly(pool, k, s - {x}, y);
  }

  lemma {:induction false} PackageTotal(pool: Pool, k: Measure, t: nat)
    requires t in pool && t !in pool[t].ancestors
    ensures Total(pool, k, Package(pool, t)) == Value(pool, k, t) + Total(pool, k, pool[t].ancestors)
  {
    TotalTake(pool, k, Package(pool, t), t);
    assert Package(pool, t) - {t} == pool[t].ancestors;
  }

  ghost predicate ExactAt(pool: Pool, t: nat)
    requires t in pool
  {
    && pool[t].countWithAncestors == |pool[t].ancestors| + 1
    && pool[t].sizeWithAncestors == Total(pool, Sizes, Package(pool, t))
    && pool[t].modFeesWithAncestors == Total(pool, ModFees, Package(pool, t))
    && pool[t].sigOpsWithAncestors == Total(pool, SigOps, Package(pool, t))
  }

  lemma ParentExact(pool: Pool, t: nat)
    requires t in pool && pool[t] == Entry(4, 0, 0, 10, true, false, {}, 1, 1, 10, 0)
    ensures ExactAt(pool, t)
  {
    var p := Package(pool, t);
    assert p == {t};
    OneOnly(pool, Sizes, p, t);
    OneOnly(pool, ModFees, p, t);
    OneOnly(pool, SigOps, p, t);
  }

  lemma {:induction false} ChildTotal(pool: Pool, k: Measure, p: nat, q: nat, c: nat)
    requires c in pool && p != q && p != c && q != c && pool[c].ancestors == {p, q}
    ensures Total(pool, k, Package(pool, c)) == Value(pool, k, p) + Value(pool, k, q) + Value(pool, k, c)
  {
    PackageTotal(pool, k, c);
    TwoOf(pool, k, pool[c].ancestors, p, q);
  }

  lemma FamilyExact(pool: Pool, p: nat, q: nat, c: nat)
    requires Family(pool, p, q, c)
    ensures Graph(pool) && Exact(pool)
  {
    ParentExact(pool, p);
    ParentExact(pool, q);
    ChildTotal(pool, Sizes, p, q, c);
    ChildTotal(pool, ModFees, p, q, c);
    ChildTotal(pool, SigOps, p, q, c);
    assert ExactAt(pool, c);
    assert forall t | t in pool :: t == p || t == q || t == c;
  }

  lemma FamilyTracked(pool: Pool, inBlock: set<nat>, m: ModifiedMap, t: nat, done: set<nat>)
    requires Exact(pool) && t in pool && t !in inBlock && done == pool[t].ancestors * inBlock && done != {}
    requires Updated(pool, map[], inBlock, inBlock, m)
    ensures t in m && exists first :: first in done && FeesOffBy(pool, inBlock, t, m[t], first)
  {
    TrackedStart(pool, inBlock, m);
    assert TrackedAt(pool, inBlock, m, t);
    TotalsExact(pool, inBlock, m, t, InForce(pool, m, t));
  }

  lemma {:induction false} OffByTen(pool: Pool, p: nat, q: nat, c: nat, inBlock: set<nat>, first: nat)
    requires Family(pool, p, q, c) && inBlock == {p, q} && first in inBlock
    ensures Total(pool, Deltas, pool[c].ancestors * inBlock - {first}) == 10
  {
    OneOnly(pool, Deltas, pool[c].ancestors * inBlock - {first}, if first == p then q else p);
  }

  lemma {:induction false} ChildAlone(pool: Pool, p: nat, q: nat, c: nat, inBlock: set<nat>)
    requires Family(pool, p, q, c) && inBlock == {p, q}
    ensures Missing(pool, c, inBlock) == {c} && Total(pool, ModFees, Missing(pool, c, inBlock)) == 0
  {
    OneOnly(pool, ModFees, Missing(pool, c, inBlock), c);
  }

  /** With both parents in the block the child still passes for paying ten, though what is
      missing, the child itself, pays nothing. */
  lemma {:induction false} FeesCounterexample(pool: Pool, p: nat, q: nat, c: nat, inBlock: set<nat>, m: ModifiedMap)
    requires Family(pool, p, q, c) && inBlock == {p, q} && Updated(pool, map[], inBlock, inBlock, m)
    ensures c in m && m[c].modFees == 10
    ensures Missing(pool, c, inBlock) == {c} && Total(pool, ModFees, Missing(pool, c, inBlock)) == 0
  {
    ChildAlone(pool, p, q, c, inBlock);
    var first := FamilyFirst(pool, p, q, c, inBlock, m);
    OffByTen(pool, p, q, c, inBlock, first);
  }

  lemma FamilyFirst(pool: Pool, p: nat, q: nat, c: nat, inBlock: set<nat>, m: ModifiedMap) returns (first: nat)
    requires Family(pool, p, q, c) && inBlock == {p, q} && Updated(pool, map[], inBlock, inBlock, m)
    ensures c in m && first in inBlock && FeesOffBy(pool, inBlock, c, m[c], first)
  {
    FamilyExact(pool, p, q, c);
    var done := pool[c].ancestors * inBlock;
    assert p in done;
    FamilyTracked(pool, inBlock, m, c, done);
    first :| first in done && FeesOffBy(pool, inBlock, c, m[c], first);
  }
}
