/** The transaction pool as the block assembler sees it: a finite graph of entries,
    each with the exact set of its unconfirmed ancestors and exact ancestor totals. */
module Mempools {
  import opened Basics

  /** No transaction is empty. */
  type Weight = x: int | 0 < x witness 1

  datatype Entry = Entry(weight: Weight, sigOps: nat, fee: int, feeDelta: int, isFinal: bool, hasWitness: bool,
                         ancestors: set<nat>, countWithAncestors: nat,
                         sizeWithAncestors: int, modFeesWithAncestors: int, sigOpsWithAncestors: int)

  type Pool = map<nat, Entry>

  const WITNESS_SCALE_FACTOR := 4
  const BYTES_PER_SIGOP := 20

  /** The virtual size of a transaction. */
  function Size(e: Entry): (s: nat)
    ensures 0 < e.weight <= 4 * s && e.sigOps * 20 <= 4 * s
    ensures 4 * (s - 1) < e.weight || 4 * (s - 1) < e.sigOps * 20
  {
    (Max(e.weight, e.sigOps * BYTES_PER_SIGOP) + WITNESS_SCALE_FACTOR - 1) / WITNESS_SCALE_FACTOR
  }

  /** The fee as prioritised by the operator. */
  function ModFee(e: Entry): int { e.fee + e.feeDelta }

  /** Ancestor sets lie in the pool, exclude the entry itself and are transitive. */
  ghost predicate Graph(pool: Pool) {
    forall t | t in pool ::
      && t !in pool[t].ancestors
      && forall a | a in pool[t].ancestors :: a in pool && pool[a].ancestors <= pool[t].ancestors
  }

  /** An entry together with its ancestors. */
  function Package(pool: Pool, t: nat): set<nat>
    requires t in pool
  {
    pool[t].ancestors + {t}
  }

  /** An entry together with everything that spends from it. */
  function Descendants(pool: Pool, t: nat): set<nat> {
    set d | d in pool && (d == t || t in pool[d].ancestors)
  }

  /** What of a transaction's package is still missing from the block. */
  function Missing(pool: Pool, t: nat, inBlock: set<nat>): set<nat>
    requires t in pool
  {
    Package(pool, t) - inBlock
  }

  ghost predicate Closed(pool: Pool, s: set<nat>) {
    forall t | t in s :: t in pool && pool[t].ancestors <= s
  }

  lemma CountGrows(pool: Pool, a: nat, t: nat)
    requires Graph(pool) && t in pool && a in pool[t].ancestors
    ensures a in pool && |pool[a].ancestors| < |pool[t].ancestors|
  {
    assert pool[a].ancestors <= pool[t].ancestors - {a};
    Smaller(pool[a].ancestors, pool[t].ancestors - {a});
  }

  lemma {:induction false} Smaller(a: set<nat>, b: set<nat>)
    requires a <= b
    ensures |a| <= |b|
    decreases |b|
  {
    if x :| x in b {
      Smaller(a - {x}, b - {x});
    } else {
      Nothing(b);
      Nothing(a);
    }
  }

  lemma Nothing(a: set<nat>)
    requires forall x: nat :: x !in a
    ensures a == {}
  {
  }

  // ------------------------------------------------------------------- totals

  datatype Measure = Sizes | Weights | SigOps | Fees | Deltas | ModFees

  function Value(pool: Pool, m: Measure, t: nat): int {
    if t !in pool then 0
    else match m
      case Sizes => Size(pool[t])
      case Weights => pool[t].weight
      case SigOps => pool[t].sigOps
      case Fees => pool[t].fee
      case Deltas => pool[t].feeDelta
      case ModFees => ModFee(pool[t])
  }

  /** The measures that are never negative. */
  predicate Natural(m: Measure) { m == Sizes || m == Weights || m == SigOps }

  ghost function Total(pool: Pool, m: Measure, s: set<nat>): int
    decreases |s|
  {
    if x :| x in s then Value(pool, m, x) + Total(pool, m, s - {x}) else 0
  }

  /** The total does not depend on the order of summation. */
  lemma {:induction false} TotalTake(pool: Pool, m: Measure, s: set<nat>, x: nat)
    requires x in s
    ensures Total(pool, m, s) == Value(pool, m, x) + Total(pool, m, s - {x})
    decreases |s|
  {
    var y :| y in s && Total(pool, m, s) == Value(pool, m, y) + Total(pool, m, s - {y});
    if y != x {
      TotalTake(pool, m, s - {y}, x);
      TotalTake(pool, m, s - {x}, y);
      assert s - {y} - {x} == s - {x} - {y};
    }
  }

  lemma {:induction false} TotalSplit(pool: Pool, m: Measure, a: set<nat>, b: set<nat>)
    requires a !! b
    ensures Total(pool, m, a + b) == Total(pool, m, a) + Total(pool, m, b)
    decreases |a|
  {
    if x :| x in a {
      TotalTake(pool, m, a, x);
      TotalTake(pool, m, a + b, x);
      assert a + b - {x} == (a - {x}) + b;
      TotalSplit(pool, m, a - {x}, b);
    } else {
      Nothing(a);
      assert a + b == b;
    }
  }

  lemma {:induction false} TotalNat(pool: Pool, m: Measure, s: set<nat>)
    requires Natural(m)
    ensures Total(pool, m, s) >= 0
    decreases |s|
  {
    if x :| x in s {
      TotalTake(pool, m, s, x);
      TotalNat(pool, m, s - {x});
    }
  }

  /** Taking a part out of a set lowers a nonnegative total by that part's. */
  lemma {:induction false} TotalWithout(pool: Pool, m: Measure, s: set<nat>, part: set<nat>)
    requires Natural(m)
    ensures Total(pool, m, s) == Total(pool, m, s * part) + Total(pool, m, s - part)
    ensures 0 <= Total(pool, m, s - part) <= Total(pool, m, s)
  {
    TotalSplit(pool, m, s * part, s - part);
    assert s * part + (s - part) == s;
    TotalNat(pool, m, s * part);
    TotalNat(pool, m, s - part);
  }

  /** Modified fees are base fees plus what the operator added. */
  lemma {:induction false} ModFeesTotal(pool: Pool, s: set<nat>)
    ensures Total(pool, ModFees, s) == Total(pool, Fees, s) + Total(pool, Deltas, s)
    decreases |s|
  {
    if x :| x in s {
      TotalTake(pool, ModFees, s, x);
      TotalTake(pool, Fees, s, x);
      TotalTake(pool, Deltas, s, x);
      ModFeesTotal(pool, s - {x});
    }
  }

  /** The cached ancestor totals of every entry are exact. */
  ghost predicate Exact(pool: Pool) {
    forall t | t in pool ::
      && pool[t].countWithAncestors == |pool[t].ancestors| + 1
      && pool[t].sizeWithAncestors == Total(pool, Sizes, Package(pool, t))
      && pool[t].modFeesWithAncestors == Total(pool, ModFees, Package(pool, t))
      && pool[t].sigOpsWithAncestors == Total(pool, SigOps, Package(pool, t))
  }

  /** A set weighs at most four times its virtual size. */
  lemma {:induction false} WeightBySize(pool: Pool, s: set<nat>)
    ensures Total(pool, Weights, s) <= WITNESS_SCALE_FACTOR * Total(pool, Sizes, s)
    decreases |s|
  {
    if x :| x in s {
      TotalTake(pool, Weights, s, x);
      TotalTake(pool, Sizes, s, x);
      WeightBySize(pool, s - {x});
    }
  }
}
