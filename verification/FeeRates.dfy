/** The order in which packages are preferred: by the lower of a transaction's own fee
    rate and that of what it brings along, ties by hash. */
module FeeRates {
  import opened Mempools
  import opened ModifiedTotals

  datatype Rate = Rate(fee: int, size: int)

  /** The smaller of the two rates. */
  function ScoreOf(e: Entry, totals: Modified): Rate {
    if ModFee(e) * totals.size > totals.modFees * Size(e) then Rate(totals.modFees, totals.size)
    else Rate(ModFee(e), Size(e))
  }

  /** A strictly higher rate, compared without division. */
  predicate Above(a: Rate, b: Rate) { a.fee * b.size > a.size * b.fee }

  function Score(pool: Pool, m: ModifiedMap, t: nat): Rate
    requires t in pool
  {
    ScoreOf(pool[t], InForce(pool, m, t))
  }

  predicate Better(pool: Pool, m: ModifiedMap, a: nat, b: nat)
    requires a in pool && b in pool
  {
    var x, y := Score(pool, m, a), Score(pool, m, b);
    Above(x, y) || (x.fee * y.size == x.size * y.fee && a < b)
  }

  /** All totals in force are of some size. */
  ghost predicate Weighted(pool: Pool, m: ModifiedMap) {
    forall t | t in pool :: InForce(pool, m, t).size > 0
  }

  lemma ScoreSize(pool: Pool, m: ModifiedMap, t: nat)
    requires t in pool && Weighted(pool, m)
    ensures Score(pool, m, t).size > 0
  {
    assert InForce(pool, m, t).size > 0;
  }

  lemma Cancel(x: int, y: int, k: int)
    requires k > 0 && x * k <= y * k
    ensures x <= y
  {
  }

  lemma Scale(x: int, y: int, k: int)
    requires k > 0 && x <= y
    ensures x * k <= y * k
  {
  }

  /** At most the rate of one at most the rate of another. */
  lemma NotAboveTrans(a: Rate, b: Rate, c: Rate)
    requires a.size > 0 && b.size > 0 && c.size > 0 && !Above(a, b) && !Above(b, c)
    ensures !Above(a, c)
  {
    var ab, ba := a.fee * b.size, a.size * b.fee;
    var bc, cb := b.fee * c.size, b.size * c.fee;
    Scale(ab, ba, c.size);
    Scale(bc, cb, a.size);
    var ac, ca := a.fee * c.size, a.size * c.fee;
    assert ac * b.size == ab * c.size;
    assert ba * c.size == bc * a.size;
    assert cb * a.size == ca * b.size;
    Cancel(ac, ca, b.size);
  }

  /** Of two transactions exactly one is better. */
  lemma BetterOne(pool: Pool, m: ModifiedMap, a: nat, b: nat)
    requires a in pool && b in pool
    ensures Better(pool, m, a, b) <==> a != b && !Better(pool, m, b, a)
  {
    var x, y := Score(pool, m, a), Score(pool, m, b);
    assert x.fee * y.size == y.size * x.fee && x.size * y.fee == y.fee * x.size;
  }

  lemma BetterTrans(pool: Pool, m: ModifiedMap, a: nat, b: nat, c: nat)
    requires a in pool && b in pool && c in pool && Weighted(pool, m)
    requires Better(pool, m, a, b) && Better(pool, m, b, c)
    ensures Better(pool, m, a, c)
  {
    var x, y, z := Score(pool, m, a), Score(pool, m, b), Score(pool, m, c);
    ScoreSize(pool, m, a);
    ScoreSize(pool, m, b);
    ScoreSize(pool, m, c);
    Swapped(x, y);
    Swapped(y, z);
    Swapped(x, z);
    NotAboveTrans(z, y, x);
    if !Above(x, z) {
      NotAboveTrans(y, x, z);
      NotAboveTrans(x, z, y);
    }
  }

  lemma Swapped(x: Rate, y: Rate)
    ensures Above(x, y) ==> !Above(y, x)
    ensures !Above(x, y) && !Above(y, x) <==> x.fee * y.size == x.size * y.fee
  {
    assert x.fee * y.size == y.size * x.fee && x.size * y.fee == y.fee * x.size;
  }

  // ------------------------------------------------------ the order in fee rates

  /** The transaction alone, or with what it brings along, pays at most fee for size. */
  predicate PaysAtMost(e: Entry, totals: Modified, fee: int, size: int) {
    ModFee(e) * size <= fee * Size(e) || totals.modFees * size <= fee * totals.size
  }

  /** Whichever rate of c is taken, t alone or with what it brings along pays no more. */
  predicate NoFaster(pool: Pool, m: ModifiedMap, t: nat, c: nat)
    requires t in pool && c in pool
  {
    var k := InForce(pool, m, c);
    && PaysAtMost(pool[t], InForce(pool, m, t), ModFee(pool[c]), Size(pool[c]))
    && PaysAtMost(pool[t], InForce(pool, m, t), k.modFees, k.size)
  }

  lemma ScoreIff(e: Entry, totals: Modified, fee: int, size: int)
    requires totals.size > 0 && size > 0
    ensures !Above(ScoreOf(e, totals), Rate(fee, size)) <==> PaysAtMost(e, totals, fee, size)
  {
    var own, all, r := Rate(ModFee(e), Size(e)), Rate(totals.modFees, totals.size), Rate(fee, size);
    var score := ScoreOf(e, totals);
    Commute(own, r);
    Commute(all, r);
    Commute(own, all);
    if !Above(own, r) {
      NotAboveTrans(score, own, r);
    }
    if !Above(all, r) {
      NotAboveTrans(score, all, r);
    }
  }

  lemma Commute(x: Rate, y: Rate)
    ensures x.size * y.fee == y.fee * x.size && x.fee * y.size == y.size * x.fee
  {
  }

  lemma NoFasterIff(pool: Pool, m: ModifiedMap, t: nat, c: nat)
    requires t in pool && c in pool && Weighted(pool, m)
    ensures !Above(Score(pool, m, t), Score(pool, m, c)) <==> NoFaster(pool, m, t, c)
  {
    var x, y, k := Score(pool, m, t), Score(pool, m, c), InForce(pool, m, c);
    var own, all := Rate(ModFee(pool[c]), Size(pool[c])), Rate(k.modFees, k.size);
    ScoreSize(pool, m, t);
    ScoreSize(pool, m, c);
    assert InForce(pool, m, t).size > 0 && k.size > 0;
    ScoreIff(pool[t], InForce(pool, m, t), own.fee, own.size);
    ScoreIff(pool[t], InForce(pool, m, t), all.fee, all.size);
    Commute(own, all);
    if !Above(x, y) {
      NotAboveTrans(x, y, own);
      NotAboveTrans(x, y, all);
    }
  }

  /** a comes before b exactly if b pays no more and, where a pays no more either, a has the
      smaller hash. */
  lemma BetterIff(pool: Pool, m: ModifiedMap, a: nat, b: nat)
    requires a in pool && b in pool && Weighted(pool, m)
    ensures Better(pool, m, a, b) <==> NoFaster(pool, m, b, a) && (NoFaster(pool, m, a, b) ==> a < b)
  {
    NoFasterIff(pool, m, a, b);
    NoFasterIff(pool, m, b, a);
    Swapped(Score(pool, m, a), Score(pool, m, b));
  }

  // ----------------------------------------------------------------- the best

  /** No listed entry is better. */
  predicate Leads(pool: Pool, m: ModifiedMap, t: nat)
    requires t in pool && m.Keys <= pool.Keys
  {
    forall u | u in m :: u == t || Better(pool, m, t, u)
  }

  lemma {:induction false} SomeLeads(pool: Pool, m: ModifiedMap, s: set<nat>) returns (t: nat)
    requires s != {} && s <= pool.Keys && Weighted(pool, m)
    ensures t in s && forall u | u in s :: u == t || Better(pool, m, t, u)
    decreases |s|
  {
    t :| t in s;
    var rest := s - {t};
    if x :| x in rest {
      var v := SomeLeads(pool, m, rest);
      BetterOne(pool, m, v, t);
      if Better(pool, m, t, v) {
        forall u | u in s && u != t ensures Better(pool, m, t, u) {
          if u != v {
            BetterTrans(pool, m, t, v, u);
          }
        }
      } else {
        t := v;
      }
    } else {
      assert forall u | u in s :: u == t || u in rest;
    }
  }

  /** The first entry of the modified index. */
  method Best(pool: Pool, m: ModifiedMap) returns (t: nat)
    requires m != map[] && m.Keys <= pool.Keys && Weighted(pool, m)
    ensures t in m && Leads(pool, m, t)
  {
    ghost var k :| k in m;
    ghost var u := SomeLeads(pool, m, m.Keys);
    t :| t in m && Leads(pool, m, t);
  }

  /** The index of the memory pool: every entry once, better ones first. */
  ghost predicate Index(pool: Pool, order: seq<nat>) {
    && (forall t :: t in order <==> t in pool)
    && (forall i, j | 0 <= i < j < |order| :: Better(pool, map[], order[i], order[j]))
  }

  lemma SameScore(pool: Pool, m: ModifiedMap, a: nat, b: nat)
    requires a in pool && b in pool && a !in m && b !in m
    ensures Better(pool, m, a, b) == Better(pool, map[], a, b)
  {
  }

  /** Every entry is listed once. */
  ghost predicate Once(order: seq<nat>) { forall i, j | 0 <= i < j < |order| :: order[i] != order[j] }

  lemma IndexOnce(pool: Pool, order: seq<nat>)
    requires Index(pool, order)
    ensures Once(order)
  {
    forall i, j | 0 <= i < j < |order| ensures order[i] != order[j] {
      BetterOne(pool, map[], order[i], order[j]);
    }
  }

  /** u pays no more than c and, where c pays no more either, has no smaller hash. */
  predicate Behind(pool: Pool, m: ModifiedMap, u: nat, c: nat)
    requires u in pool && c in pool
  {
    NoFaster(pool, m, u, c) && (NoFaster(pool, m, c, u) ==> c <= u)
  }

  lemma NotBetter(pool: Pool, m: ModifiedMap, u: nat, c: nat)
    requires u in pool && c in pool && Weighted(pool, m) && (u == c || Better(pool, m, c, u))
    ensures Behind(pool, m, u, c)
  {
    if u != c {
      BetterIff(pool, m, c, u);
    } else {
      NoFasterIff(pool, m, c, c);
      Swapped(Score(pool, m, c), Score(pool, m, c));
    }
  }

  /** Everything listed and everything unlisted further down the index is behind c. */
  ghost predicate Chosen(pool: Pool, m: ModifiedMap, order: seq<nat>, mi: nat, c: nat)
    requires c in pool && mi <= |order|
  {
    && (forall u | u in m && u in pool :: Behind(pool, m, u, c))
    && (forall k | mi <= k < |order| && order[k] in pool && order[k] !in m :: Behind(pool, m, order[k], c))
  }

  lemma ChooseModified(pool: Pool, m: ModifiedMap, order: seq<nat>, mi: nat, c: nat)
    requires Index(pool, order) && mi <= |order| && m.Keys <= pool.Keys && Weighted(pool, m)
    requires c in m && Leads(pool, m, c)
    requires mi < |order| ==> order[mi] in pool && order[mi] !in m && Better(pool, m, c, order[mi])
    ensures Chosen(pool, m, order, mi, c)
  {
    forall u | u in m && u in pool ensures Behind(pool, m, u, c) {
      NotBetter(pool, m, u, c);
    }
    forall k | mi <= k < |order| && order[k] in pool && order[k] !in m ensures Behind(pool, m, order[k], c) {
      if mi < k {
        SameScore(pool, m, order[mi], order[k]);
        BetterTrans(pool, m, c, order[mi], order[k]);
      }
      NotBetter(pool, m, order[k], c);
    }
  }

  lemma ChooseIndexed(pool: Pool, m: ModifiedMap, order: seq<nat>, mi: nat, c: nat, b: nat)
    requires Index(pool, order) && mi < |order| && m.Keys <= pool.Keys && Weighted(pool, m)
    requires c == order[mi] && c in pool && c !in m
    requires m == map[] || (b in m && Leads(pool, m, b) && !Better(pool, m, b, c))
    ensures Chosen(pool, m, order, mi, c)
  {
    forall u | u in m && u in pool ensures Behind(pool, m, u, c) {
      BetterOne(pool, m, b, c);
      if u != b {
        BetterTrans(pool, m, c, b, u);
      }
      NotBetter(pool, m, u, c);
    }
    forall k | mi <= k < |order| && order[k] in pool && order[k] !in m ensures Behind(pool, m, order[k], c) {
      if mi < k {
        SameScore(pool, m, order[mi], order[k]);
      }
      NotBetter(pool, m, order[k], c);
    }
  }
}
