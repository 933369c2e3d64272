/** The view stack as linked objects: a database object at the bottom and cache
    objects, each updating its own map in place and calling its parent. Every
    method is proved against the stack functions of module Coins, and states what
    it does to the visible UTXO sets. */
module CoinsViews {
  import opened Coins

  /** The map after inserting outputs 0..n of a transaction, skipping unspendable ones. */
  ghost function InsertOutputs(m: CoinMap, txid: int, outs: seq<TxOut>, n: nat, nHeight: nat, fCoinBase: bool): CoinMap
    requires n <= |outs|
  {
    if n == 0 then m
    else
      var coin := Coin(outs[n - 1], fCoinBase, nHeight);
      var r := InsertOutputs(m, txid, outs, n - 1, nHeight, fCoinBase);
      if CanBeSpent(outs[n - 1]) then r[OutPoint(txid, n - 1) := coin] else r
  }

  lemma {:induction false} InsertOutputsFrame(m: CoinMap, txid: int, outs: seq<TxOut>, n: nat, nHeight: nat,
      fCoinBase: bool, o: OutPoint)
    requires n <= |outs|
    requires o.hash != txid || o.n >= n
    ensures var r := InsertOutputs(m, txid, outs, n, nHeight, fCoinBase);
            (o in r <==> o in m) && (o in m ==> r[o] == m[o])
  {
    if n > 0 {
      InsertOutputsFrame(m, txid, outs, n - 1, nHeight, fCoinBase, o);
    }
  }

  /** What inserting the first n outputs shows at an outpoint. */
  lemma {:induction false} InsertOutputsAt(m: CoinMap, txid: int, outs: seq<TxOut>, n: nat, nHeight: nat,
      fCoinBase: bool,
      o: OutPoint)
    requires n <= |outs| && o.hash == txid && o.n < n
    ensures var r := InsertOutputs(m, txid, outs, n, nHeight, fCoinBase);
            if CanBeSpent(outs[o.n]) then o in r && r[o] == Coin(outs[o.n], fCoinBase, nHeight)
            else (o in r <==> o in m) && (o in m ==> r[o] == m[o])
  {
    if o.n < n - 1 {
      InsertOutputsAt(m, txid, outs, n - 1, nHeight, fCoinBase, o);
    } else {
      InsertOutputsFrame(m, txid, outs, n - 1, nHeight, fCoinBase, o);
    }
  }

  /** The view gains exactly the outputs that do not start with the byte 0x6a and have at most
      10000 bytes of script. */
  ghost predicate OutputsShown(view: CoinMap, was: CoinMap, txid: int, outs: seq<TxOut>, nHeight: nat,
      fCoinBase: bool) {
    forall o: OutPoint ::
      if o.hash == txid && o.n < |outs| && |outs[o.n].scriptPubKey| <= 10000
         && (|outs[o.n].scriptPubKey| == 0 || outs[o.n].scriptPubKey[0] != 0x6a)
      then o in view && view[o] == Coin(outs[o.n], fCoinBase, nHeight)
      else (o in view <==> o in was) && (o in was ==> view[o] == was[o])
  }

  lemma {:induction false} InsertOutputsShown(m: CoinMap, txid: int, outs: seq<TxOut>, nHeight: nat, fCoinBase: bool)
    ensures OutputsShown(InsertOutputs(m, txid, outs, |outs|, nHeight, fCoinBase), m, txid, outs, nHeight, fCoinBase)
  {
    forall o: OutPoint
      ensures var r := InsertOutputs(m, txid, outs, |outs|, nHeight, fCoinBase);
              if o.hash == txid && o.n < |outs| && CanBeSpent(outs[o.n])
              then o in r && r[o] == Coin(outs[o.n], fCoinBase, nHeight)
              else (o in r <==> o in m) && (o in m ==> r[o] == m[o])
    {
      if o.hash == txid && o.n < |outs| {
        InsertOutputsAt(m, txid, outs, |outs|, nHeight, fCoinBase, o);
      } else {
        InsertOutputsFrame(m, txid, outs, |outs|, nHeight, fCoinBase, o);
      }
    }
  }

  ghost function Put(e: Entries, o: OutPoint, slot: Slot): Entries {
    match slot
    case Absent => e - {o}
    case Present(x) => e[o := x]
  }

  lemma MergeAllStep(p: Entries, done: Entries, o: OutPoint, en: Entry)
    requires o !in done
    ensures At(MergeAll(p, done), o) == At(p, o)
    ensures MergeAll(p, done[o := en]) == Put(MergeAll(p, done), o, Merge(At(p, o), en))
  {
  }

  lemma MergeNext(p: Entries, all: Entries, rest: set<OutPoint>, o: OutPoint)
    requires o in rest && o in all
    ensures var now := MergeAll(p, Done(all, rest));
            At(now, o) == At(p, o) && MergeAll(p, Done(all, rest - {o})) == Put(now, o, Merge(At(p, o), all[o]))
  {
    DoneStep(all, rest, o);
    MergeAllStep(p, Done(all, rest), o, all[o]);
  }

  lemma MergeEnds(p: Entries, all: Entries)
    ensures MergeAll(p, Done(all, all.Keys)) == p
    ensures MergeAll(p, Done(all, {})) == MergeAll(p, all)
  {
    assert Done(all, {}) == all;
    assert MergeAll(p, Done(all, all.Keys)) == p;
  }

  lemma WriteAllStep(m: CoinMap, done: Entries, o: OutPoint, en: Entry)
    requires o !in done
    ensures WriteAll(m, done[o := en]) ==
            if !en.isDirty then WriteAll(m, done)
            else if en.coin.IsSpent() then WriteAll(m, done) - {o}
            else WriteAll(m, done)[o := en.coin]
  {
  }

  /** A spendable coin is now visible at `o`, and nothing else changed at any level. */
  ghost predicate GoodAdd(s: Stack, o: OutPoint, coin: Coin, r: AddResult) {
    && r.Added? && Inv(r.s)
    && Views(r.s) == if CanBeSpent(coin.out) then Views(s)[0 := View(s)[o := coin]] else Views(s)
  }

  /** The entries already written when the keys `rest` are still to come. */
  ghost function Done(all: Entries, rest: set<OutPoint>): Entries {
    map o | o in all && o !in rest :: all[o]
  }

  lemma DoneStep(all: Entries, rest: set<OutPoint>, o: OutPoint)
    requires o in rest && o in all
    ensures Done(all, rest - {o}) == Done(all, rest)[o := all[o]]
  {
  }

  class CoinsView {
    const base: CoinsView?     // null for the database
    const depth: nat
    var db: CoinMap
    var cacheCoins: Entries
    var cachedCoinsUsage: int

    /** This view and all views below it. */
    ghost const chain: set<CoinsView>

    ghost predicate Linked()
      decreases depth
    {
      if base == null then chain == {this}
      else base.depth < depth && base.Linked() && this !in base.chain && chain == {this} + base.chain
    }

    ghost function Abs(): (s: Stack)
      requires Linked()
      reads chain
      ensures s.Cache? <==> base != null
      decreases depth
    {
      if base == null then Database(db) else Cache(cacheCoins, cachedCoinsUsage, base.Abs())
    }

    constructor OpenDatabase(coins: CoinMap)
      requires forall o | o in coins :: !coins[o].IsSpent()
      ensures base == null && Linked() && Inv(Abs()) && Abs() == Database(coins)
    {
      base, depth, chain, db, cacheCoins, cachedCoinsUsage := null, 0, {this}, coins, map[], 0;
    }

    constructor OnTopOf(parent: CoinsView)
      requires parent.Linked() && Inv(parent.Abs())
      ensures base == parent && Linked() && Inv(Abs())
      ensures Views(Abs()) == [View(parent.Abs())] + Views(parent.Abs())
    {
      base, depth, chain := parent, parent.depth + 1, {this} + parent.chain;
      db, cacheCoins, cachedCoinsUsage := map[], map[], 0;
      new;
      assert this !in parent.chain;
      EmptyCache(parent.Abs());
    }

    /** Reads fill caches all the way down but change no visible UTXO set. */
    method GetCoin(o: OutPoint) returns (found: bool, coin: Coin)
      requires Linked() && Inv(Abs())
      modifies chain
      ensures Abs() == Fetch(old(Abs()), o)
      ensures Inv(Abs()) && Views(Abs()) == old(Views(Abs()))
      ensures found <==> o in old(View(Abs()))
      ensures found ==> coin == old(View(Abs()))[o]
      decreases depth, 1
    {
      FetchOk(Abs(), o);
      UnspentView(Abs());
      if base == null {
        found := o in db;
        coin := if found then db[o] else NoCoin;
      } else {
        FetchCoin(o);
        found := o in cacheCoins && !cacheCoins[o].coin.IsSpent();
        coin := if found then cacheCoins[o].coin else NoCoin;
      }
    }

    method FetchCoin(o: OutPoint)
      requires Linked() && base != null && Inv(Abs())
      modifies chain
      ensures Abs() == Fetch(old(Abs()), o)
      decreases depth, 0
    {
      if o in cacheCoins {
        return;
      }
      ghost var b := base.Abs();
      var found, tmp := base.GetCoin(o);
      FetchOk(b, o);
      UnspentView(b);
      if !found {
        return;
      }
      cacheCoins := cacheCoins[o := Entry(tmp, false, tmp.IsSpent())];
      cachedCoinsUsage := cachedCoinsUsage + tmp.DynamicMemoryUsage();
    }

    method HaveCoin(o: OutPoint) returns (found: bool)
      requires Linked() && base != null && Inv(Abs())
      modifies chain
      ensures Abs() == Fetch(old(Abs()), o)
      ensures Inv(Abs()) && Views(Abs()) == old(Views(Abs()))
      ensures found <==> o in old(View(Abs()))
    {
      FetchOk(Abs(), o);
      FetchCoin(o);
      found := o in cacheCoins && !cacheCoins[o].coin.IsSpent();
    }

    /** A pruned coin stands for "not found". */
    method AccessCoin(o: OutPoint) returns (coin: Coin)
      requires Linked() && base != null && Inv(Abs())
      modifies chain
      ensures Inv(Abs()) && Views(Abs()) == old(Views(Abs()))
      ensures coin.IsSpent() <==> o !in old(View(Abs()))
      ensures !coin.IsSpent() ==> coin == old(View(Abs()))[o]
    {
      FetchOk(Abs(), o);
      FetchCoin(o);
      coin := if o in cacheCoins then cacheCoins[o].coin else NoCoin;
    }

    /** Insertion. Throws, leaving the UTXO sets alone, only where the caller did
        not announce that an unspent coin may be replaced. */
    method AddCoin(o: OutPoint, coin: Coin, possibleOverwrite: bool) returns (threw: bool)
      requires Linked() && base != null && Inv(Abs()) && !coin.IsSpent()
      modifies this`cacheCoins, this`cachedCoinsUsage
      ensures threw == Coins.AddCoin(old(Abs()), o, coin, possibleOverwrite).Threw?
      ensures Abs() == Coins.AddCoin(old(Abs()), o, coin, possibleOverwrite).s
      ensures possibleOverwrite || o !in old(View(Abs())) ==> !threw && GoodAdd(old(Abs()), o, coin, Added(Abs()))
    {
      ghost var s0 := Abs();
      ghost var r := Coins.AddCoin(s0, o, coin, possibleOverwrite);
      assert possibleOverwrite || o !in View(s0) ==> GoodAdd(s0, o, coin, r) by {
        if possibleOverwrite || o !in View(s0) {
          AddCoinOk(s0, o, coin, possibleOverwrite);
        }
      }
      if coin.IsUnspendable() {
        return false;
      }
      var inserted := o !in cacheCoins;
      var entry := if inserted then Entry(NoCoin, false, false) else cacheCoins[o];
      var markFresh := false;
      if !inserted {
        cachedCoinsUsage := cachedCoinsUsage - entry.coin.DynamicMemoryUsage();
      }
      if !possibleOverwrite {
        if !entry.coin.IsSpent() {
          return true;
        }
        markFresh := !entry.isDirty;
      }
      cacheCoins := cacheCoins[o := Entry(coin, true, entry.isFresh || markFresh)];
      cachedCoinsUsage := cachedCoinsUsage + coin.DynamicMemoryUsage();
      return false;
    }

    /** Deletion. The result may also be true for a coin already spent in this cache. */
    method SpendCoin(o: OutPoint) returns (ok: bool, moveout: Coin)
      requires Linked() && base != null && Inv(Abs())
      modifies chain
      ensures Abs() == Coins.SpendCoin(old(Abs()), o)
      ensures Inv(Abs()) && Views(Abs()) == old(Views(Abs()))[0 := old(View(Abs())) - {o}]
      ensures o in old(View(Abs())) ==> ok && moveout == old(View(Abs()))[o]
      ensures ok <==> o in old(View(Abs())) || o in old(cacheCoins)
    {
      SpendCoinOk(Abs(), o);
      SpendFinds(Abs(), o);
      FetchCoin(o);
      ghost var f := Abs();
      if o !in cacheCoins {
        return false, NoCoin;
      }
      var entry := cacheCoins[o];
      cachedCoinsUsage := cachedCoinsUsage - entry.coin.DynamicMemoryUsage();
      ok, moveout := true, entry.coin;
      if entry.isFresh {
        cacheCoins := cacheCoins - {o};
      } else {
        cacheCoins := cacheCoins[o := Entry(NoCoin, true, entry.isFresh)];
      }
      assert Abs() == EraseFetched(f, o);
    }

    method Uncache(o: OutPoint)
      requires Linked() && base != null && Inv(Abs())
      modifies this`cacheCoins, this`cachedCoinsUsage
      ensures Abs() == Coins.Uncache(old(Abs()), o)
      ensures Inv(Abs()) && Views(Abs()) == old(Views(Abs()))
      ensures o in cacheCoins ==> cacheCoins[o].isDirty
    {
      UncacheOk(Abs(), o);
      if o in cacheCoins && !cacheCoins[o].isDirty && !cacheCoins[o].isFresh {
        cachedCoinsUsage := cachedCoinsUsage - cacheCoins[o].coin.DynamicMemoryUsage();
        cacheCoins := cacheCoins - {o};
      }
    }

    /** Writing a child's entries, in whatever order its hash map yields them. The
        error is raised exactly when some FRESH flag was misapplied. */
    method BatchWriteCache(mapCoins: Entries) returns (threw: bool)
      requires cachedCoinsUsage == UsageSum(cacheCoins)
      modifies this`cacheCoins, this`cachedCoinsUsage
      ensures threw <==> exists o | o in mapCoins :: Misapplied(At(old(cacheCoins), o), mapCoins[o])
      ensures !threw ==> cacheCoins == MergeAll(old(cacheCoins), mapCoins)
      ensures !threw ==> cachedCoinsUsage == UsageSum(cacheCoins)
    {
      ghost var p := cacheCoins;
      var rest := mapCoins.Keys;
      MergeEnds(p, mapCoins);
      while rest != {}
        invariant rest <= mapCoins.Keys
        invariant forall o | o in mapCoins && o !in rest :: !Misapplied(At(p, o), mapCoins[o])
        invariant cacheCoins == MergeAll(p, Done(mapCoins, rest))
        invariant cachedCoinsUsage == UsageSum(cacheCoins)
        decreases |rest|
      {
        var o :| o in rest;
        MergeNext(p, mapCoins, rest, o);
        threw := WriteEntry(o, mapCoins[o]);
        if threw {
          return;
        }
        rest := rest - {o};
      }
      threw := false;
    }

    /** One iteration of BatchWrite. */
    method WriteEntry(o: OutPoint, child: Entry) returns (threw: bool)
      requires cachedCoinsUsage == UsageSum(cacheCoins)
      modifies this`cacheCoins, this`cachedCoinsUsage
      ensures threw <==> Misapplied(At(old(cacheCoins), o), child)
      ensures !threw ==> cachedCoinsUsage == UsageSum(cacheCoins)
      ensures !threw ==> cacheCoins == Put(old(cacheCoins), o, Merge(At(old(cacheCoins), o), child))
    {
      if !child.isDirty {
        assert Put(cacheCoins, o, At(cacheCoins, o)) == cacheCoins;
        return false;
      }
      if o !in cacheCoins {
        if !(child.isFresh && child.coin.IsSpent()) {
          UsageSumSet(cacheCoins, o, Entry(child.coin, true, child.isFresh));
          cacheCoins := cacheCoins[o := Entry(child.coin, true, child.isFresh)];
          cachedCoinsUsage := cachedCoinsUsage + child.coin.DynamicMemoryUsage();
        } else {
          assert cacheCoins - {o} == cacheCoins;
        }
      } else {
        var us := cacheCoins[o];
        if child.isFresh && !us.coin.IsSpent() {
          return true;
        }
        if us.isFresh && child.coin.IsSpent() {
          UsageSumAny(cacheCoins, o);
          cachedCoinsUsage := cachedCoinsUsage - us.coin.DynamicMemoryUsage();
          cacheCoins := cacheCoins - {o};
        } else {
          UsageSumSet(cacheCoins, o, Entry(child.coin, true, us.isFresh));
          cachedCoinsUsage := cachedCoinsUsage - us.coin.DynamicMemoryUsage();
          cacheCoins := cacheCoins[o := Entry(child.coin, true, us.isFresh)];
          cachedCoinsUsage := cachedCoinsUsage + child.coin.DynamicMemoryUsage();
        }
      }
      threw := false;
    }

    method BatchWriteDatabase(mapCoins: Entries)
      requires Linked() && base == null
      modifies this`db
      ensures Abs() == Coins.BatchWrite(old(Abs()), mapCoins)
    {
      ghost var m := db;
      var rest := mapCoins.Keys;
      assert WriteAll(m, Done(mapCoins, rest)) == m;
      while rest != {}
        invariant rest <= mapCoins.Keys
        invariant db == WriteAll(m, Done(mapCoins, rest))
        decreases |rest|
      {
        var o :| o in rest;
        var child := mapCoins[o];
        DoneStep(mapCoins, rest, o);
        WriteAllStep(m, Done(mapCoins, rest), o, child);
        if child.isDirty {
          if child.coin.IsSpent() {
            db := db - {o};
          } else {
            db := db[o := child.coin];
          }
        }
        rest := rest - {o};
      }
      assert Done(mapCoins, {}) == mapCoins;
    }

    /** The virtual call: a cache or the database takes the batch. */
    method BatchWrite(mapCoins: Entries) returns (threw: bool)
      requires Linked() && Inv(Abs())
      modifies this
      ensures threw <==> BatchThrows(old(Abs()), mapCoins)
      ensures !threw ==> Abs() == Coins.BatchWrite(old(Abs()), mapCoins)
    {
      if base == null {
        BatchWriteDatabase(mapCoins);
        threw := false;
      } else {
        threw := BatchWriteCache(mapCoins);
      }
    }

    /** Flushing never reaches the FRESH error, keeps this view's UTXO set, makes the
        parent's equal to it and leaves all deeper views alone. */
    method Flush() returns (threw: bool)
      requires Linked() && base != null && Inv(Abs())
      modifies chain
      ensures !threw
      ensures Abs() == Coins.Flush(old(Abs()))
      ensures Inv(Abs())
      ensures Views(Abs()) == old([View(Abs()), View(Abs())] + Views(Abs())[2..])
      ensures View(base.Abs()) == old(View(Abs()))
      ensures cacheCoins == map[] && cachedCoinsUsage == 0
    {
      FlushOk(Abs());
      threw := base.BatchWrite(cacheCoins);
      cacheCoins := map[];
      cachedCoinsUsage := 0;
    }
  }

  /** The stack `s` shows the first `n` outputs inserted and is otherwise as `vs` says. */
  ghost predicate Inserted(s: Stack, vs: seq<CoinMap>, txid: int, vout: seq<TxOut>, n: nat, nHeight: nat,
      fCoinBase: bool)
    requires |vs| > 0 && n <= |vout|
  {
    Inv(s) && Views(s) == vs[0 := InsertOutputs(vs[0], txid, vout, n, nHeight, fCoinBase)]
  }

  lemma InsertedNext(s: Stack, r: Stack, vs: seq<CoinMap>, txid: int, vout: seq<TxOut>, n: nat, nHeight: nat,
      fCoinBase: bool)
    requires |vs| > 0 && n < |vout| && Inserted(s, vs, txid, vout, n, nHeight, fCoinBase)
    requires GoodAdd(s, OutPoint(txid, n), Coin(vout[n], fCoinBase, nHeight), Added(r))
    ensures Inserted(r, vs, txid, vout, n + 1, nHeight, fCoinBase)
  {
  }

  lemma {:induction false} InsertedLater(s: Stack, vs: seq<CoinMap>, txid: int, vout: seq<TxOut>, n: nat,
      nHeight: nat, fCoinBase: bool)
    requires |vs| > 0 && n < |vout| && Inserted(s, vs, txid, vout, n, nHeight, fCoinBase)
    ensures OutPoint(txid, n) in View(s) ==> OutPoint(txid, n) in vs[0]
  {
    InsertOutputsFrame(vs[0], txid, vout, n, nHeight, fCoinBase, OutPoint(txid, n));
  }

  /** Bulk insertion of a transaction's outputs. Unless `check` looks first or the
      transaction is a coinbase, none of its outputs may be unspent already. */
  method AddCoins(cache: CoinsView, txid: int, vout: seq<TxOut>, fCoinBase: bool, nHeight: nat, check: bool)
    requires cache.Linked() && cache.base != null && Inv(cache.Abs())
    requires forall i | 0 <= i < |vout| :: vout[i].nValue != -1
    requires check || fCoinBase || forall i | 0 <= i < |vout| :: OutPoint(txid, i) !in View(cache.Abs())
    modifies cache.chain
    ensures Inserted(cache.Abs(), old(Views(cache.Abs())), txid, vout, |vout|, nHeight, fCoinBase)
    ensures OutputsShown(View(cache.Abs()), old(View(cache.Abs())), txid, vout, nHeight, fCoinBase)
  {
    ghost var vs := Views(cache.Abs());
    for i := 0 to |vout|
      invariant Inserted(cache.Abs(), vs, txid, vout, i, nHeight, fCoinBase)
    {
      var overwrite := fCoinBase;
      if check {
        overwrite := cache.HaveCoin(OutPoint(txid, i));
      }
      ghost var s := cache.Abs();
      InsertedLater(s, vs, txid, vout, i, nHeight, fCoinBase);
      var threw := cache.AddCoin(OutPoint(txid, i), Coin(vout[i], fCoinBase, nHeight), overwrite);
      InsertedNext(s, cache.Abs(), vs, txid, vout, i, nHeight, fCoinBase);
    }
    InsertOutputsShown(vs[0], txid, vout, nHeight, fCoinBase);
  }
}
