/** The UTXO view stack: write-back caches, any number deep, over a database.

    A stack is a value here; class CoinsView below is the same thing as linked,
    mutable objects and is proved against these functions. The main result,
    RunRefines, says that a stack of caches behaves as a stack of plain maps under
    nested transactions: the DIRTY and FRESH flags are never observable. */
module Coins {

  type Byte = x: int | 0 <= x < 256

  const OP_RETURN: Byte := 0x6a
  const MAX_SCRIPT_SIZE := 10000

  datatype OutPoint = OutPoint(hash: int, n: nat)

  datatype TxOut = TxOut(nValue: int, scriptPubKey: seq<Byte>)

  datatype Coin = Coin(out: TxOut, fCoinBase: bool, nHeight: nat)
  {
    predicate IsSpent() { out.nValue == -1 }

    predicate IsUnspendable() {
      (|out.scriptPubKey| > 0 && out.scriptPubKey[0] == OP_RETURN) || |out.scriptPubKey| > MAX_SCRIPT_SIZE
    }

    /** Heap bytes owned by the script: up to 28 bytes are stored inline. */
    function DynamicMemoryUsage(): nat {
      if |out.scriptPubKey| <= 28 then 0 else (|out.scriptPubKey| + 31) / 16 * 16
    }
  }

  const NoCoin := Coin(TxOut(-1, []), false, 0)

  /** The outputs a UTXO set may show. */
  predicate CanBeSpent(out: TxOut) {
    |out.scriptPubKey| <= 10000 && (|out.scriptPubKey| > 0 ==> out.scriptPubKey[0] != 0x6a)
  }

  /** One cache entry: `isDirty` if it may differ from the parent view, `isFresh` if
      the parent view has no unspent coin there. */
  datatype Entry = Entry(coin: Coin, isDirty: bool, isFresh: bool)

  type Entries = map<OutPoint, Entry>
  type CoinMap = map<OutPoint, Coin>

  datatype Stack =
    | Database(coins: CoinMap)
    | Cache(entries: Entries, usage: int, base: Stack)

  // ------------------------------------------------------------------- meaning

  /** What a cache shows on top of a parent that shows `m`. */
  ghost function Overlay(e: Entries, m: CoinMap): CoinMap {
    map o | o in m.Keys + e.Keys && (o in e ==> !e[o].coin.IsSpent()) :: if o in e then e[o].coin else m[o]
  }

  /** The UTXO set visible at the top of the stack. */
  ghost function View(s: Stack): CoinMap {
    match s
    case Database(m) => m
    case Cache(e, _, b) => Overlay(e, View(b))
  }

  /** The visible UTXO sets of all levels, top first. */
  ghost function Views(s: Stack): (r: seq<CoinMap>)
    ensures |r| > 0 && r[0] == View(s)
  {
    match s
    case Database(m) => [m]
    case Cache(_, _, b) => [View(s)] + Views(b)
  }

  /** The promise the flags make about the parent; and what the parent does not know is
      forgotten when it is spent. */
  ghost predicate FlagsOk(en: Entry, o: OutPoint, m: CoinMap) {
    && (!en.isDirty ==> if en.coin.IsSpent() then o !in m else o in m && m[o] == en.coin)
    && (en.isFresh ==> o !in m && !en.coin.IsSpent())
  }

  ghost function UsageSum(e: Entries): nat {
    if e == map[] then 0
    else
      var o :| o in e;
      e[o].coin.DynamicMemoryUsage() + UsageSum(e - {o})
  }

  ghost predicate Inv(s: Stack) {
    match s
    case Database(m) => forall o | o in m :: !m[o].IsSpent()
    case Cache(e, u, b) => Inv(b) && Local(e, u, View(b))
  }

  /** One cache is consistent with what its parent shows. */
  ghost predicate Local(e: Entries, u: int, m: CoinMap) {
    u == UsageSum(e) && forall o | o in e :: FlagsOk(e[o], o, m)
  }

  // ------------------------------------------------------------------ operations

  /** base->GetCoin fills every cache it passes through. */
  function Fetch(s: Stack, o: OutPoint): (r: Stack)
    ensures r.Cache? == s.Cache?
  {
    match s
    case Database(_) => s
    case Cache(e, u, b) =>
      if o in e then s
      else
        var b' := Fetch(b, o);
        var c := Shown(b', o);
        if c.IsSpent() then Cache(e, u, b')
        else Cache(e[o := Entry(c, false, false)], u + c.DynamicMemoryUsage(), b')
  }

  /** The coin found at this level without asking the parent, NoCoin if none. */
  function Shown(s: Stack, o: OutPoint): Coin {
    match s
    case Database(m) => if o in m then m[o] else NoCoin
    case Cache(e, _, _) => if o in e then e[o].coin else NoCoin
  }

  datatype AddResult = Added(s: Stack) | Threw(s: Stack)

  function AddCoin(s: Stack, o: OutPoint, coin: Coin, possibleOverwrite: bool): AddResult
    requires s.Cache? && !coin.IsSpent()
  {
    if coin.IsUnspendable() then Added(s)
    else
      var was := if o in s.entries then s.entries[o] else Entry(NoCoin, false, false);
      var usage := if o in s.entries then s.usage - was.coin.DynamicMemoryUsage() else s.usage;
      if !possibleOverwrite && !was.coin.IsSpent() then Threw(s.(usage := usage))
      else
        var markFresh := !possibleOverwrite && !was.isDirty;
        Added(Cache(s.entries[o := Entry(coin, true, was.isFresh || markFresh)], usage + coin.DynamicMemoryUsage(),
            s.base))
  }

  function SpendCoin(s: Stack, o: OutPoint): (r: Stack)
    requires s.Cache?
    ensures r.Cache?
  {
    EraseFetched(Fetch(s, o), o)
  }

  function EraseFetched(f: Stack, o: OutPoint): (r: Stack)
    requires f.Cache?
    ensures r.Cache? && r.base == f.base
  {
    if o !in f.entries then f
    else
      var u := f.usage - f.entries[o].coin.DynamicMemoryUsage();
      if f.entries[o].isFresh then Cache(f.entries - {o}, u, f.base)
      else Cache(f.entries[o := Entry(NoCoin, true, false)], u, f.base)
  }

  function Uncache(s: Stack, o: OutPoint): (r: Stack)
    requires s.Cache?
    ensures r.Cache?
  {
    if o in s.entries && !s.entries[o].isDirty && !s.entries[o].isFresh
    then Cache(s.entries - {o}, s.usage - s.entries[o].coin.DynamicMemoryUsage(), s.base)
    else s
  }

  datatype Slot = Absent | Present(entry: Entry)

  function At(e: Entries, o: OutPoint): Slot { if o in e then Present(e[o]) else Absent }

  /** The "FRESH flag misapplied" error of BatchWrite. */
  predicate Misapplied(parent: Slot, child: Entry) {
    child.isDirty && child.isFresh && parent.Present? && !parent.entry.coin.IsSpent()
  }

  /** What one entry of the child does to the parent's entry. */
  function Merge(parent: Slot, child: Entry): Slot {
    if !child.isDirty then parent
    else if parent.Absent? then
      if child.isFresh && child.coin.IsSpent() then Absent else Present(Entry(child.coin, true, child.isFresh))
    else if parent.entry.isFresh && child.coin.IsSpent() then Absent
    else Present(Entry(child.coin, true, parent.entry.isFresh))
  }

  /** The parent's entries once all of the child's have been written to it. */
  ghost function MergeAll(p: Entries, e: Entries): Entries {
    map o | o in p.Keys + e.Keys && MergeAt(p, e, o).Present? :: MergeAt(p, e, o).entry
  }

  function MergeAt(p: Entries, e: Entries, o: OutPoint): Slot {
    if o in e then Merge(At(p, o), e[o]) else At(p, o)
  }

  /** What the database makes of a batch. */
  ghost function WriteAll(m: CoinMap, e: Entries): CoinMap {
    map o | o in m.Keys + e.Keys && (if o in e && e[o].isDirty then !e[o].coin.IsSpent() else o in m)
      :: if o in e && e[o].isDirty then e[o].coin else m[o]
  }

  ghost predicate BatchThrows(s: Stack, e: Entries) {
    s.Cache? && exists o | o in e :: Misapplied(At(s.entries, o), e[o])
  }

  ghost function BatchWrite(s: Stack, e: Entries): Stack {
    match s
    case Database(m) => Database(WriteAll(m, e))
    case Cache(p, _, b) => Cache(MergeAll(p, e), UsageSum(MergeAll(p, e)), b)
  }

  ghost function Flush(s: Stack): (r: Stack)
    requires s.Cache?
    ensures r.Cache?
  {
    Cache(map[], 0, BatchWrite(s.base, s.entries))
  }

  // ---------------------------------------------------------- memory accounting

  lemma {:induction false} UsageSumAny(e: Entries, o: OutPoint)
    requires o in e
    ensures UsageSum(e) == e[o].coin.DynamicMemoryUsage() + UsageSum(e - {o})
    decreases |e|
  {
    var k :| k in e && UsageSum(e) == e[k].coin.DynamicMemoryUsage() + UsageSum(e - {k});
    if k != o {
      UsageSumAny(e - {k}, o);
      UsageSumAny(e - {o}, k);
      assert e - {k} - {o} == e - {o} - {k};
    }
  }

  lemma UsageSumSet(e: Entries, o: OutPoint, en: Entry)
    ensures UsageSum(e[o := en]) ==
            en.coin.DynamicMemoryUsage() + UsageSum(e) - if o in e then e[o].coin.DynamicMemoryUsage() else 0
  {
    UsageSumAny(e[o := en], o);
    assert e[o := en] - {o} == e - {o};
    if o in e {
      UsageSumAny(e, o);
    } else {
      assert e - {o} == e;
    }
  }

  lemma LocalSet(e: Entries, u: int, m: CoinMap, o: OutPoint, en: Entry)
    requires Local(e, u, m) && FlagsOk(en, o, m)
    ensures Local(e[o := en], u - UsageAt(e, o) + en.coin.DynamicMemoryUsage(), m)
  {
    UsageSumSet(e, o, en);
  }

  lemma LocalRemove(e: Entries, u: int, m: CoinMap, o: OutPoint)
    requires Local(e, u, m) && o in e
    ensures Local(e - {o}, u - UsageAt(e, o), m)
  {
    UsageSumAny(e, o);
  }

  function UsageAt(e: Entries, o: OutPoint): nat { if o in e then e[o].coin.DynamicMemoryUsage() else 0 }

  // -------------------------------------------------------------- single steps

  lemma {:induction false} UnspentView(s: Stack)
    requires Inv(s)
    ensures forall o | o in View(s) :: !View(s)[o].IsSpent()
  {
    if s.Cache? {
      UnspentView(s.base);
    }
  }

  /** Changing the parent below a cache is harmless as long as the parent shows
      the same UTXO set. */
  lemma {:induction false} SameParent(s: Stack, b: Stack)
    requires s.Cache? && Inv(s) && Inv(b) && View(b) == View(s.base)
    ensures Inv(s.(base := b)) && View(s.(base := b)) == View(s)
    ensures Views(s.(base := b)) == [View(s)] + Views(b)
  {
  }

  /** Reading fills caches but changes no level's UTXO set; afterwards the top
      level holds the answer itself. */
  lemma {:induction false} FetchOk(s: Stack, o: OutPoint)
    requires Inv(s)
    ensures Inv(Fetch(s, o)) && Views(Fetch(s, o)) == Views(s)
    ensures !Shown(Fetch(s, o), o).IsSpent() <==> o in View(s)
    ensures o in View(s) ==> Shown(Fetch(s, o), o) == View(s)[o]
  {
    UnspentView(s);
    if s.Cache? && o !in s.entries {
      FetchOk(s.base, o);
      ViewMiss(s, o);
      FetchMiss(s, o, Fetch(s.base, o), Shown(Fetch(s.base, o), o), Fetch(s, o));
    }
  }

  /** A cache that does not hold the coin, its parent having fetched it into b. */
  lemma {:induction false} FetchMiss(s: Stack, o: OutPoint, b: Stack, c: Coin, r: Stack)
    requires s.Cache? && Inv(s) && o !in s.entries && Inv(b) && Views(b) == Views(s.base)
    requires (!c.IsSpent() <==> o in View(b)) && (o in View(b) ==> c == View(b)[o])
    requires r == if c.IsSpent() then s.(base := b)
                  else Cache(s.entries[o := Entry(c, false, false)], s.usage + c.DynamicMemoryUsage(), b)
    ensures Inv(r) && Views(r) == Views(s)
  {
    SameParent(s, b);
    if !c.IsSpent() {
      FillOk(s.(base := b), o);
    }
  }

  lemma {:induction false} ViewMiss(s: Stack, o: OutPoint)
    requires s.Cache? && o !in s.entries
    ensures (o in View(s) <==> o in View(s.base)) && (o in View(s) ==> View(s)[o] == View(s.base)[o])
  {
  }

  /** Caching the parent's coin as it is changes nothing visible. */
  lemma FillOk(s: Stack, o: OutPoint)
    requires s.Cache? && Inv(s) && o !in s.entries && o in View(s.base)
    ensures var c := View(s.base)[o];
            var r := Cache(s.entries[o := Entry(c, false, false)], s.usage + c.DynamicMemoryUsage(), s.base);
            !c.IsSpent() ==> Inv(r) && Views(r) == Views(s)
  {
    var c := View(s.base)[o];
    if !c.IsSpent() {
      LocalSet(s.entries, s.usage, View(s.base), o, Entry(c, false, false));
      OverlayFill(s.entries, View(s.base), o);
    }
  }

  lemma OverlayFill(e: Entries, m: CoinMap, o: OutPoint)
    requires o !in e && o in m && !m[o].IsSpent()
    ensures Overlay(e[o := Entry(m[o], false, false)], m) == Overlay(e, m)
  {
  }

  lemma {:induction false} AddCoinOk(s: Stack, o: OutPoint, coin: Coin, possibleOverwrite: bool)
    requires s.Cache? && Inv(s) && !coin.IsSpent()
    requires possibleOverwrite || o !in View(s)
    ensures AddCoin(s, o, coin, possibleOverwrite).Added?
    ensures var r := AddCoin(s, o, coin, possibleOverwrite).s;
            && r.Cache? && Inv(r) && r.base == s.base
            && Views(r) == if CanBeSpent(coin.out) then Views(s)[0 := View(s)[o := coin]] else Views(s)
  {
    if !coin.IsUnspendable() {
      var r := AddCoin(s, o, coin, possibleOverwrite).s;
      SetEntryOk(s, o, r.entries[o]);
    }
  }

  lemma SetEntryOk(s: Stack, o: OutPoint, en: Entry)
    requires s.Cache? && Inv(s) && !en.coin.IsSpent() && FlagsOk(en, o, View(s.base))
    ensures var u := s.usage - UsageAt(s.entries, o) + en.coin.DynamicMemoryUsage();
            var r := Cache(s.entries[o := en], u, s.base);
            Inv(r) && Views(r) == Views(s)[0 := View(s)[o := en.coin]]
  {
    LocalSet(s.entries, s.usage, View(s.base), o, en);
    OverlayInsert(s.entries, View(s.base), o, en);
  }

  lemma OverlayInsert(e: Entries, m: CoinMap, o: OutPoint, en: Entry)
    requires !en.coin.IsSpent()
    ensures Overlay(e[o := en], m) == Overlay(e, m)[o := en.coin]
  {
  }

  /** Exactly when AddCoin leaves the flags telling the truth: the one failing
      family is a spendable coin added without `possible_overwrite` over an
      unspent coin that only the parent knows about. */
  lemma {:induction false} AddCoinKeepsFlagsIff(s: Stack, o: OutPoint, coin: Coin, possibleOverwrite: bool)
    requires s.Cache? && Inv(s) && !coin.IsSpent()
    ensures var r := AddCoin(s, o, coin, possibleOverwrite);
            (forall k | k in r.s.entries :: FlagsOk(r.s.entries[k], k, View(r.s.base)))
            <==>
            (coin.IsUnspendable() || possibleOverwrite || o in s.entries || o !in View(s.base))
  {
    var r := AddCoin(s, o, coin, possibleOverwrite).s;
    if !(coin.IsUnspendable() || possibleOverwrite || o in s.entries || o !in View(s.base)) {
      assert o in r.entries && r.entries[o].isFresh;
    }
  }

  /** The failing family has members: a coin in the database, and an empty cache. */
  lemma FlagsCounterexample()
    ensures var o, coin := OutPoint(0, 0), Coin(TxOut(5, []), false, 1);
            var s := Cache(map[], 0, Database(map[o := coin]));
            var r := AddCoin(s, o, coin, false).s;
            Inv(s) && !coin.IsSpent() && o in r.entries && !FlagsOk(r.entries[o], o, View(r.base))
  {
    var o, coin := OutPoint(0, 0), Coin(TxOut(5, []), false, 1);
    assert View(Database(map[o := coin])) == map[o := coin];
  }

  /** The memory account survives AddCoin exactly when AddCoin is not asked to add a
      spendable coin, without `possible_overwrite`, over an unspent cached coin that owns
      heap memory. */
  lemma {:induction false} AddCoinAccountIff(s: Stack, o: OutPoint, coin: Coin, possibleOverwrite: bool)
    requires s.Cache? && Inv(s) && !coin.IsSpent()
    ensures var r := AddCoin(s, o, coin, possibleOverwrite);
            r.s.usage == UsageSum(r.s.entries)
            <==>
            (coin.IsUnspendable() || possibleOverwrite || o !in s.entries || s.entries[o].coin.IsSpent()
             || s.entries[o].coin.DynamicMemoryUsage() == 0)
  {
    var r := AddCoin(s, o, coin, possibleOverwrite);
    if r.Added? && !coin.IsUnspendable() {
      UsageSumSet(s.entries, o, r.s.entries[o]);
    }
  }

  /** A script of 29 bytes, the shortest that is not stored inline. */
  const LONG_SCRIPT: seq<Byte> := seq(29, _ => 0)

  lemma AccountCounterexample()
    ensures var o, coin := OutPoint(0, 0), Coin(TxOut(5, LONG_SCRIPT), false, 1);
            var s := Cache(map[o := Entry(coin, true, false)], 48, Database(map[]));
            var r := AddCoin(s, o, coin, false);
            Inv(s) && r.Threw? && r.s.usage != UsageSum(r.s.entries)
  {
    var o, coin := OutPoint(0, 0), Coin(TxOut(5, LONG_SCRIPT), false, 1);
    var e := map[o := Entry(coin, true, false)];
    UsageSumAny(e, o);
    assert e - {o} == map[];
  }

  lemma OverlayErase(e: Entries, m: CoinMap, o: OutPoint)
    ensures o !in m ==> Overlay(e - {o}, m) == Overlay(e, m) - {o}
    ensures Overlay(e[o := Entry(NoCoin, true, false)], m) == Overlay(e, m) - {o}
  {
  }

  lemma {:induction false} EraseOk(f: Stack, o: OutPoint)
    requires f.Cache? && Inv(f) && (o in View(f) ==> o in f.entries)
    ensures Inv(EraseFetched(f, o)) && View(EraseFetched(f, o)) == View(f) - {o}
  {
    if o in f.entries {
      OverlayErase(f.entries, View(f.base), o);
      if f.entries[o].isFresh {
        LocalRemove(f.entries, f.usage, View(f.base), o);
      } else {
        LocalSet(f.entries, f.usage, View(f.base), o, Entry(NoCoin, true, false));
      }
    }
  }

  /** What SpendCoin finds: a visible coin, or an entry spent earlier in this cache. */
  lemma {:induction false} SpendFinds(s: Stack, o: OutPoint)
    requires s.Cache? && Inv(s)
    ensures o in Fetch(s, o).entries <==> o in View(s) || o in s.entries
    ensures o in View(s) ==> Fetch(s, o).entries[o].coin == View(s)[o]
  {
    FetchOk(s, o);
  }

  lemma {:induction false} SpendCoinOk(s: Stack, o: OutPoint)
    requires s.Cache? && Inv(s)
    ensures Inv(SpendCoin(s, o))
    ensures Views(SpendCoin(s, o)) == Views(s)[0 := View(s) - {o}]
  {
    FetchOk(s, o);
    var f := Fetch(s, o);
    EraseOk(f, o);
    assert Views(f) == [View(f)] + Views(f.base);
  }

  /** A coin added to a cache and spent there leaves no trace. */
  lemma {:induction false} AddThenSpend(s: Stack, o: OutPoint, coin: Coin)
    requires s.Cache? && Inv(s) && !coin.IsSpent() && CanBeSpent(coin.out) && o !in s.entries && o !in View(s.base)
    ensures var r := AddCoin(s, o, coin, false);
            r.Added? && r.s.Cache? && o in r.s.entries && SpendCoin(r.s, o) == s
  {
    var r := AddCoin(s, o, coin, false).s;
    assert r.entries - {o} == s.entries;
  }

  lemma {:induction false} UncacheOk(s: Stack, o: OutPoint)
    requires s.Cache? && Inv(s)
    ensures Inv(Uncache(s, o)) && Views(Uncache(s, o)) == Views(s)
    ensures o in Uncache(s, o).entries ==> Uncache(s, o).entries[o].isDirty
  {
    var r := Uncache(s, o);
    if r != s {
      LocalRemove(s.entries, s.usage, View(s.base), o);
      OverlayDrop(s.entries, View(s.base), o);
    }
  }

  lemma OverlayDrop(e: Entries, m: CoinMap, o: OutPoint)
    requires o in e && !e[o].isDirty && FlagsOk(e[o], o, m)
    ensures Overlay(e - {o}, m) == Overlay(e, m)
  {
  }

  // ------------------------------------------------------------------- flushing

  /** The merged entry tells the truth to the grandparent, shows what the child
      showed, and was not misapplied. */
  lemma MergeOk(p: Entries, g: CoinMap, e: Entries, o: OutPoint)
    requires forall k | k in p :: FlagsOk(p[k], k, g)
    requires forall k | k in g :: !g[k].IsSpent()
    requires forall k | k in e :: FlagsOk(e[k], k, Overlay(p, g))
    ensures o in e ==> !Misapplied(At(p, o), e[o])
    ensures o in MergeAll(p, e) ==> FlagsOk(MergeAll(p, e)[o], o, g)
    ensures o in Overlay(MergeAll(p, e), g) <==> o in Overlay(e, Overlay(p, g))
    ensures o in Overlay(e, Overlay(p, g)) ==> Overlay(MergeAll(p, e), g)[o] == Overlay(e, Overlay(p, g))[o]
  {
  }

  lemma {:induction false} BatchWriteOk(s: Stack, e: Entries)
    requires Inv(s)
    requires forall k | k in e :: FlagsOk(e[k], k, View(s))
    ensures !BatchThrows(s, e)
    ensures Inv(BatchWrite(s, e)) && View(BatchWrite(s, e)) == Overlay(e, View(s))
    ensures Views(BatchWrite(s, e))[1..] == Views(s)[1..]
  {
    match s {
      case Database(m) =>
        assert WriteAll(m, e) == Overlay(e, m);
      case Cache(p, _, b) =>
        UnspentView(b);
        forall o ensures o in e ==> !Misapplied(At(p, o), e[o]) {
          MergeOk(p, View(b), e, o);
        }
        forall o | o in MergeAll(p, e) ensures FlagsOk(MergeAll(p, e)[o], o, View(b)) {
          MergeOk(p, View(b), e, o);
        }
        MergeViews(p, View(b), e);
    }
  }

  lemma MergeViews(p: Entries, g: CoinMap, e: Entries)
    requires forall k | k in p :: FlagsOk(p[k], k, g)
    requires forall k | k in g :: !g[k].IsSpent()
    requires forall k | k in e :: FlagsOk(e[k], k, Overlay(p, g))
    ensures Overlay(MergeAll(p, e), g) == Overlay(e, Overlay(p, g))
  {
    forall o
      ensures o in Overlay(MergeAll(p, e), g) <==> o in Overlay(e, Overlay(p, g))
      ensures o in Overlay(e, Overlay(p, g)) ==> Overlay(MergeAll(p, e), g)[o] == Overlay(e, Overlay(p, g))[o]
    {
      MergeOk(p, g, e, o);
    }
  }

  /** A new cache shows what its parent shows. */
  lemma {:induction false} EmptyCache(b: Stack)
    requires Inv(b)
    ensures Inv(Cache(map[], 0, b)) && Views(Cache(map[], 0, b)) == [View(b)] + Views(b)
  {
    assert Overlay(map[], View(b)) == View(b);
  }

  /** Flushing the top of a stack of any depth never throws, keeps its visible
      UTXO set, makes the parent's equal to it, leaves all deeper levels alone and
      re-establishes every flag. */
  lemma {:induction false} FlushOk(s: Stack)
    requires s.Cache? && Inv(s)
    ensures !BatchThrows(s.base, s.entries)
    ensures Inv(Flush(s))
    ensures Views(Flush(s)) == [View(s), View(s)] + Views(s)[2..]
  {
    BatchWriteOk(s.base, s.entries);
    var b := BatchWrite(s.base, s.entries);
    EmptyCache(b);
    ReplaceSecond(View(s), Views(s.base), Views(b));
  }

  lemma ReplaceSecond(m: CoinMap, before: seq<CoinMap>, after: seq<CoinMap>)
    requires |before| > 0 && |after| > 0 && after[0] == m && after[1..] == before[1..]
    ensures [m] + after == [m, m] + ([m] + before)[2..]
  {
    assert after == [m] + after[1..];
  }

  // --------------------------------------------------- operations at any level

  ghost function Depth(s: Stack): nat { if s.Cache? then 1 + Depth(s.base) else 0 }

  ghost function FetchAt(s: Stack, k: nat, o: OutPoint): Stack
    requires k <= Depth(s)
  {
    if k == 0 then Fetch(s, o) else s.(base := FetchAt(s.base, k - 1, o))
  }

  ghost function UncacheAt(s: Stack, k: nat, o: OutPoint): Stack
    requires k < Depth(s)
  {
    if k == 0 then Uncache(s, o) else s.(base := UncacheAt(s.base, k - 1, o))
  }

  ghost function FlushAt(s: Stack, k: nat): Stack
    requires k < Depth(s)
  {
    if k == 0 then Flush(s) else s.(base := FlushAt(s.base, k - 1))
  }

  lemma {:induction false} ViewsDepth(s: Stack)
    ensures |Views(s)| == Depth(s) + 1
  {
    if s.Cache? {
      ViewsDepth(s.base);
    }
  }

  lemma {:induction false} FetchAtOk(s: Stack, k: nat, o: OutPoint)
    requires Inv(s) && k <= Depth(s)
    ensures Inv(FetchAt(s, k, o)) && Views(FetchAt(s, k, o)) == Views(s)
  {
    if k == 0 {
      FetchOk(s, o);
    } else {
      FetchAtOk(s.base, k - 1, o);
      SameParent(s, FetchAt(s.base, k - 1, o));
    }
  }

  lemma {:induction false} UncacheAtOk(s: Stack, k: nat, o: OutPoint)
    requires Inv(s) && k < Depth(s)
    ensures Inv(UncacheAt(s, k, o)) && Views(UncacheAt(s, k, o)) == Views(s)
  {
    if k == 0 {
      UncacheOk(s, o);
    } else {
      UncacheAtOk(s.base, k - 1, o);
      SameParent(s, UncacheAt(s.base, k - 1, o));
    }
  }

  /** Flushing level k changes the visible UTXO set of level k+1 only. */
  lemma {:induction false} FlushAtOk(s: Stack, k: nat)
    requires Inv(s) && k < Depth(s)
    ensures Inv(FlushAt(s, k))
    ensures k + 1 < |Views(s)| && Views(FlushAt(s, k)) == Views(s)[k + 1 := Views(s)[k]]
  {
    ViewsDepth(s);
    var vs := Views(s);
    assert vs == [View(s)] + Views(s.base);
    if k == 0 {
      FlushOk(s);
      assert [View(s), View(s)] + vs[2..] == vs[1 := vs[0]];
    } else {
      FlushAtOk(s.base, k - 1);
      SameParent(s, FlushAt(s.base, k - 1));
      assert Views(s.base)[k := Views(s.base)[k - 1]] == vs[k + 1 := vs[k]][1..];
    }
  }

  // --------------------------------------------------------------- whole runs

  datatype Op =
    | Add(o: OutPoint, coin: Coin, possibleOverwrite: bool)   // AddCoin on the top cache
    | Spend(o: OutPoint)                                      // SpendCoin on the top cache
    | Read(level: nat, o: OutPoint)                           // GetCoin, HaveCoin, AccessCoin at a level
    | Drop(level: nat, o: OutPoint)                           // Uncache at a level
    | Commit(level: nat)                                      // Flush of a level into its parent
    | Push                                                    // a new cache on top
    | Discard                                                 // the top cache is destroyed unflushed

  /** What callers owe: a coin that may replace an unspent one is announced, and
      only caches are written, flushed or uncached. */
  ghost predicate Allowed(vs: seq<CoinMap>, op: Op)
    requires |vs| > 0
  {
    match op
    case Add(o, coin, ow) => |vs| > 1 && coin.out.nValue != -1 && (ow || o !in vs[0])
    case Spend(_) => |vs| > 1
    case Read(k, _) => k < |vs|
    case Drop(k, _) => k + 1 < |vs|
    case Commit(k) => k + 1 < |vs|
    case Push => true
    case Discard => |vs| > 1
  }

  /** Nested transactions on plain maps: the specification of the cache stack. */
  ghost function SpecStep(vs: seq<CoinMap>, op: Op): (r: seq<CoinMap>)
    requires |vs| > 0 && Allowed(vs, op)
    ensures |r| > 0
  {
    match op
    case Add(o, coin, _) => if CanBeSpent(coin.out) then vs[0 := vs[0][o := coin]] else vs
    case Spend(o) => vs[0 := vs[0] - {o}]
    case Read(_, _) => vs
    case Drop(_, _) => vs
    case Commit(k) => vs[k + 1 := vs[k]]
    case Push => [vs[0]] + vs
    case Discard => vs[1..]
  }

  ghost function ImplStep(s: Stack, op: Op): Stack
    requires Allowed(Views(s), op)
    requires |Views(s)| == Depth(s) + 1
  {
    match op
    case Add(o, coin, ow) => AddCoin(s, o, coin, ow).s
    case Spend(o) => SpendCoin(s, o)
    case Read(k, o) => FetchAt(s, k, o)
    case Drop(k, o) => UncacheAt(s, k, o)
    case Commit(k) => FlushAt(s, k)
    case Push => Cache(map[], 0, s)
    case Discard => s.base
  }

  lemma {:induction false} StepRefines(s: Stack, op: Op)
    requires Inv(s) && Allowed(Views(s), op)
    ensures |Views(s)| == Depth(s) + 1
    ensures Inv(ImplStep(s, op)) && Views(ImplStep(s, op)) == SpecStep(Views(s), op)
  {
    ViewsDepth(s);
    match op {
      case Add(o, coin, ow) =>
        AddCoinOk(s, o, coin, ow);
      case Spend(o) =>
        SpendCoinOk(s, o);
      case Read(k, o) => FetchAtOk(s, k, o);
      case Drop(k, o) => UncacheAtOk(s, k, o);
      case Commit(k) => FlushAtOk(s, k);
      case Push => EmptyCache(s);
      case Discard =>
    }
  }

  ghost predicate AllAllowed(vs: seq<CoinMap>, ops: seq<Op>)
    requires |vs| > 0
    decreases |ops|
  {
    ops == [] || (Allowed(vs, ops[0]) && AllAllowed(SpecStep(vs, ops[0]), ops[1..]))
  }

  ghost function SpecRun(vs: seq<CoinMap>, ops: seq<Op>): (r: seq<CoinMap>)
    requires |vs| > 0 && AllAllowed(vs, ops)
    decreases |ops|
  {
    if ops == [] then vs else SpecRun(SpecStep(vs, ops[0]), ops[1..])
  }

  /** A run of the caches: each state follows from the one before it. */
  ghost predicate ImplRun(ss: seq<Stack>, ops: seq<Op>) {
    && |ss| == |ops| + 1
    && forall i | 0 <= i < |ops| ::
         Allowed(Views(ss[i]), ops[i]) && |Views(ss[i])| == Depth(ss[i]) + 1 && ss[i + 1] == ImplStep(ss[i], ops[i])
  }

  /** Every run of any length, on stacks growing and shrinking to any depth, shows
      at every level exactly the plain map that nested transactions prescribe. */
  lemma {:induction false} RunRefines(ss: seq<Stack>, ops: seq<Op>)
    requires ImplRun(ss, ops) && Inv(ss[0])
    ensures Inv(ss[|ops|])
    ensures AllAllowed(Views(ss[0]), ops) && Views(ss[|ops|]) == SpecRun(Views(ss[0]), ops)
    decreases |ops|
  {
    if ops != [] {
      StepRefines(ss[0], ops[0]);
      assert ss[1] == ImplStep(ss[0], ops[0]);
      assert ImplRun(ss[1..], ops[1..]) by {
        forall i | 0 <= i < |ops[1..]|
          ensures Allowed(Views(ss[1..][i]), ops[1..][i]) && |Views(ss[1..][i])| == Depth(ss[1..][i]) + 1
          ensures ss[1..][i + 1] == ImplStep(ss[1..][i], ops[1..][i])
        {
          assert ss[1..][i] == ss[i + 1] && ops[1..][i] == ops[i + 1] && ss[1..][i + 1] == ss[i + 2];
        }
      }
      RunRefines(ss[1..], ops[1..]);
    }
  }

  // ---------------------------------------------------------- what is never visible

  /** No level shows a script that starts with the byte 0x6a or has over 10000 bytes. */
  ghost predicate NoneUnspendable(vs: seq<CoinMap>) {
    forall i, o | 0 <= i < |vs| && o in vs[i] ::
      var script := vs[i][o].out.scriptPubKey;
      (|script| == 0 || script[0] != 0x6a) && |script| <= 10000
  }

  lemma {:induction false} SpecStaysSpendable(vs: seq<CoinMap>, ops: seq<Op>)
    requires |vs| > 0 && AllAllowed(vs, ops) && NoneUnspendable(vs)
    ensures NoneUnspendable(SpecRun(vs, ops))
    decreases |ops|
  {
    if ops != [] {
      assert NoneUnspendable(SpecStep(vs, ops[0]));
      SpecStaysSpendable(SpecStep(vs, ops[0]), ops[1..]);
    }
  }

  /** Whatever is added in a run, such an output never becomes visible at any level. */
  lemma {:induction false} NeverVisible(ss: seq<Stack>, ops: seq<Op>)
    requires ImplRun(ss, ops) && Inv(ss[0]) && NoneUnspendable(Views(ss[0]))
    ensures NoneUnspendable(Views(ss[|ops|]))
  {
    RunRefines(ss, ops);
    SpecStaysSpendable(Views(ss[0]), ops);
  }
}
