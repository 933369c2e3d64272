/** Writing the address manager to a stream, and the proof that reading the stream back
    loses nothing but the surplus cells of the new table. */
module AddrSaves {
  import opened BitXor
  import opened AddrTables
  import opened AddrStore

  const BUCKET_FLAG := 0x40000000

  // ------------------------------------------------------------ what is written

  predicate Chosen(m: Infos, id: int, tried: bool) {
    id in m && if tried then m[id].fInTried else m[id].nRefCount != 0
  }

  /** The ids below n that are written to one of the two lists, in the order of the map. */
  function Listing(m: Infos, tried: bool, n: nat): seq<int> {
    if n == 0 then [] else Listing(m, tried, n - 1) + if Chosen(m, n - 1, tried) then [n - 1] else []
  }

  /** mapUnkIds: the place of an id in the list of new entries. */
  function Place(m: Infos, id: nat): nat { |Listing(m, false, id)| }

  /** The places of the occupants of the first p cells of a bucket. */
  function Row(m: Infos, t: Table, b: int, p: nat): seq<int> {
    if p == 0 then []
    else
      Row(m, t, b, p - 1) +
      if (b, p - 1) in t && t[(b, p - 1)] >= 0 then [Place(m, t[(b, p - 1)])] else []
  }

  /** An id stands where the number of earlier ones says. */
  lemma {:induction false} ListingAt(m: Infos, tried: bool, n: nat, id: nat)
    requires id < n && Chosen(m, id, tried)
    ensures |Listing(m, tried, id)| < |Listing(m, tried, n)|
    ensures Listing(m, tried, n)[|Listing(m, tried, id)|] == id
    decreases n
  {
    if id < n - 1 {
      ListingAt(m, tried, n - 1, id);
    }
  }

  lemma {:induction false} ListingPlace(m: Infos, tried: bool, n: nat, i: nat)
    requires i < |Listing(m, tried, n)|
    ensures var x := Listing(m, tried, n)[i];
            0 <= x < n && Chosen(m, x, tried) && |Listing(m, tried, x)| == i
    decreases n
  {
    if i < |Listing(m, tried, n - 1)| {
      ListingPlace(m, tried, n - 1, i);
    }
  }

  lemma {:induction false} ListingDistinct(m: Infos, tried: bool, n: nat, i: nat, j: nat)
    requires i < |Listing(m, tried, n)| && j < |Listing(m, tried, n)|
    requires Listing(m, tried, n)[i] == Listing(m, tried, n)[j]
    ensures i == j
  {
    ListingPlace(m, tried, n, i);
    ListingPlace(m, tried, n, j);
  }

  lemma {:induction false} RowHolds(m: Infos, t: Table, b: int, p: nat, x: int)
    ensures x in Row(m, t, b, p) <==> exists q | 0 <= q < p :: (b, q) in t && t[(b, q)] >= 0 && Place(m, t[(b, q)]) == x
    decreases p
  {
    if p > 0 {
      RowHolds(m, t, b, p - 1, x);
    }
  }

  function Entries(m: Infos, ids: seq<int>): (r: seq<Info>)
    requires forall i | 0 <= i < |ids| :: ids[i] in m
    ensures |r| == |ids| && forall i | 0 <= i < |ids| :: r[i] == Saved(m[ids[i]])
  {
    seq(|ids|, i requires 0 <= i < |ids| => Saved(m[ids[i]]))
  }

  function Ids(s: Db, tried: bool): (r: seq<int>)
    ensures forall i | 0 <= i < |r| :: r[i] in s.mapInfo
  {
    var n := if s.nIdCount < 0 then 0 else s.nIdCount;
    assert forall i | 0 <= i < |Listing(s.mapInfo, tried, n)| :: Listing(s.mapInfo, tried, n)[i] in s.mapInfo by {
      forall i: nat | i < |Listing(s.mapInfo, tried, n)|
        ensures Listing(s.mapInfo, tried, n)[i] in s.mapInfo
      {
        ListingPlace(s.mapInfo, tried, n, i);
      }
    }
    Listing(s.mapInfo, tried, n)
  }

  function Rows(c: Config, s: Db): (r: seq<seq<int>>)
    ensures |r| == c.newBuckets && forall b | 0 <= b < |r| :: r[b] == Row(s.mapInfo, s.vvNew, b, c.bucketSize)
  {
    seq(c.newBuckets, b requires 0 <= b => Row(s.mapInfo, s.vvNew, b, c.bucketSize))
  }

  /** What Serialize writes. */
  function Written(c: Config, s: Db, key: int, asmap: int): Stream {
    Stream(2, 32, key, Entries(s.mapInfo, Ids(s, false)), Entries(s.mapInfo, Ids(s, true)),
           Xor(c.newBuckets, BUCKET_FLAG), Rows(c, s), asmap)
  }

  // ---------------------------------------------------- what reading it gives

  /** Entry i of a list, at place pos of vRandom. */
  predicate IsEntry(r: Db, id: int, info: Info, refs: int, tried: bool) {
    id in r.mapInfo && r.mapInfo[id] == Saved(info).(nRandomPos := id, nRefCount := refs, fInTried := tried)
  }

  predicate Blankness(t: Table) { forall k | k in t :: t[k] == -1 }

  predicate NewsAt(e: Db, r: Db, news: seq<Info>, n: nat)
    requires n <= |news|
  {
    && r.nIdCount == n && |r.vRandom| == n && r.vvTried == e.vvTried && r.vvNew == e.vvNew
    && r.nNew == e.nNew + n && r.nTried == e.nTried
    && forall i | 0 <= i < n :: IsEntry(r, i, news[i], 0, false)
  }

  lemma {:induction false} NewsGive(e: Db, news: seq<Info>, n: nat)
    requires n <= |news| && e.nIdCount == 0 && e.vRandom == []
    ensures NewsAt(e, News(e, news, n), news, n)
    decreases n
  {
    if n > 0 {
      NewsGive(e, news, n - 1);
      var p := News(e, news, n - 1);
      forall i | 0 <= i < n
        ensures IsEntry(Enter(p, news[n - 1]), i, news[i], 0, false)
      {
        if i < n - 1 {
          assert IsEntry(p, i, news[i], 0, false);
        }
      }
    }
  }

  predicate SlotHas(c: Config, r: Db, info: Info, id: int)
    requires c.Valid()
  {
    c.TriedSlot(info.addr) in r.vvTried && r.vvTried[c.TriedSlot(info.addr)] == id
  }

  /** The occupant of a tried slot, if any, is the entry whose slot it is. */
  predicate SlotOk(c: Config, r: Db, trieds: seq<Info>, n: nat, j: nat, k: Cell)
    requires c.Valid() && j <= |trieds|
  {
    k in r.vvTried && (r.vvTried[k] == -1
        || (n <= r.vvTried[k] < n + j && c.TriedSlot(trieds[r.vvTried[k] - n].addr) == k))
  }

  predicate TriedsAt(c: Config, s: Db, r: Db, news: seq<Info>, trieds: seq<Info>, j: nat)
    requires c.Valid() && j <= |trieds|
  {
    var n := |news|;
    && r.nIdCount == n + j && |r.vRandom| == n + j && r.vvNew == s.vvNew && r.vvTried.Keys == s.vvTried.Keys
    && r.nNew == s.nNew && r.nTried == s.nTried + j
    && (forall i | 0 <= i < n :: IsEntry(r, i, news[i], 0, false))
    && (forall i | 0 <= i < j :: IsEntry(r, n + i, trieds[i], 0, true))
    && (forall i | 0 <= i < j :: SlotHas(c, r, trieds[i], n + i))
    && (forall k | k in r.vvTried :: SlotOk(c, r, trieds, n, j, k))
  }

  /** No two entries want the same tried slot. */
  ghost predicate SlotsDiffer(c: Config, trieds: seq<Info>)
    requires c.Valid()
  {
    forall i, j | 0 <= i < |trieds| && 0 <= j < |trieds|
        && c.TriedSlot(trieds[i].addr) == c.TriedSlot(trieds[j].addr) :: i == j
  }

  /** The slot of the next entry is still free. */
  lemma SlotFree(c: Config, p: Db, trieds: seq<Info>, n: nat, j: nat)
    requires c.Valid() && j < |trieds| && SlotsDiffer(c, trieds)
    requires SlotOk(c, p, trieds, n, j, c.TriedSlot(trieds[j].addr))
    ensures p.vvTried[c.TriedSlot(trieds[j].addr)] == -1
  {
  }

  lemma SlotsNext(c: Config, p: Db, r: Db, trieds: seq<Info>, n: nat, j: nat, slot: Cell)
    requires c.Valid() && j < |trieds| && slot == c.TriedSlot(trieds[j].addr) && SlotsDiffer(c, trieds)
    requires slot in p.vvTried && r.vvTried == p.vvTried[slot := n + j]
    requires forall i | 0 <= i < j :: SlotHas(c, p, trieds[i], n + i)
    requires forall k | k in p.vvTried :: SlotOk(c, p, trieds, n, j, k)
    ensures forall i | 0 <= i < j + 1 :: SlotHas(c, r, trieds[i], n + i)
    ensures forall k | k in r.vvTried :: SlotOk(c, r, trieds, n, j + 1, k)
  {
    forall i | 0 <= i < j + 1
      ensures SlotHas(c, r, trieds[i], n + i)
    {
      if i < j {
        assert SlotHas(c, p, trieds[i], n + i);
        assert c.TriedSlot(trieds[i].addr) != slot;
      }
    }
    forall k | k in r.vvTried
      ensures SlotOk(c, r, trieds, n, j + 1, k)
    {
      if k != slot {
        assert SlotOk(c, p, trieds, n, j, k);
      }
    }
  }

  lemma EntriesNext(c: Config, p: Db, news: seq<Info>, trieds: seq<Info>, j: nat, slot: Cell)
    requires c.Valid() && j < |trieds| && p.nIdCount == |news| + j && |p.vRandom| == |news| + j
    requires forall i | 0 <= i < |news| :: IsEntry(p, i, news[i], 0, false)
    requires forall i | 0 <= i < j :: IsEntry(p, |news| + i, trieds[i], 0, true)
    ensures var r := Promote(Enter(p, trieds[j]), p.nIdCount, slot);
            && (forall i | 0 <= i < |news| :: IsEntry(r, i, news[i], 0, false))
            && (forall i | 0 <= i < j + 1 :: IsEntry(r, |news| + i, trieds[i], 0, true))
  {
    var r := Promote(Enter(p, trieds[j]), p.nIdCount, slot);
    forall i | 0 <= i < |news|
      ensures IsEntry(r, i, news[i], 0, false)
    {
      assert IsEntry(p, i, news[i], 0, false);
    }
    forall i | 0 <= i < j + 1
      ensures IsEntry(r, |news| + i, trieds[i], 0, true)
    {
      if i < j {
        assert IsEntry(p, |news| + i, trieds[i], 0, true);
      }
    }
  }

  lemma TriedNext(c: Config, s: Db, p: Db, news: seq<Info>, trieds: seq<Info>, j: nat)
    requires c.Valid() && j < |trieds| && SlotsDiffer(c, trieds) && TriedsAt(c, s, p, news, trieds, j)
    requires c.TriedSlot(trieds[j].addr) in s.vvTried
    ensures TriedsAt(c, s, EnterTried(c, p, trieds[j]), news, trieds, j + 1)
  {
    var slot, n := c.TriedSlot(trieds[j].addr), |news|;
    assert SlotOk(c, p, trieds, n, j, slot);
    SlotFree(c, p, trieds, n, j);
    EntriesNext(c, p, news, trieds, j, slot);
    SlotsNext(c, p, EnterTried(c, p, trieds[j]), trieds, n, j, slot);
    EntriesSame(Promote(Enter(p, trieds[j]), p.nIdCount, slot), EnterTried(c, p, trieds[j]), news, trieds, j + 1);
  }

  lemma EntriesSame(p: Db, r: Db, news: seq<Info>, trieds: seq<Info>, j: nat)
    requires j <= |trieds| && r.mapInfo == p.mapInfo
    requires forall i | 0 <= i < |news| :: IsEntry(p, i, news[i], 0, false)
    requires forall i | 0 <= i < j :: IsEntry(p, |news| + i, trieds[i], 0, true)
    ensures forall i | 0 <= i < |news| :: IsEntry(r, i, news[i], 0, false)
    ensures forall i | 0 <= i < j :: IsEntry(r, |news| + i, trieds[i], 0, true)
  {
    forall i | 0 <= i < |news|
      ensures IsEntry(r, i, news[i], 0, false)
    {
      assert IsEntry(p, i, news[i], 0, false);
    }
    forall i | 0 <= i < j
      ensures IsEntry(r, |news| + i, trieds[i], 0, true)
    {
      assert IsEntry(p, |news| + i, trieds[i], 0, true);
    }
  }

  lemma {:induction false} TraceGives(c: Config, ss: seq<Db>, news: seq<Info>, trieds: seq<Info>, j: nat)
    requires c.Valid() && j <= |trieds| && SlotsDiffer(c, trieds) && TriedTrace(c, ss, trieds)
    requires TriedsAt(c, ss[0], ss[0], news, trieds, 0)
    requires forall i | 0 <= i < |trieds| :: c.TriedSlot(trieds[i].addr) in ss[0].vvTried
    ensures TriedsAt(c, ss[0], ss[j], news, trieds, j)
    decreases j
  {
    if j > 0 {
      TraceGives(c, ss, news, trieds, j - 1);
      assert Follows(c, ss, trieds, j - 1);
      TriedNext(c, ss[0], ss[j - 1], news, trieds, j - 1);
    }
  }

  lemma {:induction false} TriedsGive(c: Config, s: Db, news: seq<Info>, trieds: seq<Info>)
    requires c.Valid() && SlotsDiffer(c, trieds) && TriedsAt(c, s, s, news, trieds, 0)
    requires forall i | 0 <= i < |trieds| :: c.TriedSlot(trieds[i].addr) in s.vvTried
    ensures TriedsAt(c, s, Trieds(c, s, trieds, |trieds|), news, trieds, |trieds|)
  {
    TraceGives(c, TriedStates(c, s, trieds), news, trieds, |trieds|);
  }

  // ------------------------------------------------------------- the new table

  /** The cell an entry is put back into. */
  function CellOf(c: Config, news: seq<Info>, buckets: seq<seq<int>>, x: nat): Cell
    requires c.Valid() && x < |news|
  {
    var b := LastBucket(buckets, x, |buckets|);
    (b, c.BucketPosition(true, b, news[x].addr))
  }

  predicate CellHas(c: Config, r: Db, news: seq<Info>, buckets: seq<seq<int>>, x: nat)
    requires c.Valid() && x < |news|
  {
    CellOf(c, news, buckets, x) in r.vvNew && r.vvNew[CellOf(c, news, buckets, x)] == x
  }

  predicate CellOk(c: Config, r: Db, news: seq<Info>, buckets: seq<seq<int>>, n: nat, k: Cell)
    requires c.Valid() && n <= |news|
  {
    k in r.vvNew && (r.vvNew[k] == -1 || (0 <= r.vvNew[k] < n && CellOf(c, news, buckets, r.vvNew[k]) == k))
  }

  predicate SettledAt(c: Config, s: Db, r: Db, news: seq<Info>, buckets: seq<seq<int>>, n: nat)
    requires c.Valid() && n <= |news|
  {
    && r == s.(mapInfo := r.mapInfo, vvNew := r.vvNew) && r.vvNew.Keys == s.vvNew.Keys
    && (forall i | 0 <= i < |news| :: IsEntry(r, i, news[i], if i < n then 1 else 0, false))
    && (forall id | id in s.mapInfo && id >= |news| :: id in r.mapInfo && r.mapInfo[id] == s.mapInfo[id])
    && (forall x: nat | x < n :: CellHas(c, r, news, buckets, x))
    && (forall k | k in r.vvNew :: CellOk(c, r, news, buckets, n, k))
  }

  /** No two entries are put into the same cell. */
  ghost predicate CellsDiffer(c: Config, news: seq<Info>, buckets: seq<seq<int>>)
    requires c.Valid()
  {
    forall i: nat, j: nat | i < |news| && j < |news| && CellOf(c, news, buckets, i) == CellOf(c, news, buckets, j) ::
        i == j
  }

  lemma CellFree(c: Config, p: Db, news: seq<Info>, buckets: seq<seq<int>>, n: nat)
    requires c.Valid() && n < |news| && CellsDiffer(c, news, buckets)
    requires CellOk(c, p, news, buckets, n, CellOf(c, news, buckets, n))
    ensures p.vvNew[CellOf(c, news, buckets, n)] == -1
  {
  }

  lemma CellsNext(c: Config, p: Db, r: Db, news: seq<Info>, buckets: seq<seq<int>>, n: nat, cell: Cell)
    requires c.Valid() && n < |news| && cell == CellOf(c, news, buckets, n) && CellsDiffer(c, news, buckets)
    requires cell in p.vvNew && r.vvNew == p.vvNew[cell := n]
    requires forall x: nat | x < n :: CellHas(c, p, news, buckets, x)
    requires forall k | k in p.vvNew :: CellOk(c, p, news, buckets, n, k)
    ensures forall x: nat | x < n + 1 :: CellHas(c, r, news, buckets, x)
    ensures forall k | k in r.vvNew :: CellOk(c, r, news, buckets, n + 1, k)
  {
    forall x: nat | x < n + 1
      ensures CellHas(c, r, news, buckets, x)
    {
      if x < n {
        assert CellHas(c, p, news, buckets, x);
        assert CellOf(c, news, buckets, x) != cell;
      }
    }
    forall k | k in r.vvNew
      ensures CellOk(c, r, news, buckets, n + 1, k)
    {
      if k != cell {
        assert CellOk(c, p, news, buckets, n, k);
      }
    }
  }

  lemma {:induction false} SettledNext(c: Config, s: Db, p: Db, news: seq<Info>, buckets: seq<seq<int>>, n: nat, r: Db)
    requires c.Valid() && n < |news| && CellsDiffer(c, news, buckets) && SettledAt(c, s, p, news, buckets, n)
    requires CellOf(c, news, buckets, n) in s.vvNew
    requires r == Settle(c, p, n, LastBucket(buckets, n, |buckets|), true)
    ensures SettledAt(c, s, r, news, buckets, n + 1)
  {
    var cell := CellOf(c, news, buckets, n);
    assert IsEntry(p, n, news[n], 0, false);
    assert CellOk(c, p, news, buckets, n, cell);
    CellFree(c, p, news, buckets, n);
    assert r == Ref(p, n, cell);
    CellsNext(c, p, r, news, buckets, n, cell);
    forall i | 0 <= i < |news|
      ensures IsEntry(r, i, news[i], if i < n + 1 then 1 else 0, false)
    {
      assert IsEntry(p, i, news[i], if i < n then 1 else 0, false);
    }
  }

  lemma {:induction false} SettleTraceGives(c: Config, ss: seq<Db>, news: seq<Info>, buckets: seq<seq<int>>, n: nat)
    requires c.Valid() && n <= |news| && n < |ss| && CellsDiffer(c, news, buckets)
    requires SettleTrace(c, ss, buckets, true)
    requires SettledAt(c, ss[0], ss[0], news, buckets, 0)
    requires forall x: nat | x < |news| :: CellOf(c, news, buckets, x) in ss[0].vvNew
    ensures SettledAt(c, ss[0], ss[n], news, buckets, n)
    decreases n
  {
    if n > 0 {
      SettleTraceGives(c, ss, news, buckets, n - 1);
      assert SettleFollows(c, ss, buckets, true, n - 1);
      SettledNext(c, ss[0], ss[n - 1], news, buckets, n - 1, ss[n]);
    }
  }

  lemma {:induction false} SettlesGive(c: Config, s: Db, news: seq<Info>, buckets: seq<seq<int>>)
    requires c.Valid() && CellsDiffer(c, news, buckets) && SettledAt(c, s, s, news, buckets, 0)
    requires forall x: nat | x < |news| :: CellOf(c, news, buckets, x) in s.vvNew
    ensures SettledAt(c, s, Settles(c, s, buckets, true, |news|), news, buckets, |news|)
  {
    SettleTraceGives(c, SettleStates(c, s, buckets, true, |news|), news, buckets, |news|);
  }

  /** Nothing is lost, so nothing is pruned. */
  lemma {:induction false} NothingPruned(s: Db, n: nat)
    requires forall id | 0 <= id < n :: !Lost(s, id)
    ensures Prunes(s, n) == s
    decreases n
  {
    if n > 0 {
      NothingPruned(s, n - 1);
      assert !Lost(s, n - 1);
    }
  }

  // -------------------------------------------------- what a consistent state writes

  lemma NewListed(c: Config, s: Db, id: int)
    requires c.Valid() && Consistent(c, s) && id in s.mapInfo && !s.mapInfo[id].fInTried
    ensures 0 <= id && Place(s.mapInfo, id) < |Ids(s, false)| && Ids(s, false)[Place(s.mapInfo, id)] == id
  {
    ListingAt(s.mapInfo, false, s.nIdCount, id);
  }

  lemma TriedListed(c: Config, s: Db, id: int) returns (i: nat)
    requires c.Valid() && Consistent(c, s) && id in s.mapInfo && s.mapInfo[id].fInTried
    ensures i < |Ids(s, true)| && Ids(s, true)[i] == id
  {
    ListingAt(s.mapInfo, true, s.nIdCount, id);
    i := |Listing(s.mapInfo, true, id)|;
  }

  lemma ListedNew(c: Config, s: Db, i: nat)
    requires c.Valid() && Consistent(c, s) && i < |Ids(s, false)|
    ensures !s.mapInfo[Ids(s, false)[i]].fInTried
  {
    ListingPlace(s.mapInfo, false, s.nIdCount, i);
  }

  lemma ListedTried(c: Config, s: Db, i: nat)
    requires c.Valid() && Consistent(c, s) && i < |Ids(s, true)|
    ensures s.mapInfo[Ids(s, true)[i]].fInTried
  {
    ListingPlace(s.mapInfo, true, s.nIdCount, i);
  }

  lemma {:induction false} LastBucketHolds(buckets: seq<seq<int>>, x: int, n: nat, b: nat)
    requires b < n <= |buckets| && x in buckets[b]
    ensures 0 <= LastBucket(buckets, x, n) < n && x in buckets[LastBucket(buckets, x, n)]
    decreases n
  {
    if x !in buckets[n - 1] {
      LastBucketHolds(buckets, x, n - 1, b);
    }
  }

  /** An entry listed in a bucket occupies that bucket's cell for it. */
  lemma {:induction false} ListedInRow(c: Config, s: Db, b: nat, x: nat)
    requires c.Valid() && Consistent(c, s) && b < c.newBuckets && x < |Ids(s, false)|
    requires x in Row(s.mapInfo, s.vvNew, b, c.bucketSize)
    ensures var k := (b, c.BucketPosition(true, b, s.mapInfo[Ids(s, false)[x]].addr));
            k in s.vvNew && s.vvNew[k] == Ids(s, false)[x]
  {
    RowHolds(s.mapInfo, s.vvNew, b, c.bucketSize, x);
    var q :| 0 <= q < c.bucketSize && (b, q) in s.vvNew && s.vvNew[(b, q)] >= 0
        && Place(s.mapInfo, s.vvNew[(b, q)]) == x;
    NewListed(c, s, s.vvNew[(b, q)]);
  }

  /** Every new entry is listed somewhere. */
  lemma RowOf(c: Config, s: Db, x: nat) returns (b: nat)
    requires c.Valid() && Consistent(c, s) && x < |Ids(s, false)|
    ensures b < c.newBuckets && x in Row(s.mapInfo, s.vvNew, b, c.bucketSize)
  {
    var id := Ids(s, false)[x];
    ListedNew(c, s, x);
    ListingPlace(s.mapInfo, false, s.nIdCount, x);
    var k := SomeCell(s.vvNew, id);
    b := k.0;
    assert (b, k.1) == k;
    RowHolds(s.mapInfo, s.vvNew, b, c.bucketSize, x);
  }

  lemma SomeCell(n: Table, id: int) returns (k: Cell)
    requires |CellsOf(n, id)| >= 1
    ensures k in n && n[k] == id
  {
    k :| k in CellsOf(n, id);
  }

  /** The cell an entry is put back into is one it occupied. */
  lemma FormerCell(c: Config, s: Db, x: nat)
    requires c.Valid() && Consistent(c, s) && x < |Ids(s, false)|
    ensures var k := CellOf(c, Entries(s.mapInfo, Ids(s, false)), Rows(c, s), x);
            k in s.vvNew && s.vvNew[k] == Ids(s, false)[x]
  {
    var b := RowOf(c, s, x);
    LastBucketHolds(Rows(c, s), x, c.newBuckets, b);
    ListedInRow(c, s, LastBucket(Rows(c, s), x, c.newBuckets), x);
  }

  lemma FormerCellsDiffer(c: Config, s: Db)
    requires c.Valid() && Consistent(c, s)
    ensures CellsDiffer(c, Entries(s.mapInfo, Ids(s, false)), Rows(c, s))
  {
    var news, rows := Entries(s.mapInfo, Ids(s, false)), Rows(c, s);
    forall i: nat, j: nat | i < |news| && j < |news| && CellOf(c, news, rows, i) == CellOf(c, news, rows, j)
      ensures i == j
    {
      FormerCell(c, s, i);
      FormerCell(c, s, j);
      ListingDistinct(s.mapInfo, false, s.nIdCount, i, j);
    }
  }

  lemma FormerSlot(c: Config, s: Db, i: nat)
    requires c.Valid() && Consistent(c, s) && i < |Ids(s, true)|
    ensures var k := c.TriedSlot(s.mapInfo[Ids(s, true)[i]].addr);
            k in s.vvTried && s.vvTried[k] == Ids(s, true)[i]
  {
    ListedTried(c, s, i);
  }

  lemma FormerSlotsDiffer(c: Config, s: Db)
    requires c.Valid() && Consistent(c, s)
    ensures SlotsDiffer(c, Entries(s.mapInfo, Ids(s, true)))
  {
    var trieds := Entries(s.mapInfo, Ids(s, true));
    forall i, j | 0 <= i < |trieds| && 0 <= j < |trieds| && c.TriedSlot(trieds[i].addr) == c.TriedSlot(trieds[j].addr)
      ensures i == j
    {
      FormerSlot(c, s, i);
      FormerSlot(c, s, j);
      ListingDistinct(s.mapInfo, true, s.nIdCount, i, j);
    }
  }

  lemma SameIp(c: Config, s: Db, a: int, b: int)
    requires c.Valid() && Consistent(c, s) && a in s.mapInfo && b in s.mapInfo
    requires s.mapInfo[a].addr.ip == s.mapInfo[b].addr.ip
    ensures a == b
  {
  }

  lemma WrittenDistinct(c: Config, s: Db)
    requires c.Valid() && Consistent(c, s)
    ensures Distinct(Entries(s.mapInfo, Ids(s, false)) + Entries(s.mapInfo, Ids(s, true)))
  {
    var ids, tids := Ids(s, false), Ids(s, true);
    var both := ids + tids;
    var all := Entries(s.mapInfo, ids) + Entries(s.mapInfo, tids);
    forall i, j | 0 <= i < j < |all|
      ensures all[i].addr.ip != all[j].addr.ip
    {
      BothDiffer(c, s, i, j);
      assert all[i].addr == s.mapInfo[both[i]].addr && all[j].addr == s.mapInfo[both[j]].addr;
      if all[i].addr.ip == all[j].addr.ip {
        SameIp(c, s, both[i], both[j]);
      }
    }
  }

  lemma BothDiffer(c: Config, s: Db, i: nat, j: nat)
    requires c.Valid() && Consistent(c, s) && i < j < |Ids(s, false)| + |Ids(s, true)|
    ensures (Ids(s, false) + Ids(s, true))[i] != (Ids(s, false) + Ids(s, true))[j]
  {
    var ids, tids := Ids(s, false), Ids(s, true);
    if j < |ids| {
      if ids[i] == ids[j] {
        ListingDistinct(s.mapInfo, false, s.nIdCount, i, j);
      }
    } else if i < |ids| {
      ListedNew(c, s, i);
      ListedTried(c, s, j - |ids|);
    } else if tids[i - |ids|] == tids[j - |ids|] {
      ListingDistinct(s.mapInfo, true, s.nIdCount, i - |ids|, j - |ids|);
    }
  }

  // ---------------------------------------------------------- nothing is lost

  /** The state read back, entry by entry and cell by cell. */
  ghost predicate FilledIs(c: Config, r: Db, news: seq<Info>, trieds: seq<Info>, buckets: seq<seq<int>>)
    requires c.Valid()
  {
    && r.nIdCount == |news| + |trieds| && r.nNew == |news| && r.nTried == |trieds|
    && (forall i | 0 <= i < |news| :: IsEntry(r, i, news[i], 1, false))
    && (forall i | 0 <= i < |trieds| :: IsEntry(r, |news| + i, trieds[i], 0, true))
    && (forall i | 0 <= i < |trieds| :: SlotHas(c, r, trieds[i], |news| + i))
    && (forall k | k in r.vvTried :: SlotOk(c, r, trieds, |news|, |trieds|, k))
    && (forall x: nat | x < |news| :: CellHas(c, r, news, buckets, x))
    && (forall k | k in r.vvNew :: CellOk(c, r, news, buckets, |news|, k))
  }

  lemma SettledKeepsTried(c: Config, s: Db, r: Db, news: seq<Info>, trieds: seq<Info>, buckets: seq<seq<int>>)
    requires c.Valid() && SettledAt(c, s, r, news, buckets, |news|)
    requires forall i | 0 <= i < |trieds| :: IsEntry(s, |news| + i, trieds[i], 0, true)
    requires forall i | 0 <= i < |trieds| :: SlotHas(c, s, trieds[i], |news| + i)
    requires forall k | k in s.vvTried :: SlotOk(c, s, trieds, |news|, |trieds|, k)
    ensures forall i | 0 <= i < |trieds| :: IsEntry(r, |news| + i, trieds[i], 0, true)
    ensures forall i | 0 <= i < |trieds| :: SlotHas(c, r, trieds[i], |news| + i)
    ensures forall k | k in r.vvTried :: SlotOk(c, r, trieds, |news|, |trieds|, k)
  {
    forall i | 0 <= i < |trieds|
      ensures IsEntry(r, |news| + i, trieds[i], 0, true) && SlotHas(c, r, trieds[i], |news| + i)
    {
      assert IsEntry(s, |news| + i, trieds[i], 0, true) && SlotHas(c, s, trieds[i], |news| + i);
    }
    forall k | k in r.vvTried
      ensures SlotOk(c, r, trieds, |news|, |trieds|, k)
    {
      assert SlotOk(c, s, trieds, |news|, |trieds|, k);
    }
  }

  lemma StartTried(c: Config, e: Db, s: Db, news: seq<Info>, trieds: seq<Info>)
    requires c.Valid() && NewsAt(e, s, news, |news|) && Blankness(e.vvTried)
    ensures TriedsAt(c, s, s, news, trieds, 0)
  {
  }

  lemma StartSettled(c: Config, s: Db, r: Db, news: seq<Info>, trieds: seq<Info>, buckets: seq<seq<int>>)
    requires c.Valid() && TriedsAt(c, s, r, news, trieds, |trieds|) && Blankness(s.vvNew)
    ensures SettledAt(c, r, r, news, buckets, 0)
  {
  }

  predicate Untouched(e: Db) {
    && e.nIdCount == 0 && e.vRandom == [] && e.nNew == 0 && e.nTried == 0
    && Blankness(e.vvTried) && Blankness(e.vvNew)
  }

  /** Every entry's place is in the tables. */
  predicate Fits(c: Config, e: Db, st: Stream)
    requires c.Valid()
  {
    && (forall i | 0 <= i < |st.trieds| :: c.TriedSlot(st.trieds[i].addr) in e.vvTried)
    && (forall x: nat | x < |st.news| :: CellOf(c, st.news, st.buckets, x) in e.vvNew)
  }

  lemma {:induction false} FillTried(c: Config, e: Db, st: Stream, a: Db, b: Db)
    requires c.Valid() && Untouched(e) && Fits(c, e, st) && SlotsDiffer(c, st.trieds)
    requires a == News(e, st.news, |st.news|) && b == Trieds(c, a, st.trieds, |st.trieds|)
    ensures TriedsAt(c, a, b, st.news, st.trieds, |st.trieds|)
    ensures a.vvNew == e.vvNew && a.nNew == |st.news| && a.nTried == 0
  {
    NewsGive(e, st.news, |st.news|);
    StartTried(c, e, a, st.news, st.trieds);
    TriedsGive(c, a, st.news, st.trieds);
  }

  lemma {:induction false} FillNew(c: Config, a: Db, b: Db, st: Stream, r: Db)
    requires c.Valid() && TriedsAt(c, a, b, st.news, st.trieds, |st.trieds|)
    requires Blankness(a.vvNew) && a.nNew == |st.news| && a.nTried == 0
    requires CellsDiffer(c, st.news, st.buckets)
    requires forall x: nat | x < |st.news| :: CellOf(c, st.news, st.buckets, x) in a.vvNew
    requires r == Settles(c, b, st.buckets, true, |st.news|)
    ensures FilledIs(c, r, st.news, st.trieds, st.buckets)
  {
    StartSettled(c, a, b, st.news, st.trieds, st.buckets);
    SettlesGive(c, b, st.news, st.buckets);
    FillJoined(c, b, r, st.news, st.trieds, st.buckets);
  }

  lemma FillJoined(c: Config, b: Db, r: Db, news: seq<Info>, trieds: seq<Info>, buckets: seq<seq<int>>)
    requires c.Valid() && SettledAt(c, b, r, news, buckets, |news|)
    requires forall i | 0 <= i < |trieds| :: IsEntry(b, |news| + i, trieds[i], 0, true)
    requires forall i | 0 <= i < |trieds| :: SlotHas(c, b, trieds[i], |news| + i)
    requires forall k | k in b.vvTried :: SlotOk(c, b, trieds, |news|, |trieds|, k)
    requires b.nIdCount == |news| + |trieds| && b.nNew == |news| && b.nTried == |trieds|
    ensures FilledIs(c, r, news, trieds, buckets)
  {
    SettledKeepsTried(c, b, r, news, trieds, buckets);
  }

  lemma FillGives(c: Config, e: Db, st: Stream)
    requires c.Valid() && Untouched(e) && Fits(c, e, st) && SlotsDiffer(c, st.trieds)
             && CellsDiffer(c, st.news, st.buckets)
    ensures FilledIs(c, Filled(c, e, st, true), st.news, st.trieds, st.buckets)
  {
    var a := News(e, st.news, |st.news|);
    var b := Trieds(c, a, st.trieds, |st.trieds|);
    FillTried(c, e, st, a, b);
    FillNew(c, a, b, st, Filled(c, e, st, true));
  }

  lemma {:induction false} FilledLosesNone(c: Config, r: Db, news: seq<Info>, trieds: seq<Info>, buckets: seq<seq<int>>)
    requires c.Valid() && FilledIs(c, r, news, trieds, buckets)
    ensures Prunes(r, r.nIdCount) == r
  {
    forall id | 0 <= id < r.nIdCount
      ensures !Lost(r, id)
    {
      if id < |news| {
        assert IsEntry(r, id, news[id], 1, false);
      } else {
        assert IsEntry(r, |news| + (id - |news|), trieds[id - |news|], 0, true);
      }
    }
    NothingPruned(r, r.nIdCount);
  }

  /** The tables of an empty manager. */
  ghost predicate EmptyTables(c: Config, e: Db)
    requires c.Valid()
  {
    IsEmpty(c, e) && Untouched(e)
  }

  lemma EmptyCovers(c: Config, e: Db, s: Db)
    requires c.Valid() && Consistent(c, s) && IsEmpty(c, e)
    ensures e.vvTried.Keys == s.vvTried.Keys && e.vvNew.Keys == s.vvNew.Keys
  {
  }

  /** st lists what a consistent manager holds. */
  ghost predicate Lists(c: Config, s: Db, st: Stream) {
    && st.news == Entries(s.mapInfo, Ids(s, false)) && st.trieds == Entries(s.mapInfo, Ids(s, true))
    && st.buckets == Rows(c, s)
  }

  lemma ListsFit(c: Config, e: Db, s: Db, st: Stream)
    requires c.Valid() && Consistent(c, s) && IsEmpty(c, e) && Lists(c, s, st)
    ensures Fits(c, e, st)
  {
    EmptyCovers(c, e, s);
    forall i | 0 <= i < |st.trieds|
      ensures c.TriedSlot(st.trieds[i].addr) in e.vvTried
    {
      FormerSlot(c, s, i);
    }
    forall x: nat | x < |st.news|
      ensures CellOf(c, st.news, st.buckets, x) in e.vvNew
    {
      FormerCell(c, s, x);
    }
  }

  lemma LoadedAs(c: Config, e: Db, s: Db, st: Stream)
    requires c.Valid() && Consistent(c, s) && EmptyTables(c, e) && Lists(c, s, st)
    ensures FilledIs(c, Loaded(c, e, st, true), st.news, st.trieds, st.buckets)
    ensures Consistent(c, Loaded(c, e, st, true))
  {
    ListsFit(c, e, s, st);
    FormerSlotsDiffer(c, s);
    FormerCellsDiffer(c, s);
    FillGives(c, e, st);
    FilledLosesNone(c, Filled(c, e, st, true), st.news, st.trieds, st.buckets);
    WrittenDistinct(c, s);
    LoadedConsistent(c, e, st, true);
  }

  /** The address with its port, services and time, its source, last success and attempts come
      back; the last try and the last counted attempt do not. */
  predicate ComesBack(a: Info, b: Info) {
    && b.addr == a.addr && b.nServices == a.nServices && b.nTime == a.nTime
    && b.source == a.source && b.nLastSuccess == a.nLastSuccess && b.nAttempts == a.nAttempts
    && b.nLastTry == 0 && b.nLastCountAttempt == 0
  }

  /** An address known to both, with the same saved data, in the same table. */
  ghost predicate SameEntry(s: Db, r: Db, ip: NetAddr) {
    && ip in s.mapAddr && s.mapAddr[ip] in s.mapInfo && ip in r.mapAddr && r.mapAddr[ip] in r.mapInfo
    && ComesBack(s.mapInfo[s.mapAddr[ip]], r.mapInfo[r.mapAddr[ip]])
    && r.mapInfo[r.mapAddr[ip]].fInTried == s.mapInfo[s.mapAddr[ip]].fInTried
  }

  /** A new address is left with exactly one cell, and that is one of its former cells. */
  ghost predicate OneCell(s: Db, r: Db, ip: NetAddr)
    requires SameEntry(s, r, ip)
  {
    var id, x := s.mapAddr[ip], r.mapAddr[ip];
    !s.mapInfo[id].fInTried ==>
      r.mapInfo[x].nRefCount == 1 == |CellsOf(r.vvNew, x)| && CellsOf(r.vvNew, x) <= CellsOf(s.vvNew, id)
  }

  /** The same address, or none, in a tried slot. */
  ghost predicate SameSlot(s: Db, r: Db, k: Cell) {
    && k in s.vvTried && k in r.vvTried
    && (r.vvTried[k] == -1 <==> s.vvTried[k] == -1)
    && (s.vvTried[k] != -1 ==>
          && s.vvTried[k] in s.mapInfo && r.vvTried[k] in r.mapInfo
          && r.mapInfo[r.vvTried[k]].addr == s.mapInfo[s.vvTried[k]].addr)
  }

  /** r holds everything s holds. */
  ghost predicate Restored(s: Db, r: Db) {
    && r.mapAddr.Keys == s.mapAddr.Keys
    && (forall ip | ip in s.mapAddr :: SameEntry(s, r, ip) && OneCell(s, r, ip))
    && r.vvTried.Keys == s.vvTried.Keys && (forall k | k in s.vvTried :: SameSlot(s, r, k))
    && r.nNew == s.nNew && r.nTried == s.nTried
  }

  lemma NewRestored(c: Config, s: Db, r: Db, st: Stream, x: nat)
    requires c.Valid() && Consistent(c, s) && Consistent(c, r) && Lists(c, s, st) && x < |st.news|
    requires FilledIs(c, r, st.news, st.trieds, st.buckets)
    ensures SameEntry(s, r, st.news[x].addr.ip) && OneCell(s, r, st.news[x].addr.ip)
  {
    var id := Ids(s, false)[x];
    ListedNew(c, s, x);
    assert IsEntry(r, x, st.news[x], 1, false);
    assert s.mapAddr[s.mapInfo[id].addr.ip] == id;
    assert r.mapAddr[r.mapInfo[x].addr.ip] == x;
    FormerCell(c, s, x);
    OnlyCell(c, r, st.news, st.buckets, x);
  }

  lemma OnlyCell(c: Config, r: Db, news: seq<Info>, buckets: seq<seq<int>>, x: nat)
    requires c.Valid() && x < |news| && CellHas(c, r, news, buckets, x)
    requires forall k | k in r.vvNew :: CellOk(c, r, news, buckets, |news|, k)
    ensures CellsOf(r.vvNew, x) == {CellOf(c, news, buckets, x)}
  {
    forall k | k in CellsOf(r.vvNew, x)
      ensures k == CellOf(c, news, buckets, x)
    {
      assert CellOk(c, r, news, buckets, |news|, k);
    }
  }

  lemma TriedRestored(c: Config, s: Db, r: Db, st: Stream, i: nat)
    requires c.Valid() && Consistent(c, s) && Consistent(c, r) && Lists(c, s, st) && i < |st.trieds|
    requires FilledIs(c, r, st.news, st.trieds, st.buckets)
    ensures SameEntry(s, r, st.trieds[i].addr.ip) && OneCell(s, r, st.trieds[i].addr.ip)
    ensures SameSlot(s, r, c.TriedSlot(st.trieds[i].addr))
  {
    var id, x := Ids(s, true)[i], |st.news| + i;
    ListedTried(c, s, i);
    assert IsEntry(r, x, st.trieds[i], 0, true);
    assert SlotHas(c, r, st.trieds[i], x);
    EntryRestored(c, s, r, id, x, st.trieds[i]);
    FormerSlot(c, s, i);
  }

  lemma EntryRestored(c: Config, s: Db, r: Db, id: int, x: int, info: Info)
    requires c.Valid() && Consistent(c, s) && Consistent(c, r) && id in s.mapInfo && s.mapInfo[id].fInTried
    requires info == Saved(s.mapInfo[id]) && IsEntry(r, x, info, 0, true)
    ensures SameEntry(s, r, info.addr.ip) && OneCell(s, r, info.addr.ip)
  {
    assert s.mapAddr[s.mapInfo[id].addr.ip] == id;
    assert r.mapAddr[r.mapInfo[x].addr.ip] == x;
  }

  lemma KnownRestored(c: Config, s: Db, r: Db, st: Stream, ip: NetAddr)
    requires c.Valid() && Consistent(c, s) && Consistent(c, r) && Lists(c, s, st) && ip in s.mapAddr
    requires FilledIs(c, r, st.news, st.trieds, st.buckets)
    ensures SameEntry(s, r, ip) && OneCell(s, r, ip)
  {
    var id := s.mapAddr[ip];
    assert id in s.mapInfo && s.mapInfo[id].addr.ip == ip;
    if s.mapInfo[id].fInTried {
      var i := TriedListed(c, s, id);
      TriedRestored(c, s, r, st, i);
    } else {
      NewListed(c, s, id);
      NewRestored(c, s, r, st, Place(s.mapInfo, id));
    }
  }

  lemma EntryKnown(s: Db, tried: bool, i: nat)
    requires AddrOk(s.mapInfo, s.mapAddr) && i < |Ids(s, tried)|
    ensures Entries(s.mapInfo, Ids(s, tried))[i].addr.ip in s.mapAddr
  {
    var id := Ids(s, tried)[i];
    assert id in s.mapInfo;
  }

  /** Every id read back is one of the entries of the stream. */
  lemma EntryFrom(c: Config, r: Db, news: seq<Info>, trieds: seq<Info>, buckets: seq<seq<int>>, x: nat)
    requires c.Valid() && FilledIs(c, r, news, trieds, buckets) && x < |news| + |trieds|
    ensures x in r.mapInfo && r.mapInfo[x].addr == if x < |news| then news[x].addr else trieds[x - |news|].addr
  {
    if x < |news| {
      assert IsEntry(r, x, news[x], 1, false);
    } else {
      var i := x - |news|;
      assert IsEntry(r, |news| + i, trieds[i], 0, true);
    }
  }

  lemma NothingAdded(c: Config, s: Db, r: Db, st: Stream, ip: NetAddr)
    requires c.Valid() && AddrOk(s.mapInfo, s.mapAddr) && Lists(c, s, st)
    requires IdsOk(r.mapInfo, r.nIdCount) && AddrOk(r.mapInfo, r.mapAddr) && ip in r.mapAddr
    requires FilledIs(c, r, st.news, st.trieds, st.buckets)
    ensures ip in s.mapAddr
  {
    var x := r.mapAddr[ip];
    EntryFrom(c, r, st.news, st.trieds, st.buckets, x);
    if x < |st.news| {
      EntryKnown(s, false, x);
    } else {
      EntryKnown(s, true, x - |st.news|);
    }
  }

  /** A slot that was free stays free. */
  lemma FreeSlot(c: Config, s: Db, r: Db, st: Stream, k: Cell)
    requires c.Valid() && Consistent(c, s) && st.trieds == Entries(s.mapInfo, Ids(s, true))
    requires k in s.vvTried && s.vvTried[k] == -1 && SlotOk(c, r, st.trieds, |st.news|, |st.trieds|, k)
    ensures r.vvTried[k] == -1
  {
    if r.vvTried[k] != -1 {
      FormerSlot(c, s, r.vvTried[k] - |st.news|);
    }
  }

  lemma SlotRestored(c: Config, s: Db, r: Db, st: Stream, k: Cell)
    requires c.Valid() && Consistent(c, s) && Consistent(c, r) && Lists(c, s, st) && k in s.vvTried && k in r.vvTried
    requires FilledIs(c, r, st.news, st.trieds, st.buckets)
    ensures SameSlot(s, r, k)
  {
    var id := s.vvTried[k];
    if id != -1 {
      var i := TriedListed(c, s, id);
      TriedRestored(c, s, r, st, i);
    } else {
      assert SlotOk(c, r, st.trieds, |st.news|, |st.trieds|, k);
      FreeSlot(c, s, r, st, k);
    }
  }

  ghost function ChosenBelow(m: Infos, tried: bool, n: nat): set<int> {
    set id | id in m && 0 <= id < n && Chosen(m, id, tried)
  }

  lemma ChosenNext(m: Infos, tried: bool, n: nat)
    ensures ChosenBelow(m, tried, n + 1) == ChosenBelow(m, tried, n) + if Chosen(m, n, tried) then {n} else {}
    ensures n !in ChosenBelow(m, tried, n)
  {
  }

  lemma {:induction false} ListingCount(m: Infos, tried: bool, n: nat)
    ensures |Listing(m, tried, n)| == |ChosenBelow(m, tried, n)|
    decreases n
  {
    if n == 0 {
      assert ChosenBelow(m, tried, 0) == {};
    } else {
      ListingCount(m, tried, n - 1);
      ChosenNext(m, tried, n - 1);
    }
  }

  /** The counters announce the lengths of the lists. */
  lemma CountsWritten(c: Config, s: Db)
    requires c.Valid() && Consistent(c, s)
    ensures |Ids(s, false)| == s.nNew && |Ids(s, true)| == s.nTried
  {
    ListingCount(s.mapInfo, false, s.nIdCount);
    ListingCount(s.mapInfo, true, s.nIdCount);
    assert ChosenBelow(s.mapInfo, false, s.nIdCount) == NewIds(s.mapInfo);
    assert ChosenBelow(s.mapInfo, true, s.nIdCount) == TriedIds(s.mapInfo);
  }

  lemma AddrsRestored(c: Config, s: Db, r: Db, st: Stream)
    requires c.Valid() && Consistent(c, s) && Consistent(c, r) && Lists(c, s, st)
    requires FilledIs(c, r, st.news, st.trieds, st.buckets)
    ensures r.mapAddr.Keys == s.mapAddr.Keys
    ensures forall ip | ip in s.mapAddr :: SameEntry(s, r, ip) && OneCell(s, r, ip)
  {
    forall ip | ip in s.mapAddr
      ensures SameEntry(s, r, ip) && OneCell(s, r, ip)
    {
      KnownRestored(c, s, r, st, ip);
    }
    forall ip | ip in r.mapAddr
      ensures ip in s.mapAddr
    {
      NothingAdded(c, s, r, st, ip);
    }
  }

  lemma SlotsRestored(c: Config, s: Db, r: Db, st: Stream)
    requires c.Valid() && Consistent(c, s) && Consistent(c, r) && Lists(c, s, st)
    requires FilledIs(c, r, st.news, st.trieds, st.buckets)
    ensures r.vvTried.Keys == s.vvTried.Keys && forall k | k in s.vvTried :: SameSlot(s, r, k)
  {
    assert r.vvTried.Keys == s.vvTried.Keys;
    forall k | k in s.vvTried
      ensures SameSlot(s, r, k)
    {
      SlotRestored(c, s, r, st, k);
    }
  }

  lemma AllRestored(c: Config, s: Db, r: Db, st: Stream)
    requires c.Valid() && Consistent(c, s) && Consistent(c, r) && Lists(c, s, st)
    requires FilledIs(c, r, st.news, st.trieds, st.buckets)
    ensures Restored(s, r)
  {
    AddrsRestored(c, s, r, st);
    SlotsRestored(c, s, r, st);
    CountsWritten(c, s);
  }

  // ------------------------------------------------------------ count limits

  ghost function Line(b: int, m: nat): set<Cell> { if m == 0 then {} else Line(b, m - 1) + {(b, m - 1)} }

  ghost function Board(n: nat, m: nat): set<Cell> { if n == 0 then {} else Board(n - 1, m) + Line(n - 1, m) }

  lemma {:induction false} LineHolds(b: int, m: nat)
    ensures forall k: Cell :: k in Line(b, m) <==> k.0 == b && 0 <= k.1 < m
    decreases m
  {
    if m > 0 {
      LineHolds(b, m - 1);
    }
  }

  lemma {:induction false} LineCount(b: int, m: nat)
    ensures |Line(b, m)| == m
    decreases m
  {
    if m > 0 {
      LineCount(b, m - 1);
      LineHolds(b, m - 1);
    }
  }

  lemma {:induction false} BoardHolds(n: nat, m: nat)
    ensures forall k: Cell :: k in Board(n, m) <==> 0 <= k.0 < n && 0 <= k.1 < m
    decreases n
  {
    if n > 0 {
      BoardHolds(n - 1, m);
      LineHolds(n - 1, m);
    }
  }

  lemma {:induction false} Disjoint(n: nat, m: nat)
    ensures Board(n, m) * Line(n, m) == {}
  {
    BoardHolds(n, m);
    LineHolds(n, m);
  }

  lemma CardSum(a: set<Cell>, b: set<Cell>, r: set<Cell>)
    requires a * b == {} && r == a + b
    ensures |r| == |a| + |b|
  {
  }

  lemma OneMoreRow(n: nat, m: nat)
    ensures n * m == (n - 1) * m + m
  {
  }

  lemma {:induction false} BoardCount(n: nat, m: nat)
    ensures |Board(n, m)| == n * m
    decreases n
  {
    if n > 0 {
      BoardCount(n - 1, m);
      LineCount(n - 1, m);
      Disjoint(n - 1, m);
      OneMoreRow(n, m);
      CardSum(Board(n - 1, m), Line(n - 1, m), Board(n, m));
    }
  }

  /** Distinct cells of a set are no more than its size. */
  lemma {:induction false} Pigeonhole(ks: seq<Cell>, all: set<Cell>)
    requires forall i, j | 0 <= i < j < |ks| :: ks[i] != ks[j]
    requires forall i | 0 <= i < |ks| :: ks[i] in all
    ensures |ks| <= |all|
    decreases |ks|
  {
    if ks != [] {
      var n := |ks| - 1;
      forall i | 0 <= i < n
        ensures ks[..n][i] in all - {ks[n]}
      {
        assert ks[i] != ks[n];
      }
      Pigeonhole(ks[..n], all - {ks[n]});
    }
  }

  lemma CellsFit(ks: seq<Cell>, n: nat, m: nat)
    requires forall i, j | 0 <= i < j < |ks| :: ks[i] != ks[j]
    requires forall i | 0 <= i < |ks| :: 0 <= ks[i].0 < n && 0 <= ks[i].1 < m
    ensures |ks| <= n * m
  {
    BoardHolds(n, m);
    BoardCount(n, m);
    Pigeonhole(ks, Board(n, m));
  }

  /** Each new entry has a cell of its own, and each tried entry a slot: the limits that the
      reader enforces are met. */
  lemma CountsFit(c: Config, s: Db)
    requires c.Valid() && Consistent(c, s)
    ensures |Ids(s, false)| <= c.newBuckets * c.bucketSize
    ensures |Ids(s, true)| <= c.triedBuckets * c.bucketSize
  {
    NewFit(c, s);
    TriedFit(c, s);
  }

  lemma NewFit(c: Config, s: Db)
    requires c.Valid() && Consistent(c, s)
    ensures |Ids(s, false)| <= c.newBuckets * c.bucketSize
  {
    var news, rows := Entries(s.mapInfo, Ids(s, false)), Rows(c, s);
    var ks := seq(|news|, x requires 0 <= x < |news| => CellOf(c, news, rows, x));
    FormerCellsDiffer(c, s);
    forall i | 0 <= i < |ks|
      ensures 0 <= ks[i].0 < c.newBuckets && 0 <= ks[i].1 < c.bucketSize
    {
      FormerCell(c, s, i);
    }
    CellsFit(ks, c.newBuckets, c.bucketSize);
  }

  lemma TriedFit(c: Config, s: Db)
    requires c.Valid() && Consistent(c, s)
    ensures |Ids(s, true)| <= c.triedBuckets * c.bucketSize
  {
    var trieds := Entries(s.mapInfo, Ids(s, true));
    var ks := seq(|trieds|, i requires 0 <= i < |trieds| => c.TriedSlot(trieds[i].addr));
    FormerSlotsDiffer(c, s);
    CellsFit(ks, c.triedBuckets, c.bucketSize);
  }

  // ------------------------------------------------------------- the round trip

  /** How many buckets the reader takes the lists to be for. */
  function Announced(st: Stream): nat { if st.version != 0 then Xor(st.uBuckets, BUCKET_FLAG) else st.uBuckets }

  /** May the former buckets be used? */
  predicate Keeps(c: Config, st: Stream, asmap: int) {
    st.version == 2 && Announced(st) == c.newBuckets && st.asmapVersion == asmap
  }

  /** The stream passes the reader's tests. */
  predicate Accepted(c: Config, st: Stream) {
    && st.keySize == 32
    && |st.news| <= c.newBuckets * c.bucketSize && |st.trieds| <= c.triedBuckets * c.bucketSize
  }

  /** As many bucket lists as announced. */
  predicate Framed(st: Stream) { |st.buckets| == Announced(st) }

  lemma {:induction false} XorTwice(a: nat, b: nat)
    ensures Xor(Xor(a, b), b) == a
  {
    XorAssoc(a, b, b);
    XorSelf(b);
    XorComm(a, 0);
  }

  /** Saving a consistent manager and reading the stream into an empty one with the same
      key and asmap loses nothing: the reader's tests pass, every address comes back with
      its saved data and in its table, every tried slot holds the same address, and every
      new address keeps exactly one of its former cells. */
  lemma SaveThenLoad(c: Config, e: Db, s: Db, key: int, asmap: int)
    requires c.Valid() && Consistent(c, s) && EmptyTables(c, e)
    ensures var st := Written(c, s, key, asmap);
            var r := Loaded(c, e, st, Keeps(c, st, asmap));
            Framed(st) && Accepted(c, st) && Keeps(c, st, asmap) && Consistent(c, r) && Restored(s, r)
  {
    var st := Written(c, s, key, asmap);
    XorTwice(c.newBuckets, BUCKET_FLAG);
    CountsFit(c, s);
    LoadedAs(c, e, s, st);
    AllRestored(c, s, Loaded(c, e, st, true), st);
  }
}
