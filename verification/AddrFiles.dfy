/** Serialize and Unserialize, loop by loop. */
module AddrFiles {
  import opened Basics
  import BitXor
  import opened AddrTables
  import opened AddrManager
  import opened AddrStore
  import opened AddrSaves
  import opened AddrRebuckets

  // ------------------------------------------------------------------- writing

  /** out lists what is saved of the chosen ids below n. */
  ghost predicate ListedUpTo(m: Infos, tried: bool, n: nat, out: seq<Info>) {
    && |out| == |Listing(m, tried, n)|
    && forall i | 0 <= i < |out| :: Listing(m, tried, n)[i] in m && out[i] == Saved(m[Listing(m, tried, n)[i]])
  }

  lemma ListedNext(m: Infos, tried: bool, n: nat, out: seq<Info>)
    requires ListedUpTo(m, tried, n, out)
    ensures ListedUpTo(m, tried, n + 1, if Chosen(m, n, tried) then out + [Saved(m[n])] else out)
  {
  }

  /** There is room for one more entry: the code's assertion on the count. */
  lemma {:induction false} CountBelow(c: Config, s: Db, tried: bool, n: nat)
    requires c.Valid() && Consistent(c, s) && n < s.nIdCount && Chosen(s.mapInfo, n, tried)
    ensures |Listing(s.mapInfo, tried, n)| != if tried then s.nTried else s.nNew
  {
    ListingAt(s.mapInfo, tried, s.nIdCount, n);
    CountsWritten(c, s);
  }

  ghost predicate PlaceKnown(m: Infos, unkIds: map<int, int>, id: int) {
    id in unkIds && id >= 0 && unkIds[id] == Place(m, id)
  }

  ghost predicate PlacesKnown(m: Infos, unkIds: map<int, int>) {
    forall id | id in m :: PlaceKnown(m, unkIds, id)
  }

  /** The first loop: new entries, and where each of them is listed. */
  method WriteNews(man: AddrMan) returns (news: seq<Info>, mapUnkIds: map<int, int>)
    requires man.Valid()
    ensures news == Entries(man.mapInfo, Ids(man.Abs(), false))
    ensures PlacesKnown(man.mapInfo, mapUnkIds)
  {
    ghost var s := man.Abs();
    news, mapUnkIds := [], map[];
    var nIds := 0;
    for n := 0 to man.nIdCount
      invariant ListedUpTo(man.mapInfo, false, n, news) && nIds == |news|
      invariant forall id | id in man.mapInfo && 0 <= id < n :: PlaceKnown(man.mapInfo, mapUnkIds, id)
    {
      ListedNext(man.mapInfo, false, n, news);
      if n in man.mapInfo {
        mapUnkIds := mapUnkIds[n := nIds];
        if man.mapInfo[n].nRefCount != 0 {
          CountBelow(man.cfg, s, false, n);
          assert nIds != man.nNew;
          news := news + [Saved(man.mapInfo[n])];
          nIds := nIds + 1;
        }
      }
    }
  }

  method WriteTrieds(man: AddrMan) returns (trieds: seq<Info>)
    requires man.Valid()
    ensures trieds == Entries(man.mapInfo, Ids(man.Abs(), true))
  {
    ghost var s := man.Abs();
    trieds := [];
    var nIds := 0;
    for n := 0 to man.nIdCount
      invariant ListedUpTo(man.mapInfo, true, n, trieds) && nIds == |trieds|
    {
      ListedNext(man.mapInfo, true, n, trieds);
      if n in man.mapInfo && man.mapInfo[n].fInTried {
        CountBelow(man.cfg, s, true, n);
        assert nIds != man.nTried;
        trieds := trieds + [Saved(man.mapInfo[n])];
        nIds := nIds + 1;
      }
    }
  }

  /** The entries of one bucket, as places in the list of new entries. */
  method WriteBucket(man: AddrMan, bucket: int, mapUnkIds: map<int, int>) returns (row: seq<int>)
    requires man.Shape() && 0 <= bucket < man.cfg.newBuckets
    requires forall k | k in Tab(man.vvNew) && Tab(man.vvNew)[k] != -1 :: Tab(man.vvNew)[k] in man.mapInfo
    requires PlacesKnown(man.mapInfo, mapUnkIds)
    ensures row == Row(man.mapInfo, Tab(man.vvNew), bucket, man.cfg.bucketSize)
  {
    row := [];
    for i := 0 to man.vvNew.Length1
      invariant row == Row(man.mapInfo, Tab(man.vvNew), bucket, i)
    {
      var id := man.vvNew[bucket, i];
      ghost var k := (bucket, i);
      TabAt(man.vvNew, k);
      assert k in Tab(man.vvNew) && Tab(man.vvNew)[k] == id;
      if id != -1 {
        assert PlaceKnown(man.mapInfo, mapUnkIds, id);
        row := row + [mapUnkIds[id]];
      }
    }
  }

  lemma NewCellsKnown(c: Config, s: Db)
    requires c.Valid() && Consistent(c, s)
    ensures forall k | k in s.vvNew && s.vvNew[k] != -1 :: s.vvNew[k] in s.mapInfo
  {
  }

  method WriteBuckets(man: AddrMan, mapUnkIds: map<int, int>) returns (rows: seq<seq<int>>)
    requires man.Valid()
    requires PlacesKnown(man.mapInfo, mapUnkIds)
    ensures rows == Rows(man.cfg, man.Abs())
  {
    rows := [];
    NewCellsKnown(man.cfg, man.Abs());
    for bucket := 0 to man.vvNew.Length0
      invariant |rows| == bucket
      invariant forall b | 0 <= b < bucket :: rows[b] == Row(man.mapInfo, Tab(man.vvNew), b, man.cfg.bucketSize)
    {
      var row := WriteBucket(man, bucket, mapUnkIds);
      rows := rows + [row];
    }
  }

  /** The manager's state as a stream. */
  method Serialize(man: AddrMan, nKey: int, asmap: int) returns (st: Stream)
    requires man.Valid()
    ensures st == Written(man.cfg, man.Abs(), nKey, asmap)
    ensures |st.news| == man.nNew && |st.trieds| == man.nTried
  {
    CountsWritten(man.cfg, man.Abs());
    var news, mapUnkIds := WriteNews(man);
    var trieds := WriteTrieds(man);
    var buckets := WriteBuckets(man, mapUnkIds);
    st := Stream(2, 32, nKey, news, trieds, BitXor.Xor(man.cfg.newBuckets, BUCKET_FLAG), buckets, asmap);
  }

  // ------------------------------------------------------------------- reading

  /** Ids and the random order stay inverse to each other. */
  ghost predicate Indexed(s: Db) { IdsOk(s.mapInfo, s.nIdCount) && RandomOk(s.mapInfo, s.vRandom) }

  lemma EnterIndexed(s: Db, info: Info)
    requires Indexed(s)
    ensures Indexed(Enter(s, info))
  {
    EnterIndexes(s, info);
  }

  lemma EnterTriedIndexed(c: Config, s: Db, info: Info)
    requires c.Valid() && Indexed(s)
    ensures Indexed(EnterTried(c, s, info))
  {
    EnterIndexes(s, info);
  }

  lemma SettleIndexed(c: Config, s: Db, id: int, bucket: int, keep: bool)
    requires c.Valid() && Indexed(s)
    ensures Indexed(Settle(c, s, id, bucket, keep))
  {
  }

  lemma PruneIndexed(s: Db, id: int)
    requires Indexed(s)
    ensures Indexed(Prune(s, id)) && (Lost(s, id) ==> CanDelete(s, id))
  {
    if Lost(s, id) {
      DeleteShape(s, id);
    }
  }

  /** The first loop: entry n of the stream gets id n. */
  method ReadNew(man: AddrMan, n: int, info: Info)
    requires man.Shape()
    modifies man`mapInfo, man`mapAddr, man`vRandom
    ensures man.Abs() ==
            Enter(old(man.Abs()).(nIdCount := n), info).(nIdCount := old(man.nIdCount), nNew := old(man.nNew))
  {
    SetTwice(man.mapInfo, n, Saved(info), Saved(info).(nRandomPos := |man.vRandom|));
    man.mapInfo := man.mapInfo[n := Saved(info)];
    man.mapAddr := man.mapAddr[info.addr.ip := n];
    man.mapInfo := man.mapInfo[n := man.mapInfo[n].(nRandomPos := |man.vRandom|)];
    man.vRandom := man.vRandom + [n];
  }

  lemma {:induction false} NewsCount(e: Db, infos: seq<Info>, n: nat)
    requires n <= |infos| && Indexed(e)
    ensures var r := News(e, infos, n);
            && r.nIdCount == e.nIdCount + n && r.nNew == e.nNew + n && r.nTried == e.nTried && Indexed(r)
    decreases n
  {
    if n > 0 {
      NewsCount(e, infos, n - 1);
      EnterIndexed(News(e, infos, n - 1), infos[n - 1]);
    }
  }

  /** While the counters already announce everything. */
  function Ahead(s: Db, nNew: int, nTried: int): Db { s.(nIdCount := 0, nNew := nNew, nTried := nTried) }

  method ReadNews(man: AddrMan, news: seq<Info>, ghost e: Db, ghost t: int)
    requires man.Shape() && e.nIdCount == 0 && e.nNew == 0 && Indexed(e)
    requires man.Abs() == Ahead(e, |news|, t)
    modifies man`mapInfo, man`mapAddr, man`vRandom, man`nIdCount
    ensures man.Abs() == News(e, news, |news|).(nTried := t)
  {
    for n := 0 to |news|
      invariant man.Abs() == Ahead(News(e, news, n), |news|, t)
    {
      NewsCount(e, news, n);
      ReadNew(man, n, news[n]);
    }
    NewsCount(e, news, |news|);
    man.nIdCount := |news|;
  }

  /** A tried entry whose slot is free is entered; nTried counts it only at the end. */
  method ReadTried(man: AddrMan, info: Info) returns (lost: bool)
    requires man.Shape()
    modifies man`nIdCount, man`mapInfo, man`mapAddr, man`vRandom, man.vvTried
    ensures man.Abs() == EnterTried(man.cfg, old(man.Abs()), info).(nTried := old(man.nTried))
    ensures EnterTried(man.cfg, old(man.Abs()), info).nTried == old(man.nTried) + if lost then 0 else 1
  {
    var slot := man.cfg.TriedSlot(info.addr);
    TabAt(man.vvTried, slot);
    lost := man.vvTried[slot.0, slot.1] != -1;
    if !lost {
      SetTwice(man.mapInfo, man.nIdCount, Saved(info).(nRandomPos := |man.vRandom|),
               Saved(info).(nRandomPos := |man.vRandom|, fInTried := true));
      EnterAt(man, info);
      Put(man.vvTried, slot.0, slot.1, man.nIdCount);
      man.nIdCount := man.nIdCount + 1;
    }
  }

  method EnterAt(man: AddrMan, info: Info)
    requires man.Shape()
    modifies man`mapInfo, man`mapAddr, man`vRandom
    ensures man.mapInfo ==
            old(man.mapInfo)[man.nIdCount := Saved(info).(nRandomPos := |old(man.vRandom)|, fInTried := true)]
    ensures man.mapAddr == old(man.mapAddr)[info.addr.ip := man.nIdCount]
    ensures man.vRandom == old(man.vRandom) + [man.nIdCount]
  {
    var read := Saved(info).(nRandomPos := |man.vRandom|, fInTried := true);
    man.vRandom := man.vRandom + [man.nIdCount];
    man.mapInfo := man.mapInfo[man.nIdCount := read];
    man.mapAddr := man.mapAddr[info.addr.ip := man.nIdCount];
  }

  lemma TriedsNext(c: Config, s: Db, infos: seq<Info>, j: nat)
    requires c.Valid() && j < |infos|
    ensures Trieds(c, s, infos, j + 1) == EnterTried(c, Trieds(c, s, infos, j), infos[j])
  {
  }

  /** nTried makes no difference to what is entered. */
  lemma EnterTriedAnyCount(c: Config, s: Db, info: Info, t: int)
    requires c.Valid()
    ensures var r, q := EnterTried(c, s, info), EnterTried(c, s.(nTried := t), info);
            q.(nTried := t) == r.(nTried := t) && q.nTried - t == r.nTried - s.nTried
  {
    PromoteAnyCount(Enter(s, info), s.nIdCount, c.TriedSlot(info.addr), t);
  }

  lemma PromoteAnyCount(s: Db, id: int, slot: Cell, t: int)
    requires id in s.mapInfo
    ensures var r, q := Promote(s, id, slot), Promote(s.(nTried := t), id, slot);
            q.(nTried := t) == r.(nTried := t) && q.nTried - t == r.nTried - s.nTried
  {
  }

  method ReadTrieds(man: AddrMan, trieds: seq<Info>, ghost s: Db)
    requires man.Shape() && s.nTried == 0 && man.Abs() == s.(nTried := |trieds|)
    modifies man`nIdCount, man`mapInfo, man`mapAddr, man`vRandom, man`nTried, man.vvTried
    ensures man.Abs() == Trieds(man.cfg, s, trieds, |trieds|)
  {
    var nLost := 0;
    ghost var t := |trieds|;
    for n := 0 to |trieds|
      invariant man.Abs() == Trieds(man.cfg, s, trieds, n).(nTried := t)
      invariant Trieds(man.cfg, s, trieds, n).nTried == n - nLost
    {
      ghost var p := Trieds(man.cfg, s, trieds, n);
      TriedsNext(man.cfg, s, trieds, n);
      EnterTriedAnyCount(man.cfg, p, trieds[n], t);
      var lost := ReadTried(man, trieds[n]);
      if lost {
        nLost := nLost + 1;
      }
    }
    man.nTried := man.nTried - nLost;
  }

  // ------------------------------------------------------------- the new table

  function BucketFor(entryToBucket: map<int, int>, x: int): int { if x in entryToBucket then entryToBucket[x] else 0 }

  /** Which bucket the first b lists, and the first n indices of the next one, give to x. */
  function BucketSoFar(buckets: seq<seq<int>>, b: nat, n: nat, x: int): int
    requires b < |buckets| && n <= |buckets[b]|
  {
    if x in buckets[b][..n] then b else LastBucket(buckets, x, b)
  }

  lemma BucketNext(buckets: seq<seq<int>>, b: nat, n: nat, x: int)
    requires b < |buckets| && n < |buckets[b]|
    ensures BucketSoFar(buckets, b, n + 1, x) == if x == buckets[b][n] then b else BucketSoFar(buckets, b, n, x)
  {
    assert buckets[b][..n + 1] == buckets[b][..n] + [buckets[b][n]];
  }

  method ReadBucket(buckets: seq<seq<int>>, b: nat, nNew: int, before: map<int, int>)
    returns (entryToBucket: map<int, int>)
    requires b < |buckets| && forall x | 0 <= x < nNew :: BucketFor(before, x) == LastBucket(buckets, x, b)
    ensures forall x | 0 <= x < nNew :: BucketFor(entryToBucket, x) == LastBucket(buckets, x, b + 1)
  {
    entryToBucket := before;
    for n := 0 to |buckets[b]|
      invariant forall x | 0 <= x < nNew :: BucketFor(entryToBucket, x) == BucketSoFar(buckets, b, n, x)
    {
      var nIndex := buckets[b][n];
      ghost var was := entryToBucket;
      if 0 <= nIndex < nNew {
        entryToBucket := entryToBucket[nIndex := b];
      }
      forall x | 0 <= x < nNew
        ensures BucketFor(entryToBucket, x) == BucketSoFar(buckets, b, n + 1, x)
      {
        assert BucketFor(was, x) == BucketSoFar(buckets, b, n, x);
        BucketNext(buckets, b, n, x);
      }
    }
    assert buckets[b][..|buckets[b]|] == buckets[b];
  }

  method ReadBuckets(buckets: seq<seq<int>>, nNew: int) returns (entryToBucket: map<int, int>)
    ensures forall x | 0 <= x < nNew :: BucketFor(entryToBucket, x) == LastBucket(buckets, x, |buckets|)
  {
    entryToBucket := map[];
    for b := 0 to |buckets|
      invariant forall x | 0 <= x < nNew :: BucketFor(entryToBucket, x) == LastBucket(buckets, x, b)
    {
      entryToBucket := ReadBucket(buckets, b, nNew, entryToBucket);
    }
  }

  /** One entry gets its cell. */
  method SettleAt(man: AddrMan, n: int, bucket: int, keep: bool)
    requires man.Shape() && n in man.mapInfo && (keep ==> 0 <= bucket < man.cfg.newBuckets)
    modifies man`mapInfo, man.vvNew
    ensures man.Abs() == Settle(man.cfg, old(man.Abs()), n, bucket, keep)
    ensures man.mapInfo.Keys == old(man.mapInfo).Keys
  {
    var info := man.mapInfo[n];
    var k := (bucket, man.cfg.BucketPosition(true, bucket, info.addr));
    TabAt(man.vvNew, k);
    if keep && man.vvNew[k.0, k.1] == -1 && info.nRefCount < MAX_REFS {
      man.Reference(n, k);
    } else {
      var j := man.cfg.NewSlot(info.addr, info.source);
      TabAt(man.vvNew, j);
      if man.vvNew[j.0, j.1] == -1 {
        man.Reference(n, j);
      }
    }
  }

  lemma {:induction false} BucketInRange(buckets: seq<seq<int>>, x: int, n: nat)
    requires n <= |buckets|
    ensures 0 <= LastBucket(buckets, x, n) && (0 < n ==> LastBucket(buckets, x, n) < n)
    decreases n
  {
    if n > 0 {
      BucketInRange(buckets, x, n - 1);
    }
  }

  lemma SettlesNext(c: Config, s: Db, buckets: seq<seq<int>>, keep: bool, n: nat)
    requires c.Valid()
    ensures Settles(c, s, buckets, keep, n + 1) ==
            Settle(c, Settles(c, s, buckets, keep, n), n, LastBucket(buckets, n, |buckets|), keep)
  {
  }

  method SettleAll(man: AddrMan, buckets: seq<seq<int>>, n: nat, keep: bool, ghost s: Db)
    requires man.Shape() && man.Abs() == s && (keep ==> |buckets| == man.cfg.newBuckets)
    requires Indexed(s) && forall x | 0 <= x < n :: x in s.mapInfo
    modifies man`mapInfo, man.vvNew
    ensures man.Abs() == Settles(man.cfg, s, buckets, keep, n) && Indexed(man.Abs())
  {
    var entryToBucket := ReadBuckets(buckets, n);
    for x := 0 to n
      invariant man.Abs() == Settles(man.cfg, s, buckets, keep, x)
      invariant man.mapInfo.Keys == s.mapInfo.Keys && Indexed(man.Abs())
    {
      var bucket := if x in entryToBucket then entryToBucket[x] else 0;
      assert bucket == BucketFor(entryToBucket, x);
      BucketInRange(buckets, x, |buckets|);
      SettlesNext(man.cfg, s, buckets, keep, x);
      SettleIndexed(man.cfg, man.Abs(), x, bucket, keep);
      SettleAt(man, x, bucket, keep);
    }
  }

  /** Entries left without a cell are deleted. */
  method PruneAll(man: AddrMan, ghost s: Db)
    requires man.Shape() && man.Abs() == s && Indexed(s)
    modifies man`mapInfo, man`mapAddr, man`vRandom, man`nNew
    ensures man.Abs() == Prunes(s, s.nIdCount)
  {
    for id := 0 to man.nIdCount
      invariant man.nIdCount == s.nIdCount && man.Abs() == Prunes(s, id) && Indexed(man.Abs())
    {
      PruneIndexed(man.Abs(), id);
      if id in man.mapInfo && !man.mapInfo[id].fInTried && man.mapInfo[id].nRefCount == 0 {
        man.Delete(id);
      }
    }
  }

  // ----------------------------------------------------------------- all of it

  ghost predicate HoldsBelow(s: Db, n: nat) { forall x | 0 <= x < n :: x in s.mapInfo }

  lemma {:induction false} NewsHold(e: Db, infos: seq<Info>, n: nat)
    requires n <= |infos| && Indexed(e) && e.nIdCount == 0
    ensures HoldsBelow(News(e, infos, n), n)
    decreases n
  {
    if n > 0 {
      NewsHold(e, infos, n - 1);
      NewsCount(e, infos, n - 1);
    }
  }

  lemma {:induction false} TriedsHold(c: Config, s: Db, infos: seq<Info>, j: nat, n: nat)
    requires c.Valid() && j <= |infos| && Indexed(s) && HoldsBelow(s, n)
    ensures Indexed(Trieds(c, s, infos, j)) && HoldsBelow(Trieds(c, s, infos, j), n)
    decreases j
  {
    if j > 0 {
      TriedsHold(c, s, infos, j - 1, n);
      EnterTriedIndexed(c, Trieds(c, s, infos, j - 1), infos[j - 1]);
    }
  }

  /** An empty manager's state. */
  ghost function Nothing(c: Config): Db {
    EmptyDb(Blanks(c.triedBuckets, c.bucketSize), Blanks(c.newBuckets, c.bucketSize))
  }

  lemma NothingIsBlank(c: Config)
    requires c.Valid()
    ensures EmptyTables(c, Nothing(c))
  {
    EmptyConsistent(c, Nothing(c).vvTried, Nothing(c).vvNew);
  }

  /** The entries of the stream are read into an empty manager. */
  method Fill(man: AddrMan, st: Stream, keep: bool)
    requires man.Shape() && man.Abs() == Nothing(man.cfg) && (keep ==> |st.buckets| == man.cfg.newBuckets)
    modifies man, man.vvTried, man.vvNew
    ensures man.Abs() == Filled(man.cfg, Nothing(man.cfg), st, keep) && Indexed(man.Abs())
  {
    ghost var e := Nothing(man.cfg);
    man.nNew, man.nTried := |st.news|, |st.trieds|;
    ReadNews(man, st.news, e, |st.trieds|);
    ghost var a := News(e, st.news, |st.news|);
    NewsCount(e, st.news, |st.news|);
    NewsHold(e, st.news, |st.news|);
    ReadTrieds(man, st.trieds, a);
    TriedsHold(man.cfg, a, st.trieds, |st.trieds|, |st.news|);
    ghost var b := Trieds(man.cfg, a, st.trieds, |st.trieds|);
    SettleAll(man, st.buckets, |st.news|, keep, b);
  }

  /** The keyed hashes, for every key and asmap. */
  type Family = (int, int) -> Config

  /** Which entry each cell went to: to the first that wants it, in the new table if the
      former buckets cannot be used. */
  ghost predicate Placed(c: Config, s: Db, st: Stream, asmap: int)
    requires c.Valid()
  {
    && AllHeld(s, st.trieds, TriedWants(c, st.trieds), |st.trieds|)
    && (st.version != 2 || BitXor.Xor(st.uBuckets, 0x40000000) != c.newBuckets || st.asmapVersion != asmap ==>
          FirstCome(c, s.vvNew, NewWants(c, st.news), |st.news|))
  }

  lemma LoadedPlaced(c: Config, st: Stream, asmap: int)
    requires c.Valid()
    ensures Placed(c, Loaded(c, Nothing(c), st, Keeps(c, st, asmap)), st, asmap)
  {
    NothingIsBlank(c);
    TriedRebuilt(c, Nothing(c), st, Keeps(c, st, asmap));
    NewRebucketed(c, Nothing(c), st);
  }

  /** Reading a stream fails exactly on a wrong key size or a count over its limit. Whatever
      the stream holds, the manager is consistent exactly if no address that stands twice has
      found a place, in particular if the addresses are distinct. */
  method Unserialize(st: Stream, family: Family, asmap: int) returns (r: Option<AddrMan>)
    requires Framed(st) && family(st.key, asmap).Valid()
    ensures r.Some? <==>
            var c := family(st.key, asmap);
            && st.keySize == 32
            && |st.news| <= c.newBuckets * c.bucketSize && |st.trieds| <= c.triedBuckets * c.bucketSize
    ensures r.Some? ==> fresh(r.value) && r.value.cfg == family(st.key, asmap) && r.value.Shape()
    ensures r.Some? ==>
              r.value.Abs() == Loaded(r.value.cfg, Nothing(r.value.cfg), st, Keeps(r.value.cfg, st, asmap))
    ensures r.Some? ==>
              var f := Filled(r.value.cfg, Nothing(r.value.cfg), st, Keeps(r.value.cfg, st, asmap));
              && (r.value.Valid() <==> Unrepeated(f))
              && (Distinct(st.news + st.trieds) ==> r.value.Valid())
    ensures r.Some? ==> Placed(r.value.cfg, r.value.Abs(), st, asmap)
  {
    var c := family(st.key, asmap);
    if st.keySize != 32 {
      return None;
    }
    if |st.news| > c.newBuckets * c.bucketSize {
      return None;
    }
    if |st.trieds| > c.triedBuckets * c.bucketSize {
      return None;
    }
    var man := new AddrMan(c);
    var nUBuckets := if st.version != 0 then BitXor.Xor(st.uBuckets, BUCKET_FLAG) else st.uBuckets;
    var keep := st.version == 2 && nUBuckets == c.newBuckets && st.asmapVersion == asmap;
    Fill(man, st, keep);
    PruneAll(man, man.Abs());
    NothingIsBlank(c);
    LoadedIff(c, Nothing(c), st, keep);
    LoadedPlaced(c, st, asmap);
    if Distinct(st.news + st.trieds) {
      LoadedConsistent(c, Nothing(c), st, keep);
    }
    return Some(man);
  }

  /** Saving a manager and reading it back with the same key and asmap restores it. */
  method SaveAndLoad(man: AddrMan, nKey: int, asmap: int, family: Family) returns (r: Option<AddrMan>)
    requires man.Valid() && family(nKey, asmap) == man.cfg
    ensures r.Some? && r.value.Valid() && Restored(man.Abs(), r.value.Abs())
  {
    var st := Serialize(man, nKey, asmap);
    NothingIsBlank(man.cfg);
    SaveThenLoad(man.cfg, Nothing(man.cfg), man.Abs(), nKey, asmap);
    r := Unserialize(st, family, asmap);
  }
}
