/** Saving the address manager and reading it back, on values. The tried table is not
    written: it is rebuilt from the addresses. Of the new table, only the bucket of
    each address is used. */
module AddrStore {
  import opened AddrTables

  /** What is written for an entry; the rest is kept in memory only. */
  function Saved(i: Info): Info {
    i.(nLastTry := 0, nLastCountAttempt := 0, nRefCount := 0, fInTried := false, nRandomPos := -1)
  }

  datatype Stream = Stream(
    version: int, keySize: int, key: int, news: seq<Info>, trieds: seq<Info>,
    uBuckets: nat, buckets: seq<seq<int>>, asmapVersion: int)

  // ------------------------------------------------------------------ entries

  /** An entry read from the stream takes the next id. */
  function Enter(s: Db, info: Info): Db {
    var id := s.nIdCount;
    s.(nIdCount := id + 1, mapInfo := s.mapInfo[id := Saved(info).(nRandomPos := |s.vRandom|)],
       mapAddr := s.mapAddr[info.addr.ip := id], vRandom := s.vRandom + [id], nNew := s.nNew + 1)
  }

  /** A tried entry is kept if its slot is still free. */
  function EnterTried(c: Config, s: Db, info: Info): Db
    requires c.Valid()
  {
    var slot := c.TriedSlot(info.addr);
    if slot in s.vvTried && s.vvTried[slot] == -1 then Promote(Enter(s, info), s.nIdCount, slot).(nNew := s.nNew) else s
  }

  /** The invariant but for mapAddr. */
  ghost predicate Body(c: Config, s: Db, free: set<int>)
    requires c.Valid()
  {
    && IdsOk(s.mapInfo, s.nIdCount) && RandomOk(s.mapInfo, s.vRandom)
    && TablesOk(c, s.mapInfo, s.vvTried, s.vvNew, free) && CountsOk(s.mapInfo, s.nTried, s.nNew, 0)
  }

  /** Of entries with the same address, mapAddr knows the last. */
  ghost predicate Latest(m: Infos, a: map<NetAddr, int>) {
    && (forall id | id in m :: m[id].addr.ip in a && id <= a[m[id].addr.ip])
    && (forall ip | ip in a :: a[ip] in m && m[a[ip]].addr.ip == ip)
  }

  lemma EnterIndexes(s: Db, info: Info)
    requires IdsOk(s.mapInfo, s.nIdCount) && RandomOk(s.mapInfo, s.vRandom)
    ensures var r := Enter(s, info);
            && IdsOk(r.mapInfo, r.nIdCount) && RandomOk(r.mapInfo, r.vRandom)
            && (Latest(s.mapInfo, s.mapAddr) ==> Latest(r.mapInfo, r.mapAddr))
  {
  }

  lemma EnterTables(c: Config, m: Infos, t: Table, n: Table, id: int, info: Info, free: set<int>)
    requires c.Valid() && TablesOk(c, m, t, n, free) && id !in m && id != -1 && !info.fInTried && info.nRefCount == 0
    ensures TablesOk(c, m[id := info], t, n, free + {id})
    ensures TriedIds(m[id := info]) == TriedIds(m) && NewIds(m[id := info]) == NewIds(m) + {id}
  {
    assert CellsOf(n, id) == {};
  }

  lemma EnterOk(c: Config, s: Db, info: Info, free: set<int>)
    requires c.Valid() && Body(c, s, free) && Latest(s.mapInfo, s.mapAddr)
    ensures var r := Enter(s, info); Body(c, r, free + {s.nIdCount}) && Latest(r.mapInfo, r.mapAddr)
  {
    EnterIndexes(s, info);
    var r := Enter(s, info);
    EnterTables(c, s.mapInfo, s.vvTried, s.vvNew, s.nIdCount, r.mapInfo[s.nIdCount], free);
  }

  lemma EnterTriedOk(c: Config, s: Db, info: Info, free: set<int>, r: Db)
    requires c.Valid() && Body(c, s, free) && Latest(s.mapInfo, s.mapAddr) && s.nIdCount !in free
    requires r == EnterTried(c, s, info)
    ensures Body(c, r, free) && Latest(r.mapInfo, r.mapAddr)
  {
    var slot := c.TriedSlot(info.addr);
    if slot in s.vvTried && s.vvTried[slot] == -1 {
      EnterOk(c, s, info, free);
      PromoteNew(c, Enter(s, info), s.nIdCount, slot, free, r);
    }
  }

  /** Replacing an entry by one of the same address and position. */
  lemma SetSame(s: Db, id: int, info: Info)
    requires IdsOk(s.mapInfo, s.nIdCount) && RandomOk(s.mapInfo, s.vRandom) && Latest(s.mapInfo, s.mapAddr)
    requires id in s.mapInfo && info.addr == s.mapInfo[id].addr && info.nRandomPos == s.mapInfo[id].nRandomPos
    ensures var m := s.mapInfo[id := info];
            IdsOk(m, s.nIdCount) && RandomOk(m, s.vRandom) && Latest(m, s.mapAddr)
  {
  }

  lemma PromoteNew(c: Config, s: Db, id: int, slot: Cell, free: set<int>, r: Db)
    requires c.Valid() && Body(c, s, free + {id}) && Latest(s.mapInfo, s.mapAddr) && id !in free && Lost(s, id)
    requires slot == c.TriedSlot(s.mapInfo[id].addr) && slot in s.vvTried && s.vvTried[slot] == -1
    requires r == Promote(s, id, slot).(nNew := s.nNew - 1)
    ensures Body(c, r, free) && Latest(r.mapInfo, r.mapAddr)
  {
    PromoteTables(c, s.mapInfo, s.vvTried, s.vvNew, id, free + {id});
    assert free + {id} - {id} == free;
    var info := s.mapInfo[id].(fInTried := true);
    SetSame(s, id, info);
    IdsUpdate(s.mapInfo, id, info);
  }

  // --------------------------------------------------------------- placement

  /** A new entry goes to its former bucket if that can be used, and otherwise to the
      bucket of its source; it stays without a cell if that one is taken. */
  function Settle(c: Config, s: Db, id: int, bucket: int, keep: bool): Db
    requires c.Valid()
  {
    if id !in s.mapInfo then s
    else
      var info := s.mapInfo[id];
      var k := (bucket, c.BucketPosition(true, bucket, info.addr));
      if keep && k in s.vvNew && s.vvNew[k] == -1 && info.nRefCount < MAX_REFS then Ref(s, id, k)
      else
        var j := c.NewSlot(info.addr, info.source);
        if j in s.vvNew && s.vvNew[j] == -1 then Ref(s, id, j) else s
  }

  lemma TablesMoreFree(c: Config, m: Infos, t: Table, n: Table, less: set<int>, more: set<int>)
    requires c.Valid() && TablesOk(c, m, t, n, less) && less <= more
    ensures TablesOk(c, m, t, n, more)
  {
  }

  lemma RefTablesFree(c: Config, m: Infos, t: Table, n: Table, id: int, k: Cell, free: set<int>, w: Infos)
    requires c.Valid() && TablesOk(c, m, t, n, free) && -1 !in m
    requires id in m && !m[id].fInTried && m[id].nRefCount < MAX_REFS
    requires k in n && n[k] == -1 && c.BucketPosition(true, k.0, m[id].addr) == k.1
    requires w == m[id := m[id].(nRefCount := m[id].nRefCount + 1)]
    ensures TablesOk(c, w, t, n[k := id], free)
  {
    RefTables(c, m, t, n, id, k, free);
    TablesMoreFree(c, w, t, n[k := id], free - {id}, free);
  }

  lemma RefBody(c: Config, s: Db, id: int, k: Cell, free: set<int>, r: Db)
    requires c.Valid() && Body(c, s, free) && Latest(s.mapInfo, s.mapAddr)
    requires id in s.mapInfo && !s.mapInfo[id].fInTried && s.mapInfo[id].nRefCount < MAX_REFS
    requires k in s.vvNew && s.vvNew[k] == -1 && c.BucketPosition(true, k.0, s.mapInfo[id].addr) == k.1
    requires r == Ref(s, id, k)
    ensures Body(c, r, free) && Latest(r.mapInfo, r.mapAddr)
  {
    var info := s.mapInfo[id].(nRefCount := s.mapInfo[id].nRefCount + 1);
    RefTablesFree(c, s.mapInfo, s.vvTried, s.vvNew, id, k, free, r.mapInfo);
    SetSame(s, id, info);
    IdsSame(s.mapInfo, id, info);
  }

  lemma SettleOk(c: Config, s: Db, id: int, bucket: int, keep: bool, free: set<int>, r: Db)
    requires c.Valid() && Body(c, s, free) && Latest(s.mapInfo, s.mapAddr)
    requires id in s.mapInfo && !s.mapInfo[id].fInTried && s.mapInfo[id].nRefCount == 0
    requires r == Settle(c, s, id, bucket, keep)
    ensures Body(c, r, free) && Latest(r.mapInfo, r.mapAddr)
  {
    var info := s.mapInfo[id];
    var k := (bucket, c.BucketPosition(true, bucket, info.addr));
    var j := c.NewSlot(info.addr, info.source);
    if keep && k in s.vvNew && s.vvNew[k] == -1 {
      RefBody(c, s, id, k, free, r);
    } else if j in s.vvNew && s.vvNew[j] == -1 {
      RefBody(c, s, id, j, free, r);
    }
  }

  // ----------------------------------------------------------------- pruning

  function Prune(s: Db, id: int): Db { if Lost(s, id) && CanDelete(s, id) then Delete(s, id) else s }

  ghost predicate PrunedAs(s: Db, r: Db, id: int) { if Lost(s, id) then Removed(s, r, id) else r == s }

  lemma RemovedBody(c: Config, s: Db, r: Db, id: int, free: set<int>)
    requires c.Valid() && Body(c, s, free) && Removed(s, r, id)
    requires !s.mapInfo[id].fInTried && s.mapInfo[id].nRefCount == 0
    ensures Body(c, r, free)
  {
    var m := s.mapInfo - {id};
    DropIds(s.mapInfo, id);
    DeleteTables(c, s.mapInfo, s.vvTried, s.vvNew, id, free);
    SameIds(r.mapInfo, m);
    SameTables(c, r.mapInfo, m, s.vvTried, s.vvNew, free);
  }

  lemma FewerFree(c: Config, s: Db, id: int, free: set<int>)
    requires c.Valid() && Body(c, s, free + {id}) && !Lost(s, id)
    ensures Body(c, s, free)
  {
    assert RefsOk(s.mapInfo, s.vvNew, free);
  }

  lemma PruneOk(c: Config, s: Db, id: int, free: set<int>, r: Db)
    requires c.Valid() && Body(c, s, free + {id}) && r == Prune(s, id)
    ensures Body(c, r, free) && PrunedAs(s, r, id)
  {
    if Lost(s, id) {
      DeleteShape(s, id);
      RemovedBody(c, s, r, id, free + {id});
    }
    FewerFree(c, r, id, free);
  }

  // ------------------------------------------------------------- whole loops

  function News(s: Db, infos: seq<Info>, n: nat): Db
    requires n <= |infos|
  {
    if n == 0 then s else Enter(News(s, infos, n - 1), infos[n - 1])
  }

  function Trieds(c: Config, s: Db, infos: seq<Info>, n: nat): Db
    requires c.Valid() && n <= |infos|
  {
    if n == 0 then s else EnterTried(c, Trieds(c, s, infos, n - 1), infos[n - 1])
  }

  /** The last of the first n buckets that lists entry x; the first bucket if none does. */
  function LastBucket(buckets: seq<seq<int>>, x: int, n: nat): int
    requires n <= |buckets|
  {
    if n == 0 then 0 else if x in buckets[n - 1] then n - 1 else LastBucket(buckets, x, n - 1)
  }

  function Settles(c: Config, s: Db, buckets: seq<seq<int>>, keep: bool, n: nat): Db
    requires c.Valid()
  {
    if n == 0 then s
    else Settle(c, Settles(c, s, buckets, keep, n - 1), n - 1, LastBucket(buckets, n - 1, |buckets|), keep)
  }

  function Prunes(s: Db, n: nat): Db { if n == 0 then s else Prune(Prunes(s, n - 1), n - 1) }

  /** The state before pruning. */
  function Filled(c: Config, e: Db, st: Stream, keep: bool): Db
    requires c.Valid()
  {
    var s := Trieds(c, News(e, st.news, |st.news|), st.trieds, |st.trieds|);
    Settles(c, s, st.buckets, keep, |st.news|)
  }

  /** What reading a stream into an empty manager gives. */
  function Loaded(c: Config, e: Db, st: Stream, keep: bool): Db
    requires c.Valid()
  {
    var s := Filled(c, e, st, keep);
    if s.nIdCount < 0 then s else Prunes(s, s.nIdCount)
  }

  ghost predicate Distinct(all: seq<Info>) {
    forall i, j | 0 <= i < j < |all| :: all[i].addr.ip != all[j].addr.ip
  }

  /** The addresses of the first n entries. */
  ghost function Ips(all: seq<Info>, n: nat): set<NetAddr>
    requires n <= |all|
  {
    if n == 0 then {} else Ips(all, n - 1) + {all[n - 1].addr.ip}
  }

  lemma {:induction false} NextIsNew(all: seq<Info>, n: nat, i: nat)
    requires n <= i < |all| && Distinct(all)
    ensures all[i].addr.ip !in Ips(all, n)
    decreases n
  {
    if n > 0 {
      NextIsNew(all, n - 1, i);
    }
  }

  /** Ids from a to b are new and without a cell. */
  ghost predicate Waiting(s: Db, a: int, b: int) { forall i | a <= i < b :: Lost(s, i) }

  predicate Between(i: int, a: int, b: int) { a <= i < b }

  ghost function Span(a: int, b: int): (r: set<int>)
    ensures forall i :: i in r <==> Between(i, a, b)
  {
    set i | a <= i < b && Between(i, a, b)
  }

  /** No two entries have the same address. */
  ghost predicate Injective(m: Infos) {
    forall i, j | i in m && j in m && i != j :: m[i].addr.ip != m[j].addr.ip
  }

  /** The entries so far have distinct addresses, all among the first i of the stream. */
  ghost predicate Fresh(s: Db, all: seq<Info>, i: nat)
    requires i <= |all|
  {
    && IdsOk(s.mapInfo, s.nIdCount) && Latest(s.mapInfo, s.mapAddr)
    && s.mapAddr.Keys <= Ips(all, i) && Injective(s.mapInfo)
  }

  lemma FreshNew(s: Db, all: seq<Info>, i: nat, r: Db, k: nat)
    requires i < |all| && Distinct(all) && Fresh(s, all, i) && r == Enter(s, all[i]) && k == i + 1
    ensures Fresh(r, all, k)
  {
    NextIsNew(all, i, i);
    assert forall id | id in s.mapInfo :: s.mapInfo[id].addr.ip in s.mapAddr;
    InjectiveMore(s.mapInfo, r.mapInfo, s.nIdCount);
  }

  lemma InjectiveMore(m: Infos, w: Infos, id: int)
    requires Injective(m) && id in w && w == m[id := w[id]]
    requires forall o | o in m :: m[o].addr.ip != w[id].addr.ip
    ensures Injective(w)
  {
  }

  lemma FreshTried(c: Config, s: Db, all: seq<Info>, i: nat, info: Info, r: Db, k: nat)
    requires c.Valid() && i < |all| && Distinct(all) && Fresh(s, all, i) && info == all[i]
    requires r == EnterTried(c, s, info) && k == i + 1
    ensures Fresh(r, all, k)
  {
    FreshNew(s, all, i, Enter(s, info), k);
    if r != s {
      FreshSame(Enter(s, info), r, all, k);
    }
  }

  lemma FreshSame(s: Db, r: Db, all: seq<Info>, i: nat)
    requires i <= |all| && Fresh(s, all, i) && r.mapAddr == s.mapAddr && r.nIdCount == s.nIdCount
    requires r.mapInfo.Keys == s.mapInfo.Keys && forall id | id in s.mapInfo :: r.mapInfo[id].addr == s.mapInfo[id].addr
    ensures Fresh(r, all, i)
  {
  }

  lemma {:induction false} NewsFresh(e: Db, infos: seq<Info>, all: seq<Info>, n: nat)
    requires n <= |infos| && infos <= all && Distinct(all) && Fresh(e, all, 0)
    ensures Fresh(News(e, infos, n), all, n)
    decreases n
  {
    if n > 0 {
      NewsFresh(e, infos, all, n - 1);
      FreshNew(News(e, infos, n - 1), all, n - 1, News(e, infos, n), n);
    }
  }

  lemma {:induction false} TriedsFresh(c: Config, s: Db, infos: seq<Info>, all: seq<Info>, n: nat, i: nat, k: nat)
    requires c.Valid() && n <= |all| && infos == all[n..] && i <= |infos| && k == n + i && Distinct(all)
    requires Fresh(s, all, n)
    ensures Fresh(Trieds(c, s, infos, i), all, k)
    decreases i
  {
    if i > 0 {
      TriedsFresh(c, s, infos, all, n, i - 1, k - 1);
      FreshTried(c, Trieds(c, s, infos, i - 1), all, k - 1, infos[i - 1], Trieds(c, s, infos, i), k);
    }
  }

  // ------------------------------------------------------- loops over the stream

  /** While the stream is read: ids below n wait for a cell. */
  ghost predicate Reading(c: Config, s: Db, n: nat)
    requires c.Valid()
  {
    && Body(c, s, Span(0, n)) && Latest(s.mapInfo, s.mapAddr) && n <= s.nIdCount && s.collisions == {}
    && Waiting(s, 0, n)
  }

  lemma ReadNew(c: Config, s: Db, info: Info, n: nat, r: Db, k: nat)
    requires c.Valid() && Reading(c, s, n) && s.nIdCount == n
    requires r == Enter(s, info) && k == n + 1
    ensures Reading(c, r, k)
  {
    EnterOk(c, s, info, Span(0, n));
    assert Span(0, n) + {n} == Span(0, k);
    EnterWaiting(s, info, n);
  }

  lemma EnterWaiting(s: Db, info: Info, n: nat)
    requires Waiting(s, 0, n) && s.nIdCount == n
    ensures Waiting(Enter(s, info), 0, n + 1)
  {
    forall i | 0 <= i < n + 1
      ensures Lost(Enter(s, info), i)
    {
      if i < n {
        assert Lost(s, i);
      }
    }
  }

  lemma TriedWaiting(c: Config, s: Db, info: Info, n: nat)
    requires c.Valid() && Waiting(s, 0, n) && n <= s.nIdCount
    ensures Waiting(EnterTried(c, s, info), 0, n)
  {
    forall i | 0 <= i < n
      ensures Lost(EnterTried(c, s, info), i)
    {
      assert Lost(s, i);
    }
  }

  lemma ReadTried(c: Config, s: Db, n: nat, info: Info, r: Db)
    requires c.Valid() && Reading(c, s, n) && r == EnterTried(c, s, info)
    ensures Reading(c, r, n)
  {
    EnterTriedOk(c, s, info, Span(0, n), r);
    TriedWaiting(c, s, info, n);
  }

  lemma {:induction false} NewsOk(c: Config, e: Db, infos: seq<Info>, n: nat)
    requires c.Valid() && n <= |infos| && Reading(c, e, 0) && e.nIdCount == 0
    ensures Reading(c, News(e, infos, n), n) && News(e, infos, n).nIdCount == n
    decreases n
  {
    if n > 0 {
      NewsOk(c, e, infos, n - 1);
      ReadNew(c, News(e, infos, n - 1), infos[n - 1], n - 1, News(e, infos, n), n);
    }
  }

  ghost predicate Follows(c: Config, ss: seq<Db>, infos: seq<Info>, i: nat)
    requires c.Valid() && i < |infos| && |ss| == |infos| + 1
  {
    ss[i + 1] == EnterTried(c, ss[i], infos[i])
  }

  /** The states between the turns of the loop over the tried entries. */
  ghost predicate TriedTrace(c: Config, ss: seq<Db>, infos: seq<Info>)
    requires c.Valid()
  {
    |ss| == |infos| + 1 && forall i: nat | i < |infos| :: Follows(c, ss, infos, i)
  }

  lemma {:induction false} TraceOk(c: Config, ss: seq<Db>, infos: seq<Info>, n: nat, i: nat)
    requires c.Valid() && i <= |infos| && TriedTrace(c, ss, infos) && Reading(c, ss[0], n)
    ensures Reading(c, ss[i], n)
    decreases i
  {
    if i > 0 {
      TraceOk(c, ss, infos, n, i - 1);
      assert Follows(c, ss, infos, i - 1);
      ReadTried(c, ss[i - 1], n, infos[i - 1], ss[i]);
    }
  }

  lemma {:induction false} TriedsOk(c: Config, s: Db, infos: seq<Info>, n: nat)
    requires c.Valid() && Reading(c, s, n)
    ensures Reading(c, Trieds(c, s, infos, |infos|), n)
  {
    TraceOk(c, TriedStates(c, s, infos), infos, n, |infos|);
  }

  ghost function TriedStates(c: Config, s: Db, infos: seq<Info>): (ss: seq<Db>)
    requires c.Valid()
    ensures TriedTrace(c, ss, infos) && ss[0] == s && ss[|infos|] == Trieds(c, s, infos, |infos|)
  {
    seq(|infos| + 1, i requires 0 <= i <= |infos| => Trieds(c, s, infos, i))
  }

  /** Ids from n on still wait. */
  ghost predicate Settling(c: Config, s: Db, n: nat, m: nat)
    requires c.Valid()
  {
    && Body(c, s, Span(0, m)) && Latest(s.mapInfo, s.mapAddr)
    && m <= s.nIdCount && s.collisions == {} && Waiting(s, n, m)
  }

  lemma SettleWaiting(c: Config, s: Db, n: nat, m: nat, bucket: int, keep: bool)
    requires c.Valid() && Waiting(s, n, m)
    ensures Waiting(Settle(c, s, n, bucket, keep), n + 1, m)
  {
    var r := Settle(c, s, n, bucket, keep);
    forall i | n + 1 <= i < m
      ensures Lost(r, i)
    {
      assert Lost(s, i);
    }
  }

  lemma SettleNext(c: Config, s: Db, n: nat, m: nat, bucket: int, keep: bool, r: Db, k: nat)
    requires c.Valid() && n < m && Settling(c, s, n, m) && r == Settle(c, s, n, bucket, keep) && k == n + 1
    ensures Settling(c, r, k, m)
  {
    assert Lost(s, n);
    SettleOk(c, s, n, bucket, keep, Span(0, m), r);
    SettleWaiting(c, s, n, m, bucket, keep);
  }

  lemma SettleSame(c: Config, s: Db, id: int, bucket: int, keep: bool, r: Db)
    requires c.Valid() && r == Settle(c, s, id, bucket, keep) && Injective(s.mapInfo)
    ensures Injective(r.mapInfo)
  {
    assert forall o | o in s.mapInfo :: o in r.mapInfo && r.mapInfo[o].addr == s.mapInfo[o].addr;
  }

  ghost predicate SettleFollows(c: Config, ss: seq<Db>, buckets: seq<seq<int>>, keep: bool, i: nat)
    requires c.Valid() && i + 1 < |ss|
  {
    ss[i + 1] == Settle(c, ss[i], i, LastBucket(buckets, i, |buckets|), keep)
  }

  /** The states between the turns of the loop that gives entries their cells. */
  ghost predicate SettleTrace(c: Config, ss: seq<Db>, buckets: seq<seq<int>>, keep: bool)
    requires c.Valid()
  {
    |ss| > 0 && forall i: nat | i + 1 < |ss| :: SettleFollows(c, ss, buckets, keep, i)
  }

  ghost function SettleStates(c: Config, s: Db, buckets: seq<seq<int>>, keep: bool, n: nat): (ss: seq<Db>)
    requires c.Valid()
    ensures |ss| == n + 1 && SettleTrace(c, ss, buckets, keep) && ss[0] == s && ss[n] == Settles(c, s, buckets, keep, n)
  {
    seq(n + 1, i requires 0 <= i => Settles(c, s, buckets, keep, i))
  }

  lemma {:induction false} SettleTraceOk(c: Config, ss: seq<Db>, buckets: seq<seq<int>>, keep: bool, n: nat, m: nat)
    requires c.Valid() && n < |ss| && n <= m && SettleTrace(c, ss, buckets, keep) && Settling(c, ss[0], 0, m)
    ensures Settling(c, ss[n], n, m)
    decreases n
  {
    if n > 0 {
      SettleTraceOk(c, ss, buckets, keep, n - 1, m);
      SettleTraceNext(c, ss, buckets, keep, n - 1, m, ss[n - 1], ss[n], n);
    }
  }

  lemma SettleTraceNext(c: Config, ss: seq<Db>, buckets: seq<seq<int>>, keep: bool, n: nat, m: nat, p: Db, r: Db,
      k: nat)
    requires c.Valid() && n + 1 < |ss| && n < m && SettleTrace(c, ss, buckets, keep) && p == ss[n] && r == ss[n + 1]
    requires Settling(c, p, n, m) && k == n + 1
    ensures Settling(c, r, k, m)
  {
    assert SettleFollows(c, ss, buckets, keep, n);
    SettleNext(c, p, n, m, LastBucket(buckets, n, |buckets|), keep, r, k);
  }

  lemma {:induction false} SettlesOk(c: Config, s: Db, buckets: seq<seq<int>>, keep: bool, m: nat)
    requires c.Valid() && Settling(c, s, 0, m)
    ensures Settling(c, Settles(c, s, buckets, keep, m), m, m)
  {
    SettleTraceOk(c, SettleStates(c, s, buckets, keep, m), buckets, keep, m, m);
  }

  lemma {:induction false} SettlesSame(c: Config, s: Db, buckets: seq<seq<int>>, keep: bool, n: nat)
    requires c.Valid() && Injective(s.mapInfo)
    ensures Injective(Settles(c, s, buckets, keep, n).mapInfo)
    decreases n
  {
    if n > 0 {
      SettlesSame(c, s, buckets, keep, n - 1);
      SettleSame(c, Settles(c, s, buckets, keep, n - 1), n - 1, LastBucket(buckets, n - 1, |buckets|), keep,
                 Settles(c, s, buckets, keep, n));
    }
  }

  /** s is f without those of the first n ids that have no cell; their addresses are
      forgotten with them. */
  ghost predicate PrunedTo(f: Db, s: Db, n: nat) {
    && (forall id :: id in s.mapInfo <==> id in f.mapInfo && !(id < n && Lost(f, id)))
    && (forall id | id in s.mapInfo :: SameInfo(s.mapInfo[id], f.mapInfo[id]))
    && (forall ip :: ip in s.mapAddr <==> ip in f.mapAddr && !Forgotten(f, n, ip))
    && (forall ip | ip in s.mapAddr :: s.mapAddr[ip] == f.mapAddr[ip])
  }

  ghost predicate Forgotten(f: Db, n: nat, ip: NetAddr) {
    exists id :: id < n && Lost(f, id) && f.mapInfo[id].addr.ip == ip
  }

  lemma PrunedNone(f: Db)
    requires IdsOk(f.mapInfo, f.nIdCount)
    ensures PrunedTo(f, f, 0)
  {
  }

  lemma ForgottenNext(f: Db, n: nat, ip: NetAddr)
    ensures Forgotten(f, n + 1, ip) <==> Forgotten(f, n, ip) || (Lost(f, n) && f.mapInfo[n].addr.ip == ip)
  {
    if Lost(f, n) && f.mapInfo[n].addr.ip == ip {
      assert n < n + 1 && Lost(f, n) && f.mapInfo[n].addr.ip == ip;
    }
  }

  lemma PrunedNext(f: Db, s: Db, n: nat, r: Db, k: nat)
    requires PrunedTo(f, s, n) && k == n + 1 && PrunedAs(s, r, n)
    ensures PrunedTo(f, r, k)
  {
    assert Lost(s, n) <==> Lost(f, n);
    forall ip ensures ip in r.mapAddr <==> ip in f.mapAddr && !Forgotten(f, k, ip) {
      ForgottenNext(f, n, ip);
    }
    forall id | id in r.mapInfo ensures SameInfo(r.mapInfo[id], f.mapInfo[id]) {
      if Lost(s, n) {
        assert SameInfo(r.mapInfo[id], (s.mapInfo - {n})[id]);
      }
      assert SameInfo(s.mapInfo[id], f.mapInfo[id]);
    }
  }

  /** Ids from n on may be without a cell. */
  ghost predicate Pruning(c: Config, s: Db, n: nat, m: nat)
    requires c.Valid()
  {
    Body(c, s, Span(n, m)) && s.collisions == {}
  }

  lemma PruneFrom(c: Config, s: Db, id: int, before: set<int>, after: set<int>, r: Db)
    requires c.Valid() && Body(c, s, before) && before <= after + {id} && r == Prune(s, id)
    ensures Body(c, r, after) && PrunedAs(s, r, id)
  {
    assert Body(c, s, after + {id});
    PruneOk(c, s, id, after, r);
  }

  lemma PruneNext(c: Config, s: Db, n: nat, m: nat, r: Db, k: nat)
    requires c.Valid() && Pruning(c, s, n, m) && r == Prune(s, n) && k == n + 1
    ensures Pruning(c, r, k, m) && PrunedAs(s, r, n)
  {
    PruneFrom(c, s, n, Span(n, m), Span(k, m), r);
  }

  ghost predicate PruneFollows(ss: seq<Db>, i: nat)
    requires i + 1 < |ss|
  {
    ss[i + 1] == Prune(ss[i], i)
  }

  ghost predicate PruneTrace(ss: seq<Db>) { |ss| > 0 && forall i: nat | i + 1 < |ss| :: PruneFollows(ss, i) }

  lemma {:induction false} PruneTraceOk(c: Config, ss: seq<Db>, n: nat, m: nat)
    requires c.Valid() && n < |ss| && PruneTrace(ss) && Pruning(c, ss[0], 0, m)
    ensures Pruning(c, ss[n], n, m)
    decreases n
  {
    if n > 0 {
      PruneTraceOk(c, ss, n - 1, m);
      assert PruneFollows(ss, n - 1);
      PruneNext(c, ss[n - 1], n - 1, m, ss[n], n);
    }
  }

  ghost predicate PrunedTrace(ss: seq<Db>) { |ss| > 0 && forall i: nat | i + 1 < |ss| :: PrunedAs(ss[i], ss[i + 1], i) }

  lemma PruneAt(c: Config, ss: seq<Db>, i: nat, m: nat)
    requires c.Valid() && i + 1 < |ss| && PruneTrace(ss) && Pruning(c, ss[i], i, m)
    ensures PrunedAs(ss[i], ss[i + 1], i)
  {
    assert PruneFollows(ss, i);
    PruneNext(c, ss[i], i, m, ss[i + 1], i + 1);
  }

  lemma PruneTraceAs(c: Config, ss: seq<Db>, m: nat)
    requires c.Valid() && PruneTrace(ss) && Pruning(c, ss[0], 0, m)
    ensures PrunedTrace(ss)
  {
    forall i: nat | i + 1 < |ss| ensures PrunedAs(ss[i], ss[i + 1], i) {
      PruneTraceOk(c, ss, i, m);
      PruneAt(c, ss, i, m);
    }
  }

  lemma {:induction false} PruneTraceTo(ss: seq<Db>, n: nat)
    requires n < |ss| && PrunedTrace(ss) && PrunedTo(ss[0], ss[0], 0)
    ensures PrunedTo(ss[0], ss[n], n)
    decreases n
  {
    if n > 0 {
      PruneTraceTo(ss, n - 1);
      PrunedNext(ss[0], ss[n - 1], n - 1, ss[n], n);
    }
  }

  ghost function PruneStates(s: Db, n: nat): (ss: seq<Db>)
    ensures |ss| == n + 1 && PruneTrace(ss) && ss[0] == s && ss[n] == Prunes(s, n)
  {
    seq(n + 1, i requires 0 <= i => Prunes(s, i))
  }

  lemma {:induction false} PrunesOk(c: Config, s: Db, n: nat, m: nat)
    requires c.Valid() && Pruning(c, s, 0, m) && PrunedTo(s, s, 0)
    ensures Pruning(c, Prunes(s, n), n, m) && PrunedTo(s, Prunes(s, n), n)
  {
    PruneTraceOk(c, PruneStates(s, n), n, m);
    PruneTraceAs(c, PruneStates(s, n), m);
    PruneTraceTo(PruneStates(s, n), n);
  }

  // ----------------------------------------------------------- repeated addresses

  /** Of an address that stands more than once, no copy has found a place. */
  ghost predicate Unrepeated(f: Db) {
    forall i, j | i in f.mapInfo && j in f.mapInfo && i != j && f.mapInfo[i].addr.ip == f.mapInfo[j].addr.ip ::
        Lost(f, i)
  }

  lemma KeptIsKnown(f: Db, r: Db, n: nat, id: int)
    requires Latest(f.mapInfo, f.mapAddr) && IdsOk(f.mapInfo, n) && PrunedTo(f, r, n) && Unrepeated(f)
    requires id in r.mapInfo
    ensures r.mapInfo[id].addr.ip in r.mapAddr && r.mapAddr[r.mapInfo[id].addr.ip] == id
  {
    assert SameInfo(r.mapInfo[id], f.mapInfo[id]);
    var ip := f.mapInfo[id].addr.ip;
    assert !Lost(f, id);
    assert !Forgotten(f, n, ip);
  }

  lemma UnrepeatedOk(f: Db, r: Db, n: nat)
    requires Latest(f.mapInfo, f.mapAddr) && IdsOk(f.mapInfo, n) && PrunedTo(f, r, n) && Unrepeated(f)
    ensures AddrOk(r.mapInfo, r.mapAddr)
  {
    forall id | id in r.mapInfo ensures r.mapInfo[id].addr.ip in r.mapAddr && r.mapAddr[r.mapInfo[id].addr.ip] == id {
      KeptIsKnown(f, r, n, id);
    }
    forall ip | ip in r.mapAddr ensures r.mapAddr[ip] in r.mapInfo && r.mapInfo[r.mapAddr[ip]].addr.ip == ip {
      var id := f.mapAddr[ip];
      assert !Forgotten(f, n, ip);
      assert SameInfo(r.mapInfo[id], f.mapInfo[id]);
    }
  }

  lemma RepeatedBad(f: Db, r: Db, n: nat, i: int, j: int)
    requires Latest(f.mapInfo, f.mapAddr) && IdsOk(f.mapInfo, n) && PrunedTo(f, r, n)
    requires i in f.mapInfo && j in f.mapInfo && i != j && f.mapInfo[i].addr.ip == f.mapInfo[j].addr.ip && !Lost(f, i)
    ensures !AddrOk(r.mapInfo, r.mapAddr)
  {
    var ip := f.mapInfo[i].addr.ip;
    assert i in r.mapInfo && SameInfo(r.mapInfo[i], f.mapInfo[i]);
    if Lost(f, j) {
      assert Forgotten(f, n, ip);
    } else {
      assert j in r.mapInfo && SameInfo(r.mapInfo[j], f.mapInfo[j]);
    }
  }

  lemma AddrOkIff(f: Db, r: Db, n: nat)
    requires Latest(f.mapInfo, f.mapAddr) && IdsOk(f.mapInfo, n) && PrunedTo(f, r, n)
    ensures AddrOk(r.mapInfo, r.mapAddr) <==> Unrepeated(f)
  {
    if Unrepeated(f) {
      UnrepeatedOk(f, r, n);
    } else {
      var i, j :| i in f.mapInfo && j in f.mapInfo && i != j && f.mapInfo[i].addr.ip == f.mapInfo[j].addr.ip
        && !Lost(f, i);
      RepeatedBad(f, r, n, i, j);
    }
  }

  // ------------------------------------------------------------------ all of it

  ghost predicate IsEmpty(c: Config, e: Db)
    requires c.Valid()
  {
    Inv(c, e, {}, 0) && e.mapInfo == map[] && e.mapAddr == map[] && e.vRandom == [] && e.nIdCount == 0
        && e.collisions == {}
  }

  lemma FilledOk(c: Config, e: Db, st: Stream, keep: bool, s: Db)
    requires c.Valid() && IsEmpty(c, e) && s == Filled(c, e, st, keep)
    ensures Settling(c, s, |st.news|, |st.news|)
  {
    var m := |st.news|;
    assert Span(0, 0) == {};
    NewsOk(c, e, st.news, m);
    TriedsOk(c, News(e, st.news, m), st.trieds, m);
    SettlesOk(c, Trieds(c, News(e, st.news, m), st.trieds, |st.trieds|), st.buckets, keep, m);
  }

  lemma FilledDistinct(c: Config, e: Db, st: Stream, keep: bool, s: Db)
    requires c.Valid() && IsEmpty(c, e) && s == Filled(c, e, st, keep) && Distinct(st.news + st.trieds)
    ensures Injective(s.mapInfo)
  {
    var all, m := st.news + st.trieds, |st.news|;
    NewsFresh(e, st.news, all, m);
    TriedsFresh(c, News(e, st.news, m), st.trieds, all, m, |st.trieds|, |all|);
    SettlesSame(c, Trieds(c, News(e, st.news, m), st.trieds, |st.trieds|), st.buckets, keep, m);
  }

  /** Whatever the stream, its version, bucket lists and asmap, everything but mapAddr is
      consistent, and mapAddr is exactly if no address that stands twice has found a place. */
  lemma LoadedIff(c: Config, e: Db, st: Stream, keep: bool)
    requires c.Valid() && IsEmpty(c, e)
    ensures Body(c, Loaded(c, e, st, keep), {})
    ensures Consistent(c, Loaded(c, e, st, keep)) <==> Unrepeated(Filled(c, e, st, keep))
  {
    var s, m := Filled(c, e, st, keep), |st.news|;
    FilledOk(c, e, st, keep, s);
    PrunedNone(s);
    PrunesOk(c, s, s.nIdCount, m);
    assert Span(s.nIdCount, m) == {};
    AddrOkIff(s, Prunes(s, s.nIdCount), s.nIdCount);
  }

  /** In particular it is if the addresses are distinct. */
  lemma LoadedConsistent(c: Config, e: Db, st: Stream, keep: bool)
    requires c.Valid() && IsEmpty(c, e) && Distinct(st.news + st.trieds)
    ensures Consistent(c, Loaded(c, e, st, keep))
  {
    FilledDistinct(c, e, st, keep, Filled(c, e, st, keep));
    LoadedIff(c, e, st, keep);
  }

  lemma EmptyCell(c: Config, e: Db, k: Cell)
    requires c.Valid() && IsEmpty(c, e) && 0 <= k.0 < c.newBuckets && 0 <= k.1 < c.bucketSize
    ensures k in e.vvNew && e.vvNew[k] == -1
  {
  }

  /** The first of two equal entries takes the cell. */
  lemma SettleTwice(c: Config, a: Db, x: Info, b0: int, b1: int, r: Db, t: Db)
    requires c.Valid() && 0 in a.mapInfo && 1 in a.mapInfo && c.NewSlot(x.addr, x.source) in a.vvNew
    requires a.vvNew[c.NewSlot(x.addr, x.source)] == -1
    requires a.mapInfo[0].addr == a.mapInfo[1].addr == x.addr && a.mapInfo[0].source == a.mapInfo[1].source == x.source
    requires a.mapInfo[0].nRefCount == 0
    requires r == Settle(c, a, 0, b0, false) && t == Settle(c, r, 1, b1, false)
    ensures 0 in t.mapInfo && 1 in t.mapInfo && t.mapInfo[0].addr == t.mapInfo[1].addr && !Lost(t, 0)
  {
  }

  lemma {:induction false} SettlesTwo(c: Config, a: Db, buckets: seq<seq<int>>, n: nat)
    requires c.Valid() && n == 2
    ensures var r := Settle(c, a, 0, LastBucket(buckets, 0, |buckets|), false);
            Settles(c, a, buckets, false, n) == Settle(c, r, 1, LastBucket(buckets, 1, |buckets|), false)
  {
    assert Settles(c, a, buckets, false, n - 2) == a;
    assert Settles(c, a, buckets, false, n - 1) == Settle(c, a, 0, LastBucket(buckets, 0, |buckets|), false);
  }

  lemma {:induction false} RepeatSettled(c: Config, e: Db, buckets: seq<seq<int>>, x: Info, a: Db, t: Db)
    requires c.Valid() && IsEmpty(c, e) && a == Enter(Enter(e, x), x) && t == Settles(c, a, buckets, false, 2)
    ensures !Unrepeated(t)
  {
    EmptyCell(c, e, c.NewSlot(x.addr, x.source));
    SettlesTwo(c, a, buckets, 2);
    var b0, b1 := LastBucket(buckets, 0, |buckets|), LastBucket(buckets, 1, |buckets|);
    SettleTwice(c, a, x, b0, b1, Settle(c, a, 0, b0, false), t);
  }

  lemma {:induction false} NewsTwo(e: Db, x: Info, infos: seq<Info>, n: nat)
    requires infos == [x, x] && n == 2
    ensures News(e, infos, n) == Enter(Enter(e, x), x)
  {
    assert News(e, infos, n - 2) == e;
    assert News(e, infos, n - 1) == Enter(e, x);
  }

  /** The same new address twice: the copy without a cell takes the other's index entry along. */
  lemma RepeatCounterexample(c: Config, e: Db, st: Stream, x: Info)
    requires c.Valid() && IsEmpty(c, e) && st.news == [x, x] && st.trieds == []
    ensures !Consistent(c, Loaded(c, e, st, false))
  {
    NewsTwo(e, x, st.news, 2);
    RepeatSettled(c, e, st.buckets, x, News(e, st.news, 2), Filled(c, e, st, false));
    LoadedIff(c, e, st, false);
  }
}
