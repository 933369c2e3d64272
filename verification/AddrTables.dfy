/** The address manager's tables as values.

    `Db` holds the five cross-linked structures and the counters; the functions
    follow the code step by step, and the lemmas show that each of them keeps the
    structural invariant that the code's own consistency check asks for. Class
    AddrMan (module AddrManager) runs the same steps in place. */
module AddrTables {

  datatype NetAddr = NetAddr(ip: int)

  datatype Service = Service(ip: NetAddr, port: nat)

  datatype Info = Info(
    addr: Service, nServices: bv64, nTime: int, source: NetAddr,
    nLastTry: int, nLastCountAttempt: int, nLastSuccess: int, nAttempts: int,
    nRefCount: int, fInTried: bool, nRandomPos: int)

  const MAX_REFS := 8             // ADDRMAN_NEW_BUCKETS_PER_ADDRESS
  const MAX_COLLISIONS := 10      // ADDRMAN_SET_TRIED_COLLISION_SIZE

  type Cell = (int, int)
  type Table = map<Cell, int>
  type Infos = map<int, Info>

  /** Table sizes, and the keyed hashes that place an address, as arbitrary functions. */
  datatype Config = Config(
    triedBuckets: nat, newBuckets: nat, bucketSize: nat,
    hashTried: Service -> nat, hashNew: (Service, NetAddr) -> nat, hashPos: (bool, int, Service) -> nat,
    isRoutable: Service -> bool, isValid: Service -> bool)
  {
    predicate Valid() { 0 < triedBuckets && 0 < newBuckets && 0 < bucketSize }

    function BucketPosition(fNew: bool, bucket: int, a: Service): (p: int)
      requires Valid()
      ensures 0 <= p < bucketSize
    {
      hashPos(fNew, bucket, a) % bucketSize
    }

    /** Where a tried address lives. */
    function TriedSlot(a: Service): (k: Cell)
      requires Valid()
      ensures 0 <= k.0 < triedBuckets && 0 <= k.1 < bucketSize
    {
      var b := hashTried(a) % triedBuckets;
      (b, BucketPosition(false, b, a))
    }

    /** Where a new address goes when `source` tells us about it. */
    function NewSlot(a: Service, source: NetAddr): (k: Cell)
      requires Valid()
      ensures 0 <= k.0 < newBuckets && 0 <= k.1 < bucketSize
    {
      var b := hashNew(a, source) % newBuckets;
      (b, BucketPosition(true, b, a))
    }
  }

  datatype Db = Db(
    nIdCount: int, mapInfo: Infos, mapAddr: map<NetAddr, int>, vRandom: seq<int>,
    nTried: int, vvTried: Table, nNew: int, vvNew: Table,
    nLastGood: int, collisions: set<int>)
  {
    function Set(id: int, info: Info): Db { this.(mapInfo := mapInfo[id := info]) }
  }

  // ------------------------------------------------------------------- invariant

  ghost predicate Covers(t: Table, buckets: int, size: int) {
    forall k: Cell :: k in t <==> 0 <= k.0 < buckets && 0 <= k.1 < size
  }

  ghost predicate IdsOk(m: Infos, nIdCount: int) { 0 <= nIdCount && forall id | id in m :: 0 <= id < nIdCount }

  /** mapAddr and mapInfo are inverse to each other. */
  ghost predicate AddrOk(m: Infos, a: map<NetAddr, int>) {
    && (forall id | id in m :: m[id].addr.ip in a && a[m[id].addr.ip] == id)
    && (forall ip | ip in a :: a[ip] in m && m[a[ip]].addr.ip == ip)
  }

  /** vRandom and nRandomPos are inverse to each other. */
  ghost predicate RandomOk(m: Infos, r: seq<int>) {
    && (forall id | id in m :: 0 <= m[id].nRandomPos < |r| && r[m[id].nRandomPos] == id)
    && (forall i | 0 <= i < |r| :: r[i] in m && m[r[i]].nRandomPos == i)
  }

  /** Each tried id sits in exactly its own slot. */
  ghost predicate TriedOk(c: Config, m: Infos, t: Table)
    requires c.Valid()
  {
    && Covers(t, c.triedBuckets, c.bucketSize)
    && (forall id | id in m && m[id].fInTried ::
          m[id].nRefCount == 0 && c.TriedSlot(m[id].addr) in t && t[c.TriedSlot(m[id].addr)] == id)
    && (forall k | k in t && t[k] != -1 :: t[k] in m && m[t[k]].fInTried && c.TriedSlot(m[t[k]].addr) == k)
  }

  ghost function CellsOf(n: Table, id: int): set<Cell> { set k | k in n && n[k] == id }

  /** nRefCount counts the new cells of an id; only ids in `free` may have none. */
  ghost predicate RefsOk(m: Infos, n: Table, free: set<int>) {
    forall id | id in m && !m[id].fInTried ::
      && m[id].nRefCount == |CellsOf(n, id)|
      && m[id].nRefCount <= MAX_REFS
      && (id in free || 1 <= m[id].nRefCount)
  }

  ghost predicate NewOk(c: Config, m: Infos, n: Table)
    requires c.Valid()
  {
    && Covers(n, c.newBuckets, c.bucketSize)
    && (forall k | k in n && n[k] != -1 ::
          n[k] in m && !m[n[k]].fInTried && c.BucketPosition(true, k.0, m[n[k]].addr) == k.1)
  }

  ghost function TriedIds(m: Infos): set<int> { set id | id in m && m[id].fInTried }

  ghost function NewIds(m: Infos): set<int> { set id | id in m && !m[id].fInTried }

  /** The invariant in the middle of an operation: ids in `free` may be without a
      new cell, and nNew runs `d` short of the number of new ids. */
  ghost predicate Inv(c: Config, s: Db, free: set<int>, d: int)
    requires c.Valid()
  {
    && IdsOk(s.mapInfo, s.nIdCount)
    && AddrOk(s.mapInfo, s.mapAddr)
    && RandomOk(s.mapInfo, s.vRandom)
    && TablesOk(c, s.mapInfo, s.vvTried, s.vvNew, free)
    && CountsOk(s.mapInfo, s.nTried, s.nNew, d)
  }

  ghost predicate TablesOk(c: Config, m: Infos, t: Table, n: Table, free: set<int>)
    requires c.Valid()
  {
    TriedOk(c, m, t) && NewOk(c, m, n) && RefsOk(m, n, free)
  }

  ghost predicate CountsOk(m: Infos, nTried: int, nNew: int, d: int) {
    nTried == |TriedIds(m)| && nNew == |NewIds(m)| - d
  }

  /** A pending collision that still exists points at an occupied tried slot. */
  ghost predicate CollisionsOk(c: Config, s: Db)
    requires c.Valid()
  {
    && |s.collisions| <= MAX_COLLISIONS
    && forall id | id in s.collisions ::
         && id < s.nIdCount
         && (id in s.mapInfo ==>
               c.TriedSlot(s.mapInfo[id].addr) in s.vvTried && s.vvTried[c.TriedSlot(s.mapInfo[id].addr)] != -1)
  }

  ghost predicate Consistent(c: Config, s: Db)
    requires c.Valid()
  {
    Inv(c, s, {}, 0) && CollisionsOk(c, s)
  }

  // ------------------------------------------------------------------- steps

  function SwapRandom(s: Db, i: int, j: int): Db
    requires i == j || (0 <= i < |s.vRandom| && 0 <= j < |s.vRandom|)
    requires i != j ==> s.vRandom[i] in s.mapInfo && s.vRandom[j] in s.mapInfo
  {
    if i == j then s
    else
      var id1, id2 := s.vRandom[i], s.vRandom[j];
      s.(mapInfo := SetPos(SetPos(s.mapInfo, id1, j), id2, i), vRandom := s.vRandom[i := id2][j := id1])
  }

  function SetPos(m: Infos, id: int, pos: int): (r: Infos)
    requires id in m
    ensures r.Keys == m.Keys
  {
    m[id := m[id].(nRandomPos := pos)]
  }

  /** A new address without a cell. */
  predicate Lost(s: Db, id: int) { id in s.mapInfo && !s.mapInfo[id].fInTried && s.mapInfo[id].nRefCount == 0 }

  /** Delete's own assertions, and what its lookups need. */
  predicate CanDelete(s: Db, id: int) {
    && id in s.mapInfo && !s.mapInfo[id].fInTried && s.mapInfo[id].nRefCount == 0
    && CanSwapLast(s, id)
  }

  predicate CanSwapLast(s: Db, id: int)
    requires id in s.mapInfo
  {
    && 0 <= s.mapInfo[id].nRandomPos < |s.vRandom|
    && s.vRandom[s.mapInfo[id].nRandomPos] in s.mapInfo && s.vRandom[|s.vRandom| - 1] in s.mapInfo
  }

  function Delete(s: Db, id: int): Db
    requires CanDelete(s, id)
  {
    DropLast(ToBack(s, id), id)
  }

  function ToBack(s: Db, id: int): Db
    requires id in s.mapInfo && CanSwapLast(s, id)
  {
    SwapRandom(s, s.mapInfo[id].nRandomPos, |s.vRandom| - 1)
  }

  function DropLast(w: Db, id: int): Db
    requires id in w.mapInfo && |w.vRandom| > 0
  {
    w.(vRandom := w.vRandom[..|w.vRandom| - 1], mapAddr := w.mapAddr - {w.mapInfo[id].addr.ip},
       mapInfo := w.mapInfo - {id}, nNew := w.nNew - 1)
  }

  /** ClearNew's own assertion, and what its lookups need. */
  predicate CanClear(s: Db, k: Cell) {
    && k in s.vvNew
    && (s.vvNew[k] != -1 ==>
          && s.vvNew[k] in s.mapInfo && s.mapInfo[s.vvNew[k]].nRefCount > 0
          && !s.mapInfo[s.vvNew[k]].fInTried && CanSwapLast(s, s.vvNew[k]))
  }

  /** One reference to the occupant of cell k is dropped. */
  function Unref(s: Db, k: Cell): Db
    requires k in s.vvNew && s.vvNew[k] in s.mapInfo
  {
    var id := s.vvNew[k];
    s.Set(id, s.mapInfo[id].(nRefCount := s.mapInfo[id].nRefCount - 1)).(vvNew := s.vvNew[k := -1])
  }

  function ClearNew(s: Db, k: Cell): Db
    requires CanClear(s, k)
  {
    if s.vvNew[k] == -1 then s
    else
      var id := s.vvNew[k];
      var u := Unref(s, k);
      if u.mapInfo[id].nRefCount == 0 then Delete(u, id) else u
  }

  /** Give cell k to id. */
  function Ref(s: Db, id: int, k: Cell): Db
    requires id in s.mapInfo
  {
    s.Set(id, s.mapInfo[id].(nRefCount := s.mapInfo[id].nRefCount + 1)).(vvNew := s.vvNew[k := id])
  }

  /** Every cell of id emptied. */
  ghost function Blank(n: Table, id: int): Table { map k | k in n :: if n[k] == id then -1 else n[k] }

  /** First part of MakeTried: id leaves the new table. */
  ghost function LeaveNew(s: Db, id: int): Db
    requires id in s.mapInfo
  {
    s.Set(id, s.mapInfo[id].(nRefCount := 0)).(vvNew := Blank(s.vvNew, id), nNew := s.nNew - 1)
  }

  /** The occupant of a tried slot is taken out of the tried table. */
  function Demote(s: Db, slot: Cell): Db
    requires slot in s.vvTried && s.vvTried[slot] in s.mapInfo
  {
    var e := s.vvTried[slot];
    s.Set(e, s.mapInfo[e].(fInTried := false)).(vvTried := s.vvTried[slot := -1], nTried := s.nTried - 1)
  }

  /** Last part of MakeTried: id enters the tried table. */
  function Promote(s: Db, id: int, slot: Cell): Db
    requires id in s.mapInfo
  {
    s.Set(id, s.mapInfo[id].(fInTried := true)).(vvTried := s.vvTried[slot := id], nTried := s.nTried + 1)
  }

  // ---------------------------------------------------------- cells and counters

  lemma CellsUpdate(n: Table, k: Cell, v: int, id: int)
    requires k in n
    ensures CellsOf(n[k := v], id) == if v == id then CellsOf(n, id) + {k} else CellsOf(n, id) - {k}
  {
  }

  lemma IdsUpdate(m: Infos, id: int, info: Info)
    requires id in m
    ensures TriedIds(m[id := info]) == if info.fInTried then TriedIds(m) + {id} else TriedIds(m) - {id}
    ensures NewIds(m[id := info]) == if info.fInTried then NewIds(m) - {id} else NewIds(m) + {id}
  {
  }

  lemma CoversUpdate(t: Table, k: Cell, v: int, buckets: int, size: int)
    requires Covers(t, buckets, size) && k in t
    ensures Covers(t[k := v], buckets, size)
  {
  }

  /** Both maps hold the same entries up to their positions in vRandom. */
  ghost predicate SameButPos(m: Infos, w: Infos) {
    m.Keys == w.Keys && forall id | id in m :: SameInfo(m[id], w[id])
  }

  ghost predicate SameInfo(a: Info, b: Info) { a == b.(nRandomPos := a.nRandomPos) }

  /** Everything known about the address is the same; where it is may differ. */
  predicate SameData(a: Info, b: Info) {
    a == b.(nRandomPos := a.nRandomPos, nRefCount := a.nRefCount, fInTried := a.fInTried)
  }

  lemma SameIds(m: Infos, w: Infos)
    requires SameButPos(m, w)
    ensures TriedIds(m) == TriedIds(w) && NewIds(m) == NewIds(w)
  {
    forall id ensures id in TriedIds(m) <==> id in TriedIds(w) {
      assert id in m ==> SameInfo(m[id], w[id]);
    }
    forall id ensures id in NewIds(m) <==> id in NewIds(w) {
      assert id in m ==> SameInfo(m[id], w[id]);
    }
  }

  lemma SameTables(c: Config, m: Infos, w: Infos, t: Table, n: Table, free: set<int>)
    requires c.Valid() && SameButPos(m, w) && TablesOk(c, w, t, n, free)
    ensures TablesOk(c, m, t, n, free)
  {
  }

  lemma SameAddrs(m: Infos, w: Infos, a: map<NetAddr, int>)
    requires SameButPos(m, w) && AddrOk(w, a)
    ensures AddrOk(m, a)
  {
  }

  /** Positions in vRandom are the business of RandomOk alone. */
  lemma SameButPosKeeps(c: Config, s: Db, r: Db, free: set<int>, d: int)
    requires c.Valid() && Inv(c, s, free, d) && SameButPos(r.mapInfo, s.mapInfo) && RandomOk(r.mapInfo, r.vRandom)
    requires r == s.(mapInfo := r.mapInfo, vRandom := r.vRandom)
    ensures Inv(c, r, free, d)
  {
    SameIds(r.mapInfo, s.mapInfo);
    SameTables(c, r.mapInfo, s.mapInfo, s.vvTried, s.vvNew, free);
    SameAddrs(r.mapInfo, s.mapInfo, s.mapAddr);
  }

  // ------------------------------------------------------------------- SwapRandom

  lemma SetPosSame(m: Infos, id: int, pos: int)
    requires id in m
    ensures SameButPos(SetPos(m, id, pos), m)
  {
  }

  lemma SameTrans(a: Infos, b: Infos, c: Infos)
    requires SameButPos(a, b) && SameButPos(b, c)
    ensures SameButPos(a, c)
  {
    forall id | id in a ensures SameInfo(a[id], c[id]) {
      assert SameInfo(a[id], b[id]) && SameInfo(b[id], c[id]);
    }
  }

  lemma SwapPositions(m: Infos, r: seq<int>, i: int, j: int)
    requires RandomOk(m, r) && 0 <= i < |r| && 0 <= j < |r| && i != j
    ensures r[i] in m && r[j] in m
    ensures RandomOk(SetPos(SetPos(m, r[i], j), r[j], i), r[i := r[j]][j := r[i]])
  {
    var w := SetPos(SetPos(m, r[i], j), r[j], i);
    var q := r[i := r[j]][j := r[i]];
    assert r[i] != r[j];
    forall k | 0 <= k < |q| ensures q[k] in w && w[q[k]].nRandomPos == k {
      if k != i && k != j {
        assert q[k] == r[k] && r[k] != r[i] && r[k] != r[j];
      }
    }
    forall id | id in w ensures 0 <= w[id].nRandomPos < |q| && q[w[id].nRandomPos] == id {
      if id != r[i] && id != r[j] {
        assert w[id] == m[id];
      }
    }
  }

  lemma SwapShape(s: Db, i: int, j: int)
    requires RandomOk(s.mapInfo, s.vRandom) && 0 <= i < |s.vRandom| && 0 <= j < |s.vRandom|
    ensures var r := SwapRandom(s, i, j);
            && RandomOk(r.mapInfo, r.vRandom) && SameButPos(r.mapInfo, s.mapInfo)
            && |r.vRandom| == |s.vRandom| && r.vRandom[i] == s.vRandom[j] && r.vRandom[j] == s.vRandom[i]
            && r == s.(mapInfo := r.mapInfo, vRandom := r.vRandom)
  {
    if i != j {
      var id1, id2 := s.vRandom[i], s.vRandom[j];
      SwapPositions(s.mapInfo, s.vRandom, i, j);
      SetPosSame(s.mapInfo, id1, j);
      SetPosSame(SetPos(s.mapInfo, id1, j), id2, i);
      SameTrans(SwapRandom(s, i, j).mapInfo, SetPos(s.mapInfo, id1, j), s.mapInfo);
    }
  }

  lemma SwapOk(c: Config, s: Db, i: int, j: int, free: set<int>, d: int)
    requires c.Valid() && Inv(c, s, free, d) && 0 <= i < |s.vRandom| && 0 <= j < |s.vRandom|
    ensures Inv(c, SwapRandom(s, i, j), free, d)
  {
    SwapShape(s, i, j);
    SameButPosKeeps(c, s, SwapRandom(s, i, j), free, d);
  }

  // ----------------------------------------------------------------------- Delete

  lemma DropIds(m: Infos, id: int)
    requires id in m && !m[id].fInTried
    ensures TriedIds(m - {id}) == TriedIds(m) && NewIds(m - {id}) == NewIds(m) - {id}
  {
  }

  lemma DropAddr(m: Infos, a: map<NetAddr, int>, id: int)
    requires AddrOk(m, a) && id in m
    ensures AddrOk(m - {id}, a - {m[id].addr.ip})
  {
  }

  lemma DropRandom(m: Infos, r: seq<int>, id: int)
    requires RandomOk(m, r) && id in m && m[id].nRandomPos == |r| - 1
    ensures RandomOk(m - {id}, r[..|r| - 1])
  {
  }

  lemma NoCells(n: Table, id: int)
    requires |CellsOf(n, id)| == 0
    ensures forall k | k in n :: n[k] != id
  {
    assert CellsOf(n, id) == {};
    forall k | k in n ensures n[k] != id {
      assert k !in CellsOf(n, id);
    }
  }

  lemma DeleteTables(c: Config, m: Infos, t: Table, n: Table, id: int, free: set<int>)
    requires c.Valid() && TablesOk(c, m, t, n, free)
    requires id in m && !m[id].fInTried && m[id].nRefCount == 0
    ensures TablesOk(c, m - {id}, t, n, free)
  {
    NoCells(n, id);
  }

  lemma SameDrop(m: Infos, w: Infos, id: int)
    requires SameButPos(m, w)
    ensures SameButPos(m - {id}, w - {id})
  {
    forall k | k in m - {id} ensures SameInfo((m - {id})[k], (w - {id})[k]) {
      assert SameInfo(m[k], w[k]);
    }
  }

  /** w is s with its vRandom rearranged so that id comes last. */
  ghost predicate LastIn(s: Db, w: Db, id: int) {
    && id in s.mapInfo && id in w.mapInfo
    && 0 < |w.vRandom| && w.mapInfo[id].nRandomPos == |w.vRandom| - 1
    && RandomOk(w.mapInfo, w.vRandom)
    && SameButPos(w.mapInfo, s.mapInfo)
    && w == s.(mapInfo := w.mapInfo, vRandom := w.vRandom)
  }

  /** Swapping id to the end of vRandom. */
  lemma ToLast(s: Db, id: int)
    requires RandomOk(s.mapInfo, s.vRandom) && id in s.mapInfo
    ensures CanSwapLast(s, id) && LastIn(s, ToBack(s, id), id)
  {
    var pos, last := s.mapInfo[id].nRandomPos, |s.vRandom| - 1;
    assert s.vRandom[pos] == id && s.vRandom[last] in s.mapInfo;
    SwapShape(s, pos, last);
    var w := SwapRandom(s, pos, last);
    assert ToBack(s, id) == w;
    assert w.vRandom[last] == id;
  }

  /** r is s without id. */
  ghost predicate Removed(s: Db, r: Db, id: int) {
    && id in s.mapInfo
    && RandomOk(r.mapInfo, r.vRandom)
    && SameButPos(r.mapInfo, s.mapInfo - {id})
    && r == s.(mapInfo := r.mapInfo, vRandom := r.vRandom, mapAddr := s.mapAddr - {s.mapInfo[id].addr.ip},
       nNew := s.nNew - 1)
  }

  lemma DropLastShape(s: Db, w: Db, id: int)
    requires LastIn(s, w, id)
    ensures Removed(s, DropLast(w, id), id)
  {
    assert SameInfo(w.mapInfo[id], s.mapInfo[id]);
    SameDrop(w.mapInfo, s.mapInfo, id);
    DropRandom(w.mapInfo, w.vRandom, id);
  }

  /** What Delete changes, and that its own demands are met. */
  lemma DeleteShape(s: Db, id: int)
    requires RandomOk(s.mapInfo, s.vRandom) && id in s.mapInfo && !s.mapInfo[id].fInTried
             && s.mapInfo[id].nRefCount == 0
    ensures CanDelete(s, id) && Removed(s, Delete(s, id), id)
  {
    ToLast(s, id);
    DropLastShape(s, ToBack(s, id), id);
  }

  lemma RemovedOk(c: Config, s: Db, r: Db, id: int, free: set<int>, d: int)
    requires c.Valid() && Inv(c, s, free, d) && Removed(s, r, id)
    requires !s.mapInfo[id].fInTried && s.mapInfo[id].nRefCount == 0
    ensures Inv(c, r, free, d)
  {
    var m := s.mapInfo - {id};
    DropIds(s.mapInfo, id);
    DropAddr(s.mapInfo, s.mapAddr, id);
    DeleteTables(c, s.mapInfo, s.vvTried, s.vvNew, id, free);
    SameIds(r.mapInfo, m);
    SameTables(c, r.mapInfo, m, s.vvTried, s.vvNew, free);
    SameAddrs(r.mapInfo, m, r.mapAddr);
  }

  lemma DeleteOk(c: Config, s: Db, id: int, free: set<int>, d: int)
    requires c.Valid() && Inv(c, s, free, d)
    requires id in s.mapInfo && !s.mapInfo[id].fInTried && s.mapInfo[id].nRefCount == 0
    ensures CanDelete(s, id) && Inv(c, Delete(s, id), free, d)
  {
    DeleteShape(s, id);
    RemovedOk(c, s, Delete(s, id), id, free, d);
  }

  // --------------------------------------------------------------------- ClearNew

  /** Replacing an entry that keeps its address and position leaves the indexes alone. */
  lemma SetIndexes(s: Db, id: int, info: Info)
    requires IdsOk(s.mapInfo, s.nIdCount) && AddrOk(s.mapInfo, s.mapAddr) && RandomOk(s.mapInfo, s.vRandom)
    requires id in s.mapInfo && info.addr == s.mapInfo[id].addr && info.nRandomPos == s.mapInfo[id].nRandomPos
    ensures IdsOk(s.mapInfo[id := info], s.nIdCount)
    ensures AddrOk(s.mapInfo[id := info], s.mapAddr)
    ensures RandomOk(s.mapInfo[id := info], s.vRandom)
  {
  }

  lemma TriedSet(c: Config, m: Infos, t: Table, id: int, info: Info)
    requires c.Valid() && TriedOk(c, m, t) && id in m && !m[id].fInTried && !info.fInTried
    ensures TriedOk(c, m[id := info], t)
  {
  }

  /** A cell changes hands from `was` to `v` and the reference counts follow. */
  lemma RefsMove(m: Infos, n: Table, k: Cell, v: int, w: Infos, free: set<int>)
    requires k in n && RefsOk(m, n, free) && m.Keys == w.Keys && n[k] != v
    requires forall id | id in m :: id != n[k] && id != v ==> w[id] == m[id]
    requires forall id | id in m && (id == n[k] || id == v) :: !m[id].fInTried && !w[id].fInTried
    requires n[k] in m ==> w[n[k]].nRefCount == m[n[k]].nRefCount - 1
    requires v in m ==> w[v].nRefCount == m[v].nRefCount + 1 && m[v].nRefCount < MAX_REFS
    ensures RefsOk(w, n[k := v], free + {n[k]})
    ensures n[k] in m && m[n[k]].nRefCount > 1 ==> RefsOk(w, n[k := v], free)
  {
    forall id | id in w && !w[id].fInTried
      ensures w[id].nRefCount == |CellsOf(n[k := v], id)| && w[id].nRefCount <= MAX_REFS
    {
      CellsUpdate(n, k, v, id);
      if id == n[k] {
        assert k in CellsOf(n, id);
      } else if id != v {
        assert CellsOf(n, id) - {k} == CellsOf(n, id);
      }
    }
  }

  lemma UnrefTables(c: Config, m: Infos, t: Table, n: Table, k: Cell, free: set<int>)
    requires c.Valid() && TablesOk(c, m, t, n, free) && k in n && n[k] != -1
    requires -1 !in m
    ensures n[k] in m && m[n[k]].nRefCount >= 1 && !m[n[k]].fInTried
    ensures var w := m[n[k] := m[n[k]].(nRefCount := m[n[k]].nRefCount - 1)];
            && TablesOk(c, w, t, n[k := -1], free + {n[k]})
            && (m[n[k]].nRefCount > 1 ==> RefsOk(w, n[k := -1], free))
  {
    var id := n[k];
    assert k in CellsOf(n, id);
    var info := m[id].(nRefCount := m[id].nRefCount - 1);
    TriedSet(c, m, t, id, info);
    RefsMove(m, n, k, -1, m[id := info], free);
  }

  lemma UnrefOk(c: Config, s: Db, k: Cell, free: set<int>, d: int)
    requires c.Valid() && Inv(c, s, free, d) && k in s.vvNew && s.vvNew[k] != -1
    ensures s.vvNew[k] in s.mapInfo && s.mapInfo[s.vvNew[k]].nRefCount >= 1 && !s.mapInfo[s.vvNew[k]].fInTried
    ensures Inv(c, Unref(s, k), free + {s.vvNew[k]}, d)
    ensures s.mapInfo[s.vvNew[k]].nRefCount > 1 ==> Inv(c, Unref(s, k), free, d)
  {
    var id := s.vvNew[k];
    UnrefTables(c, s.mapInfo, s.vvTried, s.vvNew, k, free);
    var info := s.mapInfo[id].(nRefCount := s.mapInfo[id].nRefCount - 1);
    SetIndexes(s, id, info);
    IdsSame(s.mapInfo, id, info);
  }

  lemma IdsSame(m: Infos, id: int, info: Info)
    requires id in m && info.fInTried == m[id].fInTried
    ensures TriedIds(m[id := info]) == TriedIds(m) && NewIds(m[id := info]) == NewIds(m)
  {
    IdsUpdate(m, id, info);
  }

  lemma MoreFree(c: Config, s: Db, less: set<int>, more: set<int>, d: int)
    requires c.Valid() && Inv(c, s, less, d) && (forall id | id in less && id in s.mapInfo :: id in more)
    ensures Inv(c, s, more, d)
  {
  }

  /** What ClearNew does to one id: only the victim can lose its entry. */
  ghost predicate ClearedAt(s: Db, r: Db, k: Cell, id: int)
    requires k in s.vvNew
  {
    if id !in s.mapInfo then id !in r.mapInfo
    else if id != s.vvNew[k] then id in r.mapInfo && SameInfo(r.mapInfo[id], s.mapInfo[id])
    else if s.mapInfo[id].nRefCount > 1 then
      id in r.mapInfo && SameInfo(r.mapInfo[id], s.mapInfo[id].(nRefCount := s.mapInfo[id].nRefCount - 1))
    else id !in r.mapInfo
  }

  /** The fields ClearNew may touch. */
  ghost predicate ClearFrame(s: Db, r: Db, k: Cell) {
    r == s.(mapInfo := r.mapInfo, mapAddr := r.mapAddr, vRandom := r.vRandom, nNew := r.nNew, vvNew := s.vvNew[k := -1])
  }

  lemma ClearNewOk(c: Config, s: Db, k: Cell, free: set<int>, d: int)
    requires c.Valid() && Inv(c, s, free, d) && k in s.vvNew
    ensures CanClear(s, k) && Inv(c, ClearNew(s, k), free, d)
  {
    if s.vvNew[k] != -1 {
      var id := s.vvNew[k];
      UnrefOk(c, s, k, free, d);
      ToLast(s, id);
      if s.mapInfo[id].nRefCount == 1 {
        DeleteOk(c, Unref(s, k), id, free + {id}, d);
        DeleteShape(Unref(s, k), id);
        MoreFree(c, Delete(Unref(s, k), id), free + {id}, free, d);
      }
    }
  }

  lemma ClearNewShape(c: Config, s: Db, k: Cell, free: set<int>, d: int, id: int)
    requires c.Valid() && Inv(c, s, free, d) && k in s.vvNew
    ensures CanClear(s, k) && ClearFrame(s, ClearNew(s, k), k)
    ensures ClearedAt(s, ClearNew(s, k), k, id)
  {
    if s.vvNew[k] == -1 {
      assert s.vvNew[k := -1] == s.vvNew;
    } else {
      var v := s.vvNew[k];
      UnrefOk(c, s, k, free, d);
      ToLast(s, v);
      if s.mapInfo[v].nRefCount == 1 {
        var u := Unref(s, k);
        DeleteShape(u, v);
        if id in s.mapInfo && id != v {
          assert SameInfo(Delete(u, v).mapInfo[id], (u.mapInfo - {v})[id]);
        }
      }
    }
  }

  // ------------------------------------------------------------- giving a cell

  lemma RefTables(c: Config, m: Infos, t: Table, n: Table, id: int, k: Cell, free: set<int>)
    requires c.Valid() && TablesOk(c, m, t, n, free) && -1 !in m
    requires id in m && !m[id].fInTried && m[id].nRefCount < MAX_REFS
    requires k in n && n[k] == -1 && c.BucketPosition(true, k.0, m[id].addr) == k.1
    ensures TablesOk(c, m[id := m[id].(nRefCount := m[id].nRefCount + 1)], t, n[k := id], free - {id})
  {
    var info := m[id].(nRefCount := m[id].nRefCount + 1);
    TriedSet(c, m, t, id, info);
    RefsMove(m, n, k, id, m[id := info], free);
    CoversUpdate(n, k, id, c.newBuckets, c.bucketSize);
  }

  lemma RefIs(c: Config, s: Db, id: int, k: Cell, free: set<int>, d: int, info: Info, r: Db)
    requires c.Valid() && id in s.mapInfo && r == s.Set(id, info).(vvNew := s.vvNew[k := id])
    requires IdsOk(s.mapInfo[id := info], s.nIdCount) && AddrOk(s.mapInfo[id := info], s.mapAddr)
    requires RandomOk(s.mapInfo[id := info], s.vRandom)
    requires TablesOk(c, s.mapInfo[id := info], s.vvTried, s.vvNew[k := id], free)
    requires CountsOk(s.mapInfo[id := info], s.nTried, s.nNew, d)
    ensures Inv(c, r, free, d)
  {
  }

  lemma RefOk(c: Config, s: Db, id: int, k: Cell, free: set<int>, d: int)
    requires c.Valid() && Inv(c, s, free, d)
    requires id in s.mapInfo && !s.mapInfo[id].fInTried && s.mapInfo[id].nRefCount < MAX_REFS
    requires k in s.vvNew && s.vvNew[k] == -1 && c.BucketPosition(true, k.0, s.mapInfo[id].addr) == k.1
    ensures Inv(c, Ref(s, id, k), free - {id}, d)
  {
    var info := s.mapInfo[id].(nRefCount := s.mapInfo[id].nRefCount + 1);
    RefTables(c, s.mapInfo, s.vvTried, s.vvNew, id, k, free);
    SetIndexes(s, id, info);
    IdsSame(s.mapInfo, id, info);
    RefIs(c, s, id, k, free - {id}, d, info, Ref(s, id, k));
  }

  // -------------------------------------------------------------------- MakeTried

  lemma BlankCells(n: Table, id: int, other: int)
    requires other != -1 && id != -1
    ensures CellsOf(Blank(n, id), other) == if other == id then {} else CellsOf(n, other)
  {
  }

  lemma BlankTables(c: Config, m: Infos, t: Table, n: Table, id: int, free: set<int>)
    requires c.Valid() && TablesOk(c, m, t, n, free) && -1 !in m && id in m && !m[id].fInTried
    ensures TablesOk(c, m[id := m[id].(nRefCount := 0)], t, Blank(n, id), free + {id})
  {
    var w := m[id := m[id].(nRefCount := 0)];
    TriedSet(c, m, t, id, w[id]);
    forall o | o in w && !w[o].fInTried ensures w[o].nRefCount == |CellsOf(Blank(n, id), o)| {
      BlankCells(n, id, o);
    }
  }

  lemma LeaveNewOk(c: Config, s: Db, id: int, free: set<int>, d: int)
    requires c.Valid() && Inv(c, s, free, d) && id in s.mapInfo && !s.mapInfo[id].fInTried
    ensures Inv(c, LeaveNew(s, id), free + {id}, d + 1)
  {
    var info := s.mapInfo[id].(nRefCount := 0);
    BlankTables(c, s.mapInfo, s.vvTried, s.vvNew, id, free);
    SetIndexes(s, id, info);
    IdsSame(s.mapInfo, id, info);
  }

  lemma DemoteTables(c: Config, m: Infos, t: Table, n: Table, slot: Cell, free: set<int>)
    requires c.Valid() && TablesOk(c, m, t, n, free) && -1 !in m && slot in t && t[slot] != -1
    ensures t[slot] in m && m[t[slot]].fInTried && m[t[slot]].nRefCount == 0
    ensures TablesOk(c, m[t[slot] := m[t[slot]].(fInTried := false)], t[slot := -1], n, free + {t[slot]})
  {
    var e := t[slot];
    var w := m[e := m[e].(fInTried := false)];
    assert CellsOf(n, e) == {};
    CoversUpdate(t, slot, -1, c.triedBuckets, c.bucketSize);
    assert RefsOk(w, n, free + {e});
    assert NewOk(c, w, n);
  }

  lemma DemoteOk(c: Config, s: Db, slot: Cell, free: set<int>, d: int)
    requires c.Valid() && Inv(c, s, free, d) && slot in s.vvTried && s.vvTried[slot] != -1
    ensures s.vvTried[slot] in s.mapInfo && s.mapInfo[s.vvTried[slot]].fInTried
    ensures Inv(c, Demote(s, slot), free + {s.vvTried[slot]}, d + 1)
  {
    var e := s.vvTried[slot];
    DemoteTables(c, s.mapInfo, s.vvTried, s.vvNew, slot, free);
    var info := s.mapInfo[e].(fInTried := false);
    SetIndexes(s, e, info);
    IdsUpdate(s.mapInfo, e, info);
  }

  lemma PromoteTables(c: Config, m: Infos, t: Table, n: Table, id: int, free: set<int>)
    requires c.Valid() && TablesOk(c, m, t, n, free) && -1 !in m
    requires id in m && !m[id].fInTried && m[id].nRefCount == 0
    requires c.TriedSlot(m[id].addr) in t && t[c.TriedSlot(m[id].addr)] == -1
    ensures TablesOk(c, m[id := m[id].(fInTried := true)], t[c.TriedSlot(m[id].addr) := id], n, free - {id})
  {
    NoCells(n, id);
    var w := m[id := m[id].(fInTried := true)];
    var slot := c.TriedSlot(m[id].addr);
    CoversUpdate(t, slot, id, c.triedBuckets, c.bucketSize);
    assert TriedOk(c, w, t[slot := id]);
    assert RefsOk(w, n, free - {id});
  }

  lemma PromoteOk(c: Config, s: Db, id: int, free: set<int>, d: int)
    requires c.Valid() && Inv(c, s, free, d)
    requires id in s.mapInfo && !s.mapInfo[id].fInTried && s.mapInfo[id].nRefCount == 0
    requires c.TriedSlot(s.mapInfo[id].addr) in s.vvTried && s.vvTried[c.TriedSlot(s.mapInfo[id].addr)] == -1
    ensures Inv(c, Promote(s, id, c.TriedSlot(s.mapInfo[id].addr)), free - {id}, d - 1)
  {
    PromoteTables(c, s.mapInfo, s.vvTried, s.vvNew, id, free);
    var info := s.mapInfo[id].(fInTried := true);
    SetIndexes(s, id, info);
    IdsUpdate(s.mapInfo, id, info);
  }
}
