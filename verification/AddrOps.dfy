/** The address manager's operations as functions of its tables, each shown to
    keep the tables consistent and to change no more than it should. Times,
    random choices and hashes are arbitrary. */
module AddrOps {
  import opened Basics
  import opened Powers
  import opened AddrTables

  const HORIZON_SECONDS := 30 * 24 * 60 * 60
  const RETRIES := 3
  const MAX_FAILURES := 10
  const MIN_FAIL_SECONDS := 7 * 24 * 60 * 60
  const REPLACEMENT_SECONDS := 4 * 60 * 60
  const TEST_WINDOW := 40 * 60

  /** The `nTime == 0` test reads: never seen. */
  predicate IsTerrible(info: Info, now: int) {
    if info.nLastTry != 0 && info.nLastTry >= now - 60 then false
    else if info.nTime > now + 10 * 60 then true
    else if info.nTime == 0 || now - info.nTime > HORIZON_SECONDS then true
    else if info.nLastSuccess == 0 && info.nAttempts >= RETRIES then true
    else now - info.nLastSuccess > MIN_FAIL_SECONDS && info.nAttempts >= MAX_FAILURES
  }

  // -------------------------------------------------------------- common lemmas

  /** Only bookkeeping fields differ: no table speaks about them. */
  predicate Touches(a: Info, b: Info) {
    b.addr == a.addr && b.nRandomPos == a.nRandomPos && b.nRefCount == a.nRefCount && b.fInTried == a.fInTried
  }

  lemma TouchTables(c: Config, m: Infos, t: Table, n: Table, id: int, info: Info, free: set<int>)
    requires c.Valid() && TablesOk(c, m, t, n, free) && id in m && Touches(m[id], info)
    ensures TablesOk(c, m[id := info], t, n, free)
  {
  }

  lemma TouchOk(c: Config, s: Db, id: int, info: Info, free: set<int>, d: int)
    requires c.Valid() && Inv(c, s, free, d) && id in s.mapInfo && Touches(s.mapInfo[id], info)
    ensures Inv(c, s.Set(id, info), free, d)
  {
    SetIndexes(s, id, info);
    IdsSame(s.mapInfo, id, info);
    TouchTables(c, s.mapInfo, s.vvTried, s.vvNew, id, info, free);
  }

  /** Surviving ids keep their address; ids are never reused. */
  ghost predicate Grows(s: Db, r: Db) {
    && s.nIdCount <= r.nIdCount
    && forall id | id in r.mapInfo ::
         (id in s.mapInfo && r.mapInfo[id].addr == s.mapInfo[id].addr) || (id !in s.mapInfo && s.nIdCount <= id)
  }

  /** A tried slot once occupied stays occupied. */
  ghost predicate KeepsSlots(s: Db, r: Db) {
    forall k | k in s.vvTried && s.vvTried[k] != -1 :: k in r.vvTried && r.vvTried[k] != -1
  }

  lemma CollisionsKept(c: Config, s: Db, r: Db)
    requires c.Valid() && CollisionsOk(c, s) && Grows(s, r) && KeepsSlots(s, r)
    requires r.collisions <= s.collisions && |r.collisions| <= |s.collisions|
    ensures CollisionsOk(c, r)
  {
  }

  // -------------------------------------------------------------------- MakeTried

  /** What the eviction inside MakeTried needs. */
  ghost predicate CanEvict(c: Config, s: Db, slot: Cell)
    requires c.Valid()
  {
    && slot in s.vvTried && s.vvTried[slot] in s.mapInfo
    && var e := s.vvTried[slot];
       var k := c.NewSlot(s.mapInfo[e].addr, s.mapInfo[e].source);
       var b := Demote(s, slot);
       CanClear(b, k) && e in ClearNew(b, k).mapInfo && ClearNew(b, k).mapInfo[e].nRefCount == 0
  }

  /** The demoted occupant goes back to the new table, clearing whatever is there. */
  ghost function Evict(c: Config, s: Db, slot: Cell): Db
    requires c.Valid() && CanEvict(c, s, slot)
  {
    var e := s.vvTried[slot];
    var k := c.NewSlot(s.mapInfo[e].addr, s.mapInfo[e].source);
    var w := ClearNew(Demote(s, slot), k);
    Ref(w, e, k).(nNew := w.nNew + 1)
  }

  lemma EvictFits(c: Config, s: Db, slot: Cell, free: set<int>, d: int)
    requires c.Valid() && Inv(c, s, free, d) && slot in s.vvTried && s.vvTried[slot] != -1
    ensures CanEvict(c, s, slot)
    ensures var e := s.vvTried[slot];
            var b := Demote(s, slot);
            var k := c.NewSlot(s.mapInfo[e].addr, s.mapInfo[e].source);
            && Inv(c, ClearNew(b, k), free + {e}, d + 1)
            && ClearFrame(b, ClearNew(b, k), k)
            && (forall o :: ClearedAt(b, ClearNew(b, k), k, o))
            && b.vvNew[k] != e && b.mapInfo[e].nRefCount == 0
  {
    DemoteOk(c, s, slot, free, d);
    var e := s.vvTried[slot];
    var b := Demote(s, slot);
    var k := c.NewSlot(s.mapInfo[e].addr, s.mapInfo[e].source);
    ClearNewOk(c, b, k, free + {e}, d + 1);
    forall o ensures ClearedAt(b, ClearNew(b, k), k, o) {
      ClearNewShape(c, b, k, free + {e}, d + 1, o);
    }
    ClearNewShape(c, b, k, free + {e}, d + 1, e);
  }

  lemma EvictOk(c: Config, s: Db, slot: Cell, free: set<int>, d: int)
    requires c.Valid() && Inv(c, s, free, d) && slot in s.vvTried && s.vvTried[slot] != -1 && s.vvTried[slot] !in free
    ensures CanEvict(c, s, slot)
    ensures Inv(c, Evict(c, s, slot), free, d)
  {
    EvictFits(c, s, slot, free, d);
    var e := s.vvTried[slot];
    var b := Demote(s, slot);
    var k := c.NewSlot(s.mapInfo[e].addr, s.mapInfo[e].source);
    EvictEnd(c, b, ClearNew(b, k), e, k, free, d);
  }

  lemma EvictEnd(c: Config, b: Db, w: Db, e: int, k: Cell, free: set<int>, d: int)
    requires c.Valid() && Inv(c, w, free + {e}, d + 1) && e !in free && k in b.vvNew && b.vvNew[k] != e
    requires ClearFrame(b, w, k) && ClearedAt(b, w, k, e)
    requires e in b.mapInfo && !b.mapInfo[e].fInTried && b.mapInfo[e].nRefCount == 0
    requires c.BucketPosition(true, k.0, b.mapInfo[e].addr) == k.1
    ensures e in w.mapInfo && Inv(c, Ref(w, e, k).(nNew := w.nNew + 1), free, d)
  {
    RefOk(c, w, e, k, free + {e}, d + 1);
    assert free + {e} - {e} == free;
  }

  /** What eviction does to one id: the evicted one becomes new, and at most the
      occupant of its new cell, never a tried id, is forgotten. */
  ghost predicate EvictedAt(m: Infos, w: Infos, e: int, victim: int, o: int) {
    && (o !in m ==> o !in w)
    && (o in m && (o != victim || m[o].fInTried) ==> o in w)
    && (o in m && o in w ==>
          && SameData(w[o], m[o])
          && w[o].fInTried == (m[o].fInTried && o != e)
          && (o != victim && o != e ==> w[o].nRefCount == m[o].nRefCount))
  }

  ghost predicate EvictFrame(s: Db, r: Db, slot: Cell) {
    && r.vvTried == s.vvTried[slot := -1]
    && r.collisions == s.collisions && r.nIdCount == s.nIdCount && r.nLastGood == s.nLastGood
  }

  /** The occupant of the new cell that the evicted id will take. */
  ghost function VictimIn(c: Config, s: Db, slot: Cell): int
    requires c.Valid() && slot in s.vvTried && s.vvTried[slot] in s.mapInfo && NewOk(c, s.mapInfo, s.vvNew)
  {
    var info := s.mapInfo[s.vvTried[slot]];
    s.vvNew[c.NewSlot(info.addr, info.source)]
  }

  lemma EvictShape(c: Config, s: Db, slot: Cell, free: set<int>, d: int, o: int)
    requires c.Valid() && Inv(c, s, free, d) && slot in s.vvTried && s.vvTried[slot] != -1
    ensures CanEvict(c, s, slot)
    ensures EvictFrame(s, Evict(c, s, slot), slot)
    ensures EvictedAt(s.mapInfo, Evict(c, s, slot).mapInfo, s.vvTried[slot], VictimIn(c, s, slot), o)
  {
    EvictFits(c, s, slot, free, d);
    DemoteOk(c, s, slot, free, d);
    var e := s.vvTried[slot];
    var b := Demote(s, slot);
    var k := c.NewSlot(s.mapInfo[e].addr, s.mapInfo[e].source);
    EvictShapeAt(s, slot, b, ClearNew(b, k), k, o);
  }

  lemma EvictShapeAt(s: Db, slot: Cell, b: Db, w: Db, k: Cell, o: int)
    requires slot in s.vvTried && s.vvTried[slot] in s.mapInfo && b == Demote(s, slot) && k in s.vvNew
    requires ClearedAt(b, w, k, s.vvTried[slot]) && ClearedAt(b, w, k, o) && ClearFrame(b, w, k)
    requires s.vvNew[k] != s.vvTried[slot]
    requires s.vvNew[k] in s.mapInfo ==> !s.mapInfo[s.vvNew[k]].fInTried
    ensures s.vvTried[slot] in w.mapInfo
    ensures var r := Ref(w, s.vvTried[slot], k).(nNew := w.nNew + 1);
            EvictFrame(s, r, slot) && EvictedAt(s.mapInfo, r.mapInfo, s.vvTried[slot], s.vvNew[k], o)
  {
  }

  ghost predicate CanMakeRoom(c: Config, s: Db, id: int)
    requires c.Valid()
  {
    && id in s.mapInfo
    && var slot := c.TriedSlot(s.mapInfo[id].addr);
       slot in s.vvTried && (s.vvTried[slot] != -1 ==> CanEvict(c, LeaveNew(s, id), slot))
  }

  /** The state of MakeTried just before id enters its tried slot. */
  ghost function Room(c: Config, s: Db, id: int): Db
    requires c.Valid() && CanMakeRoom(c, s, id)
  {
    var slot := c.TriedSlot(s.mapInfo[id].addr);
    if s.vvTried[slot] == -1 then LeaveNew(s, id) else Evict(c, LeaveNew(s, id), slot)
  }

  ghost predicate CanMakeTried(c: Config, s: Db, id: int)
    requires c.Valid()
  {
    && CanMakeRoom(c, s, id) && id in Room(c, s, id).mapInfo
    && var slot := c.TriedSlot(s.mapInfo[id].addr);
       slot in Room(c, s, id).vvTried && Room(c, s, id).vvTried[slot] == -1
  }

  ghost function MakeTried(c: Config, s: Db, id: int): Db
    requires c.Valid() && CanMakeTried(c, s, id)
  {
    Promote(Room(c, s, id), id, c.TriedSlot(s.mapInfo[id].addr))
  }

  /** The new id that loses its only cell to the evicted one, if any. */
  ghost function Victim(c: Config, s: Db, id: int): int
    requires c.Valid() && Inv(c, s, {}, 0) && id in s.mapInfo && !s.mapInfo[id].fInTried
  {
    SlotHolder(c, s, id);
    LeaveNewOk(c, s, id, {}, 0);
    var slot := c.TriedSlot(s.mapInfo[id].addr);
    if s.vvTried[slot] == -1 then -1 else VictimIn(c, LeaveNew(s, id), slot)
  }

  /** The occupant of id's tried slot, if any, is another, tried id. */
  lemma SlotHolder(c: Config, s: Db, id: int)
    requires c.Valid() && Inv(c, s, {}, 0) && id in s.mapInfo && !s.mapInfo[id].fInTried
    ensures var slot := c.TriedSlot(s.mapInfo[id].addr);
            && slot in s.vvTried && s.vvTried[slot] != id
            && (s.vvTried[slot] != -1 ==> s.vvTried[slot] in s.mapInfo && s.mapInfo[s.vvTried[slot]].fInTried)
  {
  }

  lemma VictimOther(c: Config, s: Db, id: int)
    requires c.Valid() && Inv(c, s, {}, 0) && id in s.mapInfo && !s.mapInfo[id].fInTried
    ensures Victim(c, s, id) != id
  {
    SlotHolder(c, s, id);
  }

  lemma RoomReady(c: Config, s: Db, id: int)
    requires c.Valid() && Inv(c, s, {}, 0) && id in s.mapInfo && !s.mapInfo[id].fInTried
    ensures CanMakeRoom(c, s, id)
  {
    LeaveNewOk(c, s, id, {}, 0);
    var slot := c.TriedSlot(s.mapInfo[id].addr);
    if s.vvTried[slot] != -1 {
      EvictFits(c, LeaveNew(s, id), slot, {} + {id}, 1);
    }
  }

  lemma RoomAt(c: Config, s: Db, id: int, o: int)
    requires c.Valid() && Inv(c, s, {}, 0) && id in s.mapInfo && !s.mapInfo[id].fInTried
    ensures CanMakeRoom(c, s, id)
    ensures EvictFrame(LeaveNew(s, id), Room(c, s, id), c.TriedSlot(s.mapInfo[id].addr))
    ensures EvictedAt(LeaveNew(s, id).mapInfo, Room(c, s, id).mapInfo, s.vvTried[c.TriedSlot(s.mapInfo[id].addr)],
            Victim(c, s, id), o)
  {
    SlotHolder(c, s, id);
    RoomReady(c, s, id);
    var slot := c.TriedSlot(s.mapInfo[id].addr);
    if s.vvTried[slot] == -1 {
      assert s.vvTried[slot := -1] == s.vvTried;
    } else {
      RoomAtEvict(c, s, id, slot, o);
    }
  }

  lemma RoomAtEvict(c: Config, s: Db, id: int, slot: Cell, o: int)
    requires c.Valid() && Inv(c, s, {}, 0) && id in s.mapInfo && !s.mapInfo[id].fInTried
    requires slot == c.TriedSlot(s.mapInfo[id].addr) && slot in s.vvTried && s.vvTried[slot] != -1
    requires CanMakeRoom(c, s, id)
    ensures EvictFrame(LeaveNew(s, id), Room(c, s, id), slot)
    ensures EvictedAt(LeaveNew(s, id).mapInfo, Room(c, s, id).mapInfo, s.vvTried[slot], Victim(c, s, id), o)
  {
    LeaveNewOk(c, s, id, {}, 0);
    var u := LeaveNew(s, id);
    assert Room(c, s, id) == Evict(c, u, slot);
    assert Victim(c, s, id) == VictimIn(c, u, slot);
    EvictShape(c, u, slot, {} + {id}, 1, o);
  }

  lemma RoomForId(c: Config, s: Db, id: int)
    requires c.Valid() && Inv(c, s, {}, 0) && id in s.mapInfo && !s.mapInfo[id].fInTried
    ensures CanMakeTried(c, s, id)
    ensures var v := Room(c, s, id);
            && !v.mapInfo[id].fInTried && v.mapInfo[id].nRefCount == 0
            && v.mapInfo[id].addr == s.mapInfo[id].addr
  {
    SlotHolder(c, s, id);
    VictimOther(c, s, id);
    RoomAt(c, s, id, id);
  }

  lemma RoomOk(c: Config, s: Db, id: int)
    requires c.Valid() && Inv(c, s, {}, 0) && id in s.mapInfo && !s.mapInfo[id].fInTried
    ensures CanMakeRoom(c, s, id)
    ensures Inv(c, Room(c, s, id), {id}, 1)
  {
    RoomReady(c, s, id);
    LeaveNewOk(c, s, id, {}, 0);
    assert {} + {id} == {id};
    var slot := c.TriedSlot(s.mapInfo[id].addr);
    if s.vvTried[slot] != -1 {
      EvictOk(c, LeaveNew(s, id), slot, {id}, 1);
    }
  }

  lemma MakeTriedOk(c: Config, s: Db, id: int)
    requires c.Valid() && Inv(c, s, {}, 0) && id in s.mapInfo && !s.mapInfo[id].fInTried
    ensures CanMakeTried(c, s, id)
    ensures Inv(c, MakeTried(c, s, id), {}, 0)
  {
    RoomOk(c, s, id);
    RoomForId(c, s, id);
    PromoteInto(c, s.mapInfo[id].addr, Room(c, s, id), id);
  }

  lemma PromoteInto(c: Config, a: Service, v: Db, id: int)
    requires c.Valid() && Inv(c, v, {id}, 1) && id in v.mapInfo && v.mapInfo[id].addr == a
    requires !v.mapInfo[id].fInTried && v.mapInfo[id].nRefCount == 0
    requires v.vvTried[c.TriedSlot(a)] == -1
    ensures Inv(c, Promote(v, id, c.TriedSlot(a)), {}, 0)
  {
    PromoteOk(c, v, id, {id}, 1);
    assert {id} - {id} == {};
  }

  /** The whole effect of MakeTried on the tried side, and its limits elsewhere:
      exactly this id enters tried, exactly the former occupant of its slot leaves
      it for the new table, and at most one new address is forgotten. */
  ghost predicate Moved(c: Config, s: Db, r: Db, id: int)
    requires c.Valid() && id in s.mapInfo
  {
    var slot := c.TriedSlot(s.mapInfo[id].addr);
    && slot in s.vvTried
    && var e := s.vvTried[slot];
    && r.vvTried == s.vvTried[slot := id]
    && TriedIds(r.mapInfo) == TriedIds(s.mapInfo) - {e} + {id}
    && (e != -1 ==> e in r.mapInfo && !r.mapInfo[e].fInTried)
    && r.mapInfo.Keys <= s.mapInfo.Keys
    && |s.mapInfo.Keys - r.mapInfo.Keys| <= 1
    && (e == -1 ==> r.mapInfo.Keys == s.mapInfo.Keys)
    && (forall o | o in r.mapInfo :: o in s.mapInfo && r.mapInfo[o].addr == s.mapInfo[o].addr)
    && (forall o | o in r.mapInfo && o != id :: SameData(r.mapInfo[o], s.mapInfo[o]))
    && r.collisions == s.collisions && r.nIdCount == s.nIdCount && r.nLastGood == s.nLastGood
  }

  /** Whatever made room for id, promoting it moves id and nothing else. */
  lemma PromoteMoves(c: Config, s: Db, m: Infos, v: Db, id: int, victim: int)
    requires c.Valid() && id in s.mapInfo && id in v.mapInfo && !s.mapInfo[id].fInTried && victim != id
    requires m == s.mapInfo[id := s.mapInfo[id].(nRefCount := 0)]
    requires c.TriedSlot(s.mapInfo[id].addr) in s.vvTried
    requires EvictFrame(s, v, c.TriedSlot(s.mapInfo[id].addr))
    requires forall o :: EvictedAt(m, v.mapInfo, s.vvTried[c.TriedSlot(s.mapInfo[id].addr)], victim, o)
    requires s.vvTried[c.TriedSlot(s.mapInfo[id].addr)] == -1 ==> v.mapInfo.Keys == s.mapInfo.Keys
    requires var e := s.vvTried[c.TriedSlot(s.mapInfo[id].addr)]; e != id && (e != -1 ==> e in v.mapInfo)
    ensures Moved(c, s, Promote(v, id, c.TriedSlot(s.mapInfo[id].addr)), id)
    ensures SameData(Promote(v, id, c.TriedSlot(s.mapInfo[id].addr)).mapInfo[id], s.mapInfo[id])
  {
    var slot := c.TriedSlot(s.mapInfo[id].addr);
    var e := s.vvTried[slot];
    var r := Promote(v, id, slot);
    assert r.vvTried == s.vvTried[slot := id];
    forall o
      ensures o in TriedIds(r.mapInfo) <==> o in TriedIds(s.mapInfo) - {e} + {id}
      ensures o in r.mapInfo ==> o in s.mapInfo && SameData(r.mapInfo[o], s.mapInfo[o])
      ensures o in s.mapInfo && o !in r.mapInfo ==> o == victim
    {
      assert EvictedAt(m, v.mapInfo, e, victim, o);
    }
    assert EvictedAt(m, v.mapInfo, e, victim, e);
    AtMostOne(s.mapInfo.Keys - r.mapInfo.Keys, victim);
  }

  lemma MakeTriedMoves(c: Config, s: Db, id: int)
    requires c.Valid() && Inv(c, s, {}, 0) && id in s.mapInfo && !s.mapInfo[id].fInTried
    ensures CanMakeTried(c, s, id)
    ensures Moved(c, s, MakeTried(c, s, id), id)
    ensures id in MakeTried(c, s, id).mapInfo && SameData(MakeTried(c, s, id).mapInfo[id], s.mapInfo[id])
  {
    RoomForId(c, s, id);
    var slot := c.TriedSlot(s.mapInfo[id].addr);
    var v, victim := Room(c, s, id), Victim(c, s, id);
    forall o ensures EvictedAt(LeaveNew(s, id).mapInfo, v.mapInfo, s.vvTried[slot], victim, o) {
      RoomAt(c, s, id, o);
    }
    SlotHolder(c, s, id);
    VictimOther(c, s, id);
    RoomAt(c, s, id, s.vvTried[slot]);
    PromoteMoves(c, s, LeaveNew(s, id).mapInfo, v, id, victim);
  }

  lemma AtMostOne(a: set<int>, x: int)
    requires a <= {x}
    ensures |a| <= 1
  {
    if x in a {
      assert a == {x};
    } else {
      assert a == {};
    }
  }

  // ----------------------------------------------------------------------- Good_

  /** Mark an entry good: lines that only update statistics. */
  function MarkGood(s: Db, id: int, time: int): Db
    requires id in s.mapInfo
  {
    s.Set(id, s.mapInfo[id].(nLastSuccess := time, nLastTry := time, nAttempts := 0))
  }

  predicate Found(s: Db, a: Service) {
    a.ip in s.mapAddr && s.mapAddr[a.ip] in s.mapInfo && s.mapInfo[s.mapAddr[a.ip]].addr == a
  }

  /** What Good_ needs when it moves the address. */
  ghost predicate CanGood(c: Config, s: Db, a: Service, testBeforeEvict: bool, time: int)
    requires c.Valid()
  {
    && c.TriedSlot(a) in s.vvTried
    && (GoodMoves(c, s, a, testBeforeEvict) ==>
          CanMakeTried(c, MarkGood(s.(nLastGood := time), s.mapAddr[a.ip], time), s.mapAddr[a.ip]))
  }

  ghost function Good(c: Config, s: Db, a: Service, testBeforeEvict: bool, time: int): Db
    requires c.Valid() && CanGood(c, s, a, testBeforeEvict, time)
  {
    var s0 := s.(nLastGood := time);
    if !Found(s, a) then s0
    else
      var id := s.mapAddr[a.ip];
      var s1 := MarkGood(s0, id, time);
      if s.mapInfo[id].fInTried then s1
      else if testBeforeEvict && s.vvTried[c.TriedSlot(a)] != -1 then
        if |s.collisions| < MAX_COLLISIONS then s1.(collisions := s.collisions + {id}) else s1
      else MakeTried(c, s1, id)
  }

  /** Is this call going to move the address into the tried table? */
  ghost predicate GoodMoves(c: Config, s: Db, a: Service, testBeforeEvict: bool)
    requires c.Valid() && c.TriedSlot(a) in s.vvTried
  {
    && Found(s, a) && !s.mapInfo[s.mapAddr[a.ip]].fInTried
    && !(testBeforeEvict && s.vvTried[c.TriedSlot(a)] != -1)
  }

  lemma MarkedOk(c: Config, s: Db, id: int, time: int)
    requires c.Valid() && Inv(c, s, {}, 0) && id in s.mapInfo
    ensures Inv(c, MarkGood(s.(nLastGood := time), id, time), {}, 0)
  {
    var s0 := s.(nLastGood := time);
    TouchOk(c, s0, id, MarkGood(s0, id, time).mapInfo[id], {}, 0);
  }

  lemma GoodOk(c: Config, s: Db, a: Service, testBeforeEvict: bool, time: int)
    requires c.Valid() && Inv(c, s, {}, 0)
    ensures CanGood(c, s, a, testBeforeEvict, time)
    ensures Inv(c, Good(c, s, a, testBeforeEvict, time), {}, 0)
  {
    if Found(s, a) {
      var id := s.mapAddr[a.ip];
      MarkedOk(c, s, id, time);
      if GoodMoves(c, s, a, testBeforeEvict) {
        MakeTriedOk(c, MarkGood(s.(nLastGood := time), id, time), id);
      }
    }
  }

  /** The statistics of an address that was just found good: its last success and last try
      are now, no failure counts, and the time it was last seen is left alone. */
  predicate JustGood(before: Info, after: Info, time: int) {
    SameData(after, before.(nLastSuccess := time, nLastTry := time, nAttempts := 0))
  }

  /** What Good_ changes. */
  ghost predicate GoodEffect(c: Config, s: Db, r: Db, a: Service, testBeforeEvict: bool, time: int)
    requires c.Valid() && c.TriedSlot(a) in s.vvTried
  {
    && r.nLastGood == time
    && (Found(s, a) ==>
          var id := s.mapAddr[a.ip]; id in r.mapInfo && JustGood(s.mapInfo[id], r.mapInfo[id], time))
    && if GoodMoves(c, s, a, testBeforeEvict) then
      Moved(c, s.(nLastGood := time), r, s.mapAddr[a.ip])
    else
      && r.vvTried == s.vvTried && r.vvNew == s.vvNew && r.nIdCount == s.nIdCount && r.vRandom == s.vRandom
      && r.mapInfo.Keys == s.mapInfo.Keys && (forall o | o in r.mapInfo :: r.mapInfo[o].addr == s.mapInfo[o].addr)
      && (forall o | o in r.mapInfo && !(Found(s, a) && o == s.mapAddr[a.ip]) :: r.mapInfo[o] == s.mapInfo[o])
      && TriedIds(r.mapInfo) == TriedIds(s.mapInfo)
      && r.collisions ==
         if Found(s, a) && !s.mapInfo[s.mapAddr[a.ip]].fInTried && |s.collisions| < 10
         then s.collisions + {s.mapAddr[a.ip]} else s.collisions
  }

  lemma GoodStays(c: Config, s: Db, a: Service, testBeforeEvict: bool, time: int)
    requires c.Valid() && CanGood(c, s, a, testBeforeEvict, time) && !GoodMoves(c, s, a, testBeforeEvict)
    ensures GoodEffect(c, s, Good(c, s, a, testBeforeEvict, time), a, testBeforeEvict, time)
  {
    if Found(s, a) {
      MarkedSame(s, s.mapAddr[a.ip], time);
    }
  }

  lemma GoodDoes(c: Config, s: Db, a: Service, testBeforeEvict: bool, time: int)
    requires c.Valid() && Inv(c, s, {}, 0)
    ensures CanGood(c, s, a, testBeforeEvict, time)
    ensures GoodEffect(c, s, Good(c, s, a, testBeforeEvict, time), a, testBeforeEvict, time)
  {
    GoodOk(c, s, a, testBeforeEvict, time);
    if GoodMoves(c, s, a, testBeforeEvict) {
      var id := s.mapAddr[a.ip];
      var s1 := MarkGood(s.(nLastGood := time), id, time);
      MarkedOk(c, s, id, time);
      MarkedSame(s, id, time);
      MovedMarked(c, s.(nLastGood := time), s1, id);
      assert Good(c, s, a, testBeforeEvict, time) == MakeTried(c, s1, id);
    } else {
      GoodStays(c, s, a, testBeforeEvict, time);
    }
  }

  /** Statistics apart, the same tables. */
  ghost predicate SameButStats(s: Db, s1: Db, id: int) {
    && s1 == s.(mapInfo := s1.mapInfo)
    && s1.mapInfo.Keys == s.mapInfo.Keys && TriedIds(s1.mapInfo) == TriedIds(s.mapInfo)
    && (forall o | o in s.mapInfo :: s1.mapInfo[o].addr == s.mapInfo[o].addr)
    && (forall o | o in s.mapInfo && o != id :: s1.mapInfo[o] == s.mapInfo[o])
  }

  lemma MovedFrom(c: Config, s: Db, s1: Db, r: Db, id: int)
    requires c.Valid() && id in s.mapInfo && id in s1.mapInfo && Moved(c, s1, r, id) && SameButStats(s, s1, id)
    ensures Moved(c, s, r, id)
  {
  }

  lemma MarkedSame(s: Db, id: int, time: int)
    requires id in s.mapInfo
    ensures SameButStats(s.(nLastGood := time), MarkGood(s.(nLastGood := time), id, time), id)
  {
    IdsSame(s.mapInfo, id, MarkGood(s, id, time).mapInfo[id]);
    assert MarkGood(s, id, time).mapInfo.Keys == s.mapInfo.Keys;
  }

  lemma MovedMarked(c: Config, s: Db, s1: Db, id: int)
    requires c.Valid() && Inv(c, s1, {}, 0) && id in s.mapInfo && SameButStats(s, s1, id)
    requires id in s1.mapInfo && !s1.mapInfo[id].fInTried
    ensures CanMakeTried(c, s1, id)
    ensures Moved(c, s, MakeTried(c, s1, id), id)
    ensures id in MakeTried(c, s1, id).mapInfo && SameData(MakeTried(c, s1, id).mapInfo[id], s1.mapInfo[id])
  {
    MakeTriedMoves(c, s1, id);
    MovedFrom(c, s, s1, MakeTried(c, s1, id), id);
  }

  lemma MovedKeeps(c: Config, s: Db, r: Db, id: int)
    requires c.Valid() && id in s.mapInfo && id != -1 && Moved(c, s, r, id)
    ensures Grows(s, r) && KeepsSlots(s, r)
  {
  }

  lemma GoodCollisions(c: Config, s: Db, r: Db, a: Service, testBeforeEvict: bool, time: int)
    requires c.Valid() && Consistent(c, s) && GoodEffect(c, s, r, a, testBeforeEvict, time)
    ensures CollisionsOk(c, r)
  {
    if GoodMoves(c, s, a, testBeforeEvict) {
      MovedKeeps(c, s.(nLastGood := time), r, s.mapAddr[a.ip]);
      CollisionsKept(c, s, r);
    } else {
      CollisionsKept(c, s, r.(collisions := s.collisions));
    }
  }

  lemma GoodKeeps(c: Config, s: Db, a: Service, testBeforeEvict: bool, time: int)
    requires c.Valid() && Consistent(c, s)
    ensures CanGood(c, s, a, testBeforeEvict, time)
    ensures Consistent(c, Good(c, s, a, testBeforeEvict, time))
  {
    GoodOk(c, s, a, testBeforeEvict, time);
    GoodDoes(c, s, a, testBeforeEvict, time);
    GoodCollisions(c, s, Good(c, s, a, testBeforeEvict, time), a, testBeforeEvict, time);
  }

  // ------------------------------------------------------------------------ Add_

  /** A CAddress: where, what it offers, and when it was last seen. */
  datatype Address = Address(svc: Service, nServices: bv64, nTime: int)

  /** Create, with the time penalty applied and nNew counted. */
  function Create(s: Db, a: Address, source: NetAddr, penalty: int): Db {
    var id := s.nIdCount;
    var info := Info(a.svc, a.nServices, Max(0, a.nTime - penalty), source, 0, 0, 0, 0, 0, false, |s.vRandom|);
    s.(nIdCount := id + 1, mapInfo := s.mapInfo[id := info], mapAddr := s.mapAddr[a.svc.ip := id],
       vRandom := s.vRandom + [id], nNew := s.nNew + 1)
  }

  lemma CreateIndexes(s: Db, a: Address, source: NetAddr, penalty: int)
    requires IdsOk(s.mapInfo, s.nIdCount) && AddrOk(s.mapInfo, s.mapAddr) && RandomOk(s.mapInfo, s.vRandom)
    requires a.svc.ip !in s.mapAddr
    ensures var r := Create(s, a, source, penalty);
            IdsOk(r.mapInfo, r.nIdCount) && AddrOk(r.mapInfo, r.mapAddr) && RandomOk(r.mapInfo, r.vRandom)
  {
  }

  lemma CreateTables(c: Config, m: Infos, t: Table, n: Table, id: int, info: Info)
    requires c.Valid() && TablesOk(c, m, t, n, {}) && id !in m && id != -1 && !info.fInTried && info.nRefCount == 0
    ensures TablesOk(c, m[id := info], t, n, {id})
    ensures TriedIds(m[id := info]) == TriedIds(m) && NewIds(m[id := info]) == NewIds(m) + {id}
  {
    assert CellsOf(n, id) == {};
  }

  lemma CreateOk(c: Config, s: Db, a: Address, source: NetAddr, penalty: int)
    requires c.Valid() && Inv(c, s, {}, 0) && a.svc.ip !in s.mapAddr
    ensures Inv(c, Create(s, a, source, penalty), {s.nIdCount}, 0)
  {
    CreateIndexes(s, a, source, penalty);
    var r := Create(s, a, source, penalty);
    CreateTables(c, s.mapInfo, s.vvTried, s.vvNew, s.nIdCount, r.mapInfo[s.nIdCount]);
  }

  /** May id take over a new cell held by someone else? */
  predicate Takes(s: Db, k: Cell, id: int, now: int)
    requires k in s.vvNew && id in s.mapInfo && (s.vvNew[k] != -1 ==> s.vvNew[k] in s.mapInfo)
  {
    s.vvNew[k] == -1 ||
    (var other := s.mapInfo[s.vvNew[k]];
     IsTerrible(other, now) || (other.nRefCount > 1 && s.mapInfo[id].nRefCount == 0))
  }

  ghost predicate Placeable(c: Config, s: Db, id: int)
    requires c.Valid()
  {
    Inv(c, s, {id}, 0) && id in s.mapInfo && !s.mapInfo[id].fInTried && s.mapInfo[id].nRefCount < MAX_REFS
  }

  /** What the last part of Add_ needs. */
  ghost predicate CanPlace(c: Config, s: Db, id: int, source: NetAddr, now: int)
    requires c.Valid()
  {
    && id in s.mapInfo
    && var k := c.NewSlot(s.mapInfo[id].addr, source);
    && k in s.vvNew && (s.vvNew[k] != -1 ==> s.vvNew[k] in s.mapInfo)
    && (s.vvNew[k] != id ==>
          if Takes(s, k, id, now) then CanClear(s, k) && id in ClearNew(s, k).mapInfo
          else s.mapInfo[id].nRefCount == 0 ==> CanDelete(s, id))
  }

  /** The last part of Add_: give id one more new cell if it can have it. */
  ghost function Place(c: Config, s: Db, id: int, source: NetAddr, now: int): Db
    requires c.Valid() && CanPlace(c, s, id, source, now)
  {
    var k := c.NewSlot(s.mapInfo[id].addr, source);
    if s.vvNew[k] == id then s
    else if Takes(s, k, id, now) then Ref(ClearNew(s, k), id, k)
    else if s.mapInfo[id].nRefCount == 0 then Delete(s, id)
    else s
  }

  lemma PlaceReady(c: Config, s: Db, id: int, source: NetAddr, now: int)
    requires c.Valid() && Placeable(c, s, id)
    ensures CanPlace(c, s, id, source, now)
  {
    var k := c.NewSlot(s.mapInfo[id].addr, source);
    if s.vvNew[k] == id {
    } else if Takes(s, k, id, now) {
      ClearNewShape(c, s, k, {id}, 0, id);
    } else if s.mapInfo[id].nRefCount == 0 {
      DeleteShape(s, id);
    }
  }

  lemma TakeOk(c: Config, s: Db, w: Db, id: int, k: Cell)
    requires c.Valid() && Placeable(c, s, id) && k in s.vvNew && s.vvNew[k] != id
    requires c.BucketPosition(true, k.0, s.mapInfo[id].addr) == k.1
    requires Inv(c, w, {id}, 0) && ClearFrame(s, w, k) && ClearedAt(s, w, k, id)
    ensures id in w.mapInfo && Inv(c, Ref(w, id, k), {}, 0)
  {
    RefOk(c, w, id, k, {id}, 0);
    assert {id} - {id} == {};
  }

  lemma PlaceOk(c: Config, s: Db, id: int, source: NetAddr, now: int)
    requires c.Valid() && Placeable(c, s, id)
    ensures CanPlace(c, s, id, source, now)
    ensures Inv(c, Place(c, s, id, source, now), {}, 0)
  {
    PlaceReady(c, s, id, source, now);
    var k := c.NewSlot(s.mapInfo[id].addr, source);
    if s.vvNew[k] == id {
      assert k in CellsOf(s.vvNew, id);
      Settled(c, s, id);
    } else if Takes(s, k, id, now) {
      ClearNewOk(c, s, k, {id}, 0);
      ClearNewShape(c, s, k, {id}, 0, id);
      TakeOk(c, s, ClearNew(s, k), id, k);
    } else if s.mapInfo[id].nRefCount == 0 {
      DeleteOk(c, s, id, {id}, 0);
      DeleteShape(s, id);
      MoreFree(c, Delete(s, id), {id}, {}, 0);
    } else {
      Settled(c, s, id);
    }
  }

  lemma Settled(c: Config, s: Db, id: int)
    requires c.Valid() && Inv(c, s, {id}, 0) && id in s.mapInfo && s.mapInfo[id].nRefCount >= 1
    ensures Inv(c, s, {}, 0)
  {
  }

  /** What placing does to one id: nothing tried changes, and at most the former
      occupant of the cell (or id itself) is forgotten. */
  ghost predicate PlacedAt(s: Db, r: Db, id: int, victim: int, o: int) {
    && (o !in s.mapInfo ==> o !in r.mapInfo)
    && (o in s.mapInfo && o != victim && o != id ==> o in r.mapInfo)
    && (o in s.mapInfo && s.mapInfo[o].fInTried && o != id ==> o in r.mapInfo)
    && (o in r.mapInfo && o in s.mapInfo ==>
          SameData(r.mapInfo[o], s.mapInfo[o]) && r.mapInfo[o].fInTried == s.mapInfo[o].fInTried)
  }

  ghost predicate PlaceFrame(s: Db, r: Db) {
    && r.vvTried == s.vvTried && r.nTried == s.nTried && r.collisions == s.collisions
    && r.nIdCount == s.nIdCount && r.nLastGood == s.nLastGood
  }

  lemma TakeShape(s: Db, w: Db, id: int, k: Cell, o: int)
    requires k in s.vvNew && id in s.mapInfo && s.vvNew[k] != id
    requires s.vvNew[k] in s.mapInfo ==> !s.mapInfo[s.vvNew[k]].fInTried
    requires ClearFrame(s, w, k) && ClearedAt(s, w, k, id) && ClearedAt(s, w, k, o)
    ensures id in w.mapInfo && PlaceFrame(s, Ref(w, id, k)) && PlacedAt(s, Ref(w, id, k), id, s.vvNew[k], o)
  {
  }

  lemma DropShape(s: Db, id: int, victim: int, o: int)
    requires RandomOk(s.mapInfo, s.vRandom) && id in s.mapInfo && !s.mapInfo[id].fInTried
             && s.mapInfo[id].nRefCount == 0
    ensures CanDelete(s, id) && PlaceFrame(s, Delete(s, id)) && PlacedAt(s, Delete(s, id), id, victim, o)
  {
    DeleteShape(s, id);
    if o in s.mapInfo && o != id {
      assert SameInfo(Delete(s, id).mapInfo[o], (s.mapInfo - {id})[o]);
    }
  }

  lemma PlaceShape(c: Config, s: Db, id: int, source: NetAddr, now: int, o: int)
    requires c.Valid() && Placeable(c, s, id)
    ensures CanPlace(c, s, id, source, now)
    ensures PlaceFrame(s, Place(c, s, id, source, now))
    ensures PlacedAt(s, Place(c, s, id, source, now), id, s.vvNew[c.NewSlot(s.mapInfo[id].addr, source)], o)
    ensures s.mapInfo[id].nRefCount > 0 ==> id in Place(c, s, id, source, now).mapInfo
  {
    PlaceReady(c, s, id, source, now);
    var k := c.NewSlot(s.mapInfo[id].addr, source);
    if s.vvNew[k] == id {
    } else if Takes(s, k, id, now) {
      ClearNewOk(c, s, k, {id}, 0);
      ClearNewShape(c, s, k, {id}, 0, id);
      ClearNewShape(c, s, k, {id}, 0, o);
      TakeShape(s, ClearNew(s, k), id, k, o);
    } else if s.mapInfo[id].nRefCount == 0 {
      DropShape(s, id, s.vvNew[k], o);
    }
  }

  /** The statistics Add_ refreshes on a known address. */
  function Refresh(info: Info, a: Address, penalty: int, now: int): (r: Info)
    ensures Touches(info, r)
  {
    var interval := if now - a.nTime < 24 * 60 * 60 then 60 * 60 else 24 * 60 * 60;
    var time := if a.nTime != 0 && (info.nTime == 0 || info.nTime < a.nTime - interval - penalty)
                then Max(0, a.nTime - penalty) else info.nTime;
    info.(nTime := time, nServices := info.nServices | a.nServices)
  }

  /** Does a known address get a chance at one more new cell? `rnd` is a raw random draw. */
  predicate TriesAgain(info: Info, a: Address, rnd: nat) {
    && a.nTime != 0 && !(info.nTime != 0 && a.nTime <= info.nTime)
    && !info.fInTried
    && info.nRefCount != MAX_REFS
    && (info.nRefCount <= 0 || rnd % Pow2(info.nRefCount) == 0)
  }

  ghost predicate CanAdd(c: Config, s: Db, a: Address, source: NetAddr, penalty: int, now: int, rnd: nat)
    requires c.Valid()
  {
    c.isRoutable(a.svc) ==>
      var p := if a.svc.ip == source then 0 else penalty;
      if a.svc.ip in s.mapAddr then
        && s.mapAddr[a.svc.ip] in s.mapInfo
        && var id := s.mapAddr[a.svc.ip];
           var info := Refresh(s.mapInfo[id], a, p, now);
           TriesAgain(info, a, rnd) ==> CanPlace(c, s.Set(id, info), id, source, now)
      else CanPlace(c, Create(s, a, source, p), s.nIdCount, source, now)
  }

  ghost function Add(c: Config, s: Db, a: Address, source: NetAddr, penalty: int, now: int, rnd: nat): Db
    requires c.Valid() && CanAdd(c, s, a, source, penalty, now, rnd)
  {
    if !c.isRoutable(a.svc) then s
    else
      var p := if a.svc.ip == source then 0 else penalty;
      if a.svc.ip in s.mapAddr then
        var id := s.mapAddr[a.svc.ip];
        var info := Refresh(s.mapInfo[id], a, p, now);
        if TriesAgain(info, a, rnd) then Place(c, s.Set(id, info), id, source, now) else s.Set(id, info)
      else Place(c, Create(s, a, source, p), s.nIdCount, source, now)
  }

  lemma KnownPlaceable(c: Config, s: Db, id: int, info: Info, a: Address, rnd: nat)
    requires c.Valid() && Inv(c, s, {}, 0) && id in s.mapInfo && Touches(s.mapInfo[id], info)
             && TriesAgain(info, a, rnd)
    ensures Placeable(c, s.Set(id, info), id)
  {
    TouchOk(c, s, id, info, {}, 0);
    MoreFree(c, s.Set(id, info), {}, {id}, 0);
  }

  lemma AddOk(c: Config, s: Db, a: Address, source: NetAddr, penalty: int, now: int, rnd: nat)
    requires c.Valid() && Inv(c, s, {}, 0)
    ensures CanAdd(c, s, a, source, penalty, now, rnd)
    ensures Inv(c, Add(c, s, a, source, penalty, now, rnd), {}, 0)
  {
    var p := if a.svc.ip == source then 0 else penalty;
    if c.isRoutable(a.svc) {
      if a.svc.ip in s.mapAddr {
        var id := s.mapAddr[a.svc.ip];
        var info := Refresh(s.mapInfo[id], a, p, now);
        if TriesAgain(info, a, rnd) {
          KnownPlaceable(c, s, id, info, a, rnd);
          PlaceOk(c, s.Set(id, info), id, source, now);
        } else {
          TouchOk(c, s, id, info, {}, 0);
        }
      } else {
        CreateOk(c, s, a, source, p);
        PlaceOk(c, Create(s, a, source, p), s.nIdCount, source, now);
      }
    }
  }

  /** Add_ never touches the tried table, forgets at most one address, and that one
      was not tried; it makes at most the given address known. */
  ghost predicate AddEffect(s: Db, r: Db, a: Service) {
    && r.vvTried == s.vvTried && r.collisions == s.collisions
    && Grows(s, r)
    && TriedIds(r.mapInfo) == TriedIds(s.mapInfo)
    && |s.mapInfo.Keys - r.mapInfo.Keys| <= 1
    && (forall o | o in r.mapInfo && o !in s.mapInfo :: r.mapInfo[o].addr == a)
  }

  lemma PlacedEffect(s: Db, s1: Db, r: Db, id: int, victim: int, a: Service)
    requires PlaceFrame(s1, r) && forall o :: PlacedAt(s1, r, id, victim, o)
    requires s1.vvTried == s.vvTried && s1.collisions == s.collisions && Grows(s, s1)
    requires s1.mapInfo.Keys == s.mapInfo.Keys + {id} && TriedIds(s1.mapInfo) == TriedIds(s.mapInfo)
    requires id in s1.mapInfo && !s1.mapInfo[id].fInTried
    requires id in s.mapInfo ==> id in r.mapInfo
    requires id !in s.mapInfo ==> s1.mapInfo[id].addr == a
    ensures AddEffect(s, r, a)
  {
    forall o ensures o in TriedIds(r.mapInfo) <==> o in TriedIds(s1.mapInfo) {
      assert PlacedAt(s1, r, id, victim, o);
    }
    forall o | o in s.mapInfo.Keys - r.mapInfo.Keys ensures o == victim {
      assert PlacedAt(s1, r, id, victim, o);
    }
    AtMostOne(s.mapInfo.Keys - r.mapInfo.Keys, victim);
    forall o | o in r.mapInfo ensures o in s1.mapInfo && r.mapInfo[o].addr == s1.mapInfo[o].addr {
      assert PlacedAt(s1, r, id, victim, o);
    }
  }

  lemma PlaceEffect(c: Config, s: Db, s1: Db, id: int, source: NetAddr, now: int, a: Service)
    requires c.Valid() && Placeable(c, s1, id)
    requires s1.vvTried == s.vvTried && s1.collisions == s.collisions && Grows(s, s1)
    requires s1.mapInfo.Keys == s.mapInfo.Keys + {id} && TriedIds(s1.mapInfo) == TriedIds(s.mapInfo)
    requires id in s.mapInfo ==> s1.mapInfo[id].nRefCount > 0
    requires id !in s.mapInfo ==> s1.mapInfo[id].addr == a
    ensures CanPlace(c, s1, id, source, now)
    ensures AddEffect(s, Place(c, s1, id, source, now), a)
  {
    PlaceReady(c, s1, id, source, now);
    var r := Place(c, s1, id, source, now);
    var victim := s1.vvNew[c.NewSlot(s1.mapInfo[id].addr, source)];
    forall o ensures PlacedAt(s1, r, id, victim, o) {
      PlaceShape(c, s1, id, source, now, o);
    }
    PlaceShape(c, s1, id, source, now, id);
    PlacedEffect(s, s1, r, id, victim, a);
  }

  lemma TouchEffect(s: Db, id: int, info: Info, a: Service)
    requires id in s.mapInfo && Touches(s.mapInfo[id], info)
    ensures AddEffect(s, s, a) && AddEffect(s, s.Set(id, info), a)
    ensures s.Set(id, info).mapInfo.Keys == s.mapInfo.Keys + {id}
    ensures Grows(s, s.Set(id, info)) && TriedIds(s.Set(id, info).mapInfo) == TriedIds(s.mapInfo)
  {
    IdsSame(s.mapInfo, id, info);
    assert s.mapInfo[id := info].Keys == s.mapInfo.Keys == s.mapInfo.Keys + {id};
    assert s.mapInfo.Keys - s.mapInfo.Keys == {};
  }

  lemma AddKnownDoes(c: Config, s: Db, id: int, info: Info, a: Address, source: NetAddr, now: int, rnd: nat)
    requires c.Valid() && Inv(c, s, {}, 0) && id in s.mapInfo && Touches(s.mapInfo[id], info)
             && TriesAgain(info, a, rnd)
    ensures CanPlace(c, s.Set(id, info), id, source, now)
    ensures AddEffect(s, Place(c, s.Set(id, info), id, source, now), a.svc)
  {
    TouchEffect(s, id, info, a.svc);
    KnownPlaceable(c, s, id, info, a, rnd);
    PlaceEffect(c, s, s.Set(id, info), id, source, now, a.svc);
  }

  lemma CreateShape(s: Db, a: Address, source: NetAddr, penalty: int)
    requires IdsOk(s.mapInfo, s.nIdCount)
    ensures var r := Create(s, a, source, penalty);
            && r.vvTried == s.vvTried && r.collisions == s.collisions && Grows(s, r)
            && s.nIdCount !in s.mapInfo && r.mapInfo.Keys == s.mapInfo.Keys + {s.nIdCount}
            && r.mapInfo[s.nIdCount].addr == a.svc && r.mapInfo[s.nIdCount].nRefCount == 0
            && TriedIds(r.mapInfo) == TriedIds(s.mapInfo) && !r.mapInfo[s.nIdCount].fInTried
  {
  }

  lemma AddUnknownDoes(c: Config, s: Db, a: Address, source: NetAddr, penalty: int, now: int)
    requires c.Valid() && Inv(c, s, {}, 0) && a.svc.ip !in s.mapAddr
    ensures CanPlace(c, Create(s, a, source, penalty), s.nIdCount, source, now)
    ensures AddEffect(s, Place(c, Create(s, a, source, penalty), s.nIdCount, source, now), a.svc)
  {
    CreateOk(c, s, a, source, penalty);
    CreateShape(s, a, source, penalty);
    PlaceEffect(c, s, Create(s, a, source, penalty), s.nIdCount, source, now, a.svc);
  }

  lemma AddDoes(c: Config, s: Db, a: Address, source: NetAddr, penalty: int, now: int, rnd: nat)
    requires c.Valid() && Inv(c, s, {}, 0)
    ensures CanAdd(c, s, a, source, penalty, now, rnd)
    ensures AddEffect(s, Add(c, s, a, source, penalty, now, rnd), a.svc)
  {
    AddOk(c, s, a, source, penalty, now, rnd);
    var p := if a.svc.ip == source then 0 else penalty;
    if !c.isRoutable(a.svc) {
      assert s.mapInfo.Keys - s.mapInfo.Keys == {};
    } else if a.svc.ip in s.mapAddr {
      var id := s.mapAddr[a.svc.ip];
      var info := Refresh(s.mapInfo[id], a, p, now);
      TouchEffect(s, id, info, a.svc);
      if TriesAgain(info, a, rnd) {
        AddKnownDoes(c, s, id, info, a, source, now, rnd);
      }
    } else {
      AddUnknownDoes(c, s, a, source, p, now);
    }
  }

  /** The cell an unknown address wants is free, or its occupant can be spared. */
  predicate CellOpen(s: Db, k: Cell, now: int)
    requires k in s.vvNew && (s.vvNew[k] != -1 ==> s.vvNew[k] in s.mapInfo)
  {
    s.vvNew[k] == -1 ||
    (var other := s.mapInfo[s.vvNew[k]]; IsTerrible(other, now) || other.nRefCount > 1)
  }

  /** id holds cell k of r, once, with the given data; everything else of the table is as in s. */
  predicate Landed(s: Db, r: Db, k: Cell, id: int, data: Info) {
    && id in r.mapInfo && SameData(r.mapInfo[id], data) && r.mapInfo[id].nRefCount == 1 && !r.mapInfo[id].fInTried
    && r.vvNew == s.vvNew[k := id]
  }

  /** id found no cell and is forgotten. */
  predicate Dropped(s: Db, r: Db, a: Service) { r.vvNew == s.vvNew && r.mapAddr == s.mapAddr - {a.ip} }

  lemma TakeLands(c: Config, s: Db, id: int, k: Cell)
    requires c.Valid() && Inv(c, s, {id}, 0) && Lost(s, id) && k in s.vvNew && s.vvNew[k] != id
    ensures CanClear(s, k) && id in ClearNew(s, k).mapInfo
    ensures Landed(s, Ref(ClearNew(s, k), id, k), k, id, s.mapInfo[id])
  {
    ClearNewShape(c, s, k, {id}, 0, id);
    RefLands(s, ClearNew(s, k), id, k);
  }

  lemma RefLands(s: Db, w: Db, id: int, k: Cell)
    requires k in s.vvNew && w.vvNew == s.vvNew[k := -1]
    requires Lost(s, id) && id in w.mapInfo && SameInfo(w.mapInfo[id], s.mapInfo[id])
    ensures Landed(s, Ref(w, id, k), k, id, s.mapInfo[id])
  {
  }

  lemma DropDrops(s: Db, id: int)
    requires RandomOk(s.mapInfo, s.vRandom) && Lost(s, id)
    ensures CanDelete(s, id) && Dropped(s, Delete(s, id), s.mapInfo[id].addr)
  {
    DeleteShape(s, id);
  }

  lemma PlaceLands(c: Config, s: Db, id: int, source: NetAddr, now: int, k: Cell, r: Db)
    requires c.Valid() && Placeable(c, s, id) && s.mapInfo[id].nRefCount == 0
    requires CanPlace(c, s, id, source, now) && r == Place(c, s, id, source, now)
    requires k == c.NewSlot(s.mapInfo[id].addr, source) && k in s.vvNew && s.vvNew[k] != id
    ensures Takes(s, k, id, now) ==> Landed(s, r, k, id, s.mapInfo[id])
    ensures !Takes(s, k, id, now) ==> Dropped(s, r, s.mapInfo[id].addr)
  {
    if Takes(s, k, id, now) {
      TakeLands(c, s, id, k);
    } else {
      DropDrops(s, id);
    }
  }

  /** What is known about an address from its first announcement. */
  function NewEntry(a: Address, source: NetAddr, penalty: int): Info {
    Info(a.svc, a.nServices, if a.nTime < penalty then 0 else a.nTime - penalty, source, 0, 0, 0, 0, 0, false, 0)
  }

  lemma CreatePlaces(c: Config, s: Db, a: Address, source: NetAddr, p: int, now: int, k: Cell, r: Db)
    requires c.Valid() && Inv(c, s, {}, 0) && a.svc.ip !in s.mapAddr && k == c.NewSlot(a.svc, source)
    requires CanPlace(c, Create(s, a, source, p), s.nIdCount, source, now)
    requires r == Place(c, Create(s, a, source, p), s.nIdCount, source, now)
    ensures k in s.vvNew && (s.vvNew[k] != -1 ==> s.vvNew[k] in s.mapInfo)
    ensures CellOpen(s, k, now) ==> Landed(s, r, k, s.nIdCount, NewEntry(a, source, p))
    ensures !CellOpen(s, k, now) ==> r.vvNew == s.vvNew && a.svc.ip !in r.mapAddr
  {
    CreateOk(c, s, a, source, p);
    PlaceLands(c, Create(s, a, source, p), s.nIdCount, source, now, k, r);
  }

  /** An unknown routable address is known afterwards, in the cell its source gives it,
      exactly when that cell is open; otherwise the new table is left as it was. */
  lemma AddPlaces(c: Config, s: Db, a: Address, source: NetAddr, penalty: int, now: int, rnd: nat, r: Db)
    requires c.Valid() && Inv(c, s, {}, 0) && c.isRoutable(a.svc) && a.svc.ip !in s.mapAddr
    requires CanAdd(c, s, a, source, penalty, now, rnd) && r == Add(c, s, a, source, penalty, now, rnd)
    ensures var k := c.NewSlot(a.svc, source);
            && k in s.vvNew && (s.vvNew[k] != -1 ==> s.vvNew[k] in s.mapInfo)
            && if CellOpen(s, k, now)
               then Landed(s, r, k, s.nIdCount, NewEntry(a, source, if a.svc.ip == source then 0 else penalty))
               else r.vvNew == s.vvNew && a.svc.ip !in r.mapAddr
  {
    CreatePlaces(c, s, a, source, if a.svc.ip == source then 0 else penalty, now, c.NewSlot(a.svc, source), r);
  }

  lemma AddKeeps(c: Config, s: Db, a: Address, source: NetAddr, penalty: int, now: int, rnd: nat)
    requires c.Valid() && Consistent(c, s)
    ensures CanAdd(c, s, a, source, penalty, now, rnd)
    ensures Consistent(c, Add(c, s, a, source, penalty, now, rnd))
  {
    AddOk(c, s, a, source, penalty, now, rnd);
    AddDoes(c, s, a, source, penalty, now, rnd);
    CollisionsKept(c, s, Add(c, s, a, source, penalty, now, rnd));
  }

  // --------------------------------------------------- statistics-only operations

  function Attempt(s: Db, a: Service, countFailure: bool, time: int): Db {
    if !Found(s, a) then s
    else
      var id := s.mapAddr[a.ip];
      var info := s.mapInfo[id].(nLastTry := time);
      s.Set(id, if countFailure && info.nLastCountAttempt < s.nLastGood
                then info.(nLastCountAttempt := time, nAttempts := info.nAttempts + 1) else info)
  }

  function Connected(s: Db, a: Service, time: int): Db {
    if !Found(s, a) then s
    else
      var id := s.mapAddr[a.ip];
      var info := s.mapInfo[id];
      s.Set(id, if time - info.nTime > 20 * 60 then info.(nTime := time) else info)
  }

  function SetServices(s: Db, a: Service, services: bv64): Db {
    if !Found(s, a) then s
    else s.Set(s.mapAddr[a.ip], s.mapInfo[s.mapAddr[a.ip]].(nServices := services))
  }

  lemma TouchKeeps(c: Config, s: Db, id: int, info: Info)
    requires c.Valid() && Consistent(c, s) && id in s.mapInfo && Touches(s.mapInfo[id], info)
    ensures Consistent(c, s.Set(id, info))
  {
    TouchOk(c, s, id, info, {}, 0);
    CollisionsKept(c, s, s.Set(id, info));
  }

  lemma StatisticsKeep(c: Config, s: Db, a: Service, countFailure: bool, time: int, services: bv64)
    requires c.Valid() && Consistent(c, s)
    ensures Consistent(c, Attempt(s, a, countFailure, time))
    ensures Consistent(c, Connected(s, a, time))
    ensures Consistent(c, SetServices(s, a, services))
  {
    if Found(s, a) {
      var id := s.mapAddr[a.ip];
      TouchKeeps(c, s, id, Attempt(s, a, countFailure, time).mapInfo[id]);
      TouchKeeps(c, s, id, Connected(s, a, time).mapInfo[id]);
      TouchKeeps(c, s, id, SetServices(s, a, services).mapInfo[id]);
    }
  }

  lemma SwapKeeps(c: Config, s: Db, i: int, j: int)
    requires c.Valid() && Consistent(c, s) && 0 <= i < |s.vRandom| && 0 <= j < |s.vRandom|
    ensures Consistent(c, SwapRandom(s, i, j))
  {
    SwapOk(c, s, i, j, {}, 0);
    SwapShape(s, i, j);
    var r := SwapRandom(s, i, j);
    forall id | id in r.mapInfo ensures id in s.mapInfo && r.mapInfo[id].addr == s.mapInfo[id].addr {
      assert SameInfo(r.mapInfo[id], s.mapInfo[id]);
    }
    CollisionsKept(c, s, r);
  }

  // ------------------------------------------------------------------- collisions

  datatype Verdict = Keep | Erase | Replace

  /** What ResolveCollisions_ decides about one pending collision. */
  function Judge(c: Config, s: Db, id: int, now: int): Verdict
    requires c.Valid()
  {
    if id !in s.mapInfo then Erase
    else
      var info := s.mapInfo[id];
      var slot := c.TriedSlot(info.addr);
      if !c.isValid(info.addr) then Erase
      else if slot in s.vvTried && s.vvTried[slot] != -1 && s.vvTried[slot] in s.mapInfo then
        var occupant := s.mapInfo[s.vvTried[slot]];
        if now - occupant.nLastSuccess < REPLACEMENT_SECONDS then Erase
        else if now - occupant.nLastTry < REPLACEMENT_SECONDS then
          if now - occupant.nLastTry > 60 then Replace else Keep
        else if now - info.nLastSuccess > TEST_WINDOW then Replace
        else Keep
      else Replace
  }

  ghost predicate CanResolve(c: Config, s: Db, id: int, now: int)
    requires c.Valid()
  {
    Judge(c, s, id, now).Replace? ==> id in s.mapInfo && CanGood(c, s, s.mapInfo[id].addr, false, now)
  }

  /** One round of ResolveCollisions_ for a pending id. */
  ghost function Resolve(c: Config, s: Db, id: int, now: int): Db
    requires c.Valid() && CanResolve(c, s, id, now)
  {
    match Judge(c, s, id, now)
    case Keep => s
    case Erase => s.(collisions := s.collisions - {id})
    case Replace =>
      var r := Good(c, s, s.mapInfo[id].addr, false, now);
      r.(collisions := r.collisions - {id})
  }

  lemma FewerCollisions(c: Config, s: Db, id: int)
    requires c.Valid() && Consistent(c, s)
    ensures Consistent(c, s.(collisions := s.collisions - {id}))
  {
    CardLe(s.collisions - {id}, s.collisions);
    CollisionsKept(c, s, s.(collisions := s.collisions - {id}));
  }

  lemma CardLe(a: set<int>, b: set<int>)
    requires a <= b
    ensures |a| <= |b|
  {
    assert b == a + (b - a);
  }

  lemma ResolveKeeps(c: Config, s: Db, id: int, now: int)
    requires c.Valid() && Consistent(c, s)
    ensures CanResolve(c, s, id, now)
    ensures Consistent(c, Resolve(c, s, id, now))
  {
    match Judge(c, s, id, now) {
      case Keep =>
      case Erase => FewerCollisions(c, s, id);
      case Replace =>
        GoodKeeps(c, s, s.mapInfo[id].addr, false, now);
        FewerCollisions(c, Good(c, s, s.mapInfo[id].addr, false, now), id);
    }
  }

  /** A collision resolved in its favour is in the tried table afterwards. */
  lemma ReplaceTakesEffect(c: Config, s: Db, id: int, now: int)
    requires c.Valid() && Consistent(c, s) && Judge(c, s, id, now).Replace?
    ensures CanResolve(c, s, id, now)
    ensures id in TriedIds(Resolve(c, s, id, now).mapInfo)
    ensures id !in Resolve(c, s, id, now).collisions
  {
    var a := s.mapInfo[id].addr;
    GoodDoes(c, s, a, false, now);
    assert s.mapAddr[a.ip] == id;
  }

  /** The pending collision SelectTriedCollision_ picks always has an occupied slot,
      so that looking up the occupant never inserts a bogus entry into mapInfo. */
  lemma CollisionSlotOccupied(c: Config, s: Db, id: int)
    requires c.Valid() && Consistent(c, s) && id in s.collisions && id in s.mapInfo
    ensures var slot := c.TriedSlot(s.mapInfo[id].addr);
            && slot in s.vvTried && s.vvTried[slot] in s.mapInfo
            && s.mapInfo[s.vvTried[slot]].fInTried && c.TriedSlot(s.mapInfo[s.vvTried[slot]].addr) == slot
  {
    assert s.vvTried[c.TriedSlot(s.mapInfo[id].addr)] != -1;
  }

  // ------------------------------------------------------------------- whole runs

  datatype Op =
    | OpAdd(a: Address, source: NetAddr, penalty: int, now: int, rnd: nat)
    | OpGood(svc: Service, testBeforeEvict: bool, now: int)
    | OpAttempt(svc: Service, countFailure: bool, now: int)
    | OpConnected(svc: Service, now: int)
    | OpSetServices(svc: Service, services: bv64)
    | OpShuffle(i: int, j: int)          // one swap of GetAddr_
    | OpResolve(id: int, now: int)       // one round of ResolveCollisions_
    | OpForget(id: int)                  // SelectTriedCollision_ drops a stale id

  /** Nothing a run may do: give an id a new address, reuse an id, empty a tried slot. */
  ghost predicate Follows(s: Db, r: Db) { Grows(s, r) && KeepsSlots(s, r) }

  lemma FollowsTrans(s: Db, r: Db, t: Db)
    requires Follows(s, r) && Follows(r, t) && IdsOk(s.mapInfo, s.nIdCount)
    ensures Follows(s, t)
  {
  }

  lemma GoodFollows(c: Config, s: Db, r: Db, a: Service, testBeforeEvict: bool, time: int)
    requires c.Valid() && Consistent(c, s) && c.TriedSlot(a) in s.vvTried
    requires GoodEffect(c, s, r, a, testBeforeEvict, time)
    ensures Follows(s, r)
  {
    if GoodMoves(c, s, a, testBeforeEvict) {
      MovedKeeps(c, s.(nLastGood := time), r, s.mapAddr[a.ip]);
    }
  }

  ghost function ApplyResolve(c: Config, s: Db, id: int, now: int): (r: Db)
    requires c.Valid() && Consistent(c, s)
    ensures Consistent(c, r) && Follows(s, r)
  {
    ResolveKeeps(c, s, id, now);
    ResolveFollows(c, s, id, now);
    Resolve(c, s, id, now)
  }

  lemma EraseFollows(s: Db, r: Db, ids: set<int>)
    requires Follows(s, r)
    ensures Follows(s, r.(collisions := ids))
  {
  }

  lemma ResolveFollows(c: Config, s: Db, id: int, now: int)
    requires c.Valid() && Consistent(c, s)
    ensures CanResolve(c, s, id, now) && Follows(s, Resolve(c, s, id, now))
  {
    ResolveKeeps(c, s, id, now);
    if Judge(c, s, id, now).Replace? {
      var r := ApplyGood(c, s, s.mapInfo[id].addr, false, now);
      EraseFollows(s, r, r.collisions - {id});
      assert Resolve(c, s, id, now) == r.(collisions := r.collisions - {id});
    }
  }

  ghost function ApplyGood(c: Config, s: Db, a: Service, testBeforeEvict: bool, now: int): (r: Db)
    requires c.Valid() && Consistent(c, s)
    ensures Consistent(c, r) && Follows(s, r)
  {
    GoodKeeps(c, s, a, testBeforeEvict, now);
    GoodDoes(c, s, a, testBeforeEvict, now);
    GoodFollows(c, s, Good(c, s, a, testBeforeEvict, now), a, testBeforeEvict, now);
    Good(c, s, a, testBeforeEvict, now)
  }

  ghost function ApplyAdd(c: Config, s: Db, a: Address, source: NetAddr, penalty: int, now: int, rnd: nat): (r: Db)
    requires c.Valid() && Consistent(c, s)
    ensures Consistent(c, r) && Follows(s, r)
  {
    AddKeeps(c, s, a, source, penalty, now, rnd);
    AddDoes(c, s, a, source, penalty, now, rnd);
    Add(c, s, a, source, penalty, now, rnd)
  }

  ghost function ApplyShuffle(c: Config, s: Db, i: int, j: int): (r: Db)
    requires c.Valid() && Consistent(c, s)
    ensures Consistent(c, r) && Follows(s, r)
  {
    if 0 <= i < |s.vRandom| && 0 <= j < |s.vRandom| then
      SwapKeeps(c, s, i, j);
      ShuffleFollows(s, i, j);
      SwapRandom(s, i, j)
    else s
  }

  lemma ShuffleFollows(s: Db, i: int, j: int)
    requires RandomOk(s.mapInfo, s.vRandom) && 0 <= i < |s.vRandom| && 0 <= j < |s.vRandom|
    ensures Follows(s, SwapRandom(s, i, j))
  {
    SwapShape(s, i, j);
    var r := SwapRandom(s, i, j);
    forall id | id in r.mapInfo ensures id in s.mapInfo && r.mapInfo[id].addr == s.mapInfo[id].addr {
      assert SameInfo(r.mapInfo[id], s.mapInfo[id]);
    }
  }

  ghost function ApplyTouch(c: Config, s: Db, a: Service, info: Info): (r: Db)
    requires c.Valid() && Consistent(c, s)
    requires Found(s, a) ==> Touches(s.mapInfo[s.mapAddr[a.ip]], info)
    ensures Consistent(c, r) && Follows(s, r)
  {
    if Found(s, a) then
      TouchKeeps(c, s, s.mapAddr[a.ip], info);
      s.Set(s.mapAddr[a.ip], info)
    else s
  }

  ghost function ApplyStatistics(c: Config, s: Db, op: Op): (r: Db)
    requires c.Valid() && Consistent(c, s) && (op.OpAttempt? || op.OpConnected? || op.OpSetServices?)
    ensures Consistent(c, r) && Follows(s, r)
  {
    if !Found(s, op.svc) then s
    else
      var id := s.mapAddr[op.svc.ip];
      var t := match op
        case OpAttempt(a, f, now) => Attempt(s, a, f, now)
        case OpConnected(a, now) => Connected(s, a, now)
        case OpSetServices(a, v) => SetServices(s, a, v);
      ApplyTouch(c, s, op.svc, t.mapInfo[id])
  }

  ghost function ApplyForget(c: Config, s: Db, id: int): (r: Db)
    requires c.Valid() && Consistent(c, s)
    ensures Consistent(c, r) && Follows(s, r)
  {
    FewerCollisions(c, s, id);
    s.(collisions := s.collisions - {id})
  }

  ghost function Apply(c: Config, s: Db, op: Op): (r: Db)
    requires c.Valid() && Consistent(c, s)
    ensures Consistent(c, r) && Follows(s, r)
  {
    match op
    case OpAdd(a, source, penalty, now, rnd) => ApplyAdd(c, s, a, source, penalty, now, rnd)
    case OpGood(a, t, now) => ApplyGood(c, s, a, t, now)
    case OpShuffle(i, j) => ApplyShuffle(c, s, i, j)
    case OpResolve(id, now) => ApplyResolve(c, s, id, now)
    case OpForget(id) => ApplyForget(c, s, id)
    case _ => ApplyStatistics(c, s, op)
  }

  /** Every run of operations, whatever the hashes, clocks and random draws, keeps
      the tables consistent, never reuses an id and never empties a tried slot. */
  ghost function Run(c: Config, s: Db, ops: seq<Op>): (r: Db)
    requires c.Valid() && Consistent(c, s)
    ensures Consistent(c, r) && Follows(s, r)
    decreases |ops|
  {
    if ops == [] then s
    else
      var s1 := Apply(c, s, ops[0]);
      var r := Run(c, s1, ops[1..]);
      FollowsTrans(s, s1, r);
      r
  }

  lemma {:induction false} RunNext(c: Config, s: Db, ops: seq<Op>, op: Op)
    requires c.Valid() && Consistent(c, s)
    ensures Run(c, s, ops + [op]) == Apply(c, Run(c, s, ops), op)
    decreases |ops|
  {
    var all := ops + [op];
    if ops == [] {
      assert all[1..] == [] && all[0] == op;
    } else {
      assert all[1..] == ops[1..] + [op] && all[0] == ops[0];
      RunNext(c, Apply(c, s, ops[0]), ops[1..], op);
    }
  }

  /** The same entries in the same tables; only the order of vRandom may differ. */
  ghost predicate Reordered(s: Db, r: Db) {
    && r == s.(mapInfo := r.mapInfo, vRandom := r.vRandom)
    && SameButPos(r.mapInfo, s.mapInfo) && |r.vRandom| == |s.vRandom|
  }

  ghost predicate AllShuffles(ops: seq<Op>) { forall i | 0 <= i < |ops| :: ops[i].OpShuffle? }

  lemma ShuffleIs(c: Config, s: Db, i: int, j: int)
    requires c.Valid() && Consistent(c, s) && 0 <= i < |s.vRandom| && 0 <= j < |s.vRandom|
    ensures RandomOk(s.mapInfo, s.vRandom) && Apply(c, s, OpShuffle(i, j)) == SwapRandom(s, i, j)
  {
    ShuffleApplies(c, s, i, j, ApplyShuffle(c, s, i, j));
  }

  lemma ShuffleApplies(c: Config, s: Db, i: int, j: int, r: Db)
    requires c.Valid() && Consistent(c, s) && r == ApplyShuffle(c, s, i, j)
    ensures Apply(c, s, OpShuffle(i, j)) == r
  {
  }

  lemma ShuffleReorders(c: Config, s: Db, op: Op)
    requires c.Valid() && Consistent(c, s) && op.OpShuffle?
    ensures Reordered(s, Apply(c, s, op))
  {
    if 0 <= op.i < |s.vRandom| && 0 <= op.j < |s.vRandom| {
      SwapShape(s, op.i, op.j);
    }
  }

  lemma {:induction false} ShufflesReorder(c: Config, s: Db, ops: seq<Op>)
    requires c.Valid() && Consistent(c, s) && AllShuffles(ops)
    ensures Reordered(s, Run(c, s, ops))
    decreases |ops|
  {
    if ops != [] {
      var s1 := Apply(c, s, ops[0]);
      ShuffleReorders(c, s, ops[0]);
      ShufflesReorder(c, s1, ops[1..]);
      SameTrans(Run(c, s1, ops[1..]).mapInfo, s1.mapInfo, s.mapInfo);
    }
  }

  // ------------------------------------------------ all pending collisions in turn

  ghost predicate Resolved(c: Config, ss: seq<Db>, ids: seq<int>, now: int -> int, i: nat)
    requires c.Valid() && i < |ids| && |ss| == |ids| + 1
  {
    Consistent(c, ss[i]) && ss[i + 1] == ApplyResolve(c, ss[i], ids[i], now(ids[i]))
  }

  /** The states between the rounds of ResolveCollisions_. */
  ghost predicate ResolveTrace(c: Config, ss: seq<Db>, ids: seq<int>, now: int -> int)
    requires c.Valid()
  {
    |ss| == |ids| + 1 && forall i: nat | i < |ids| :: Resolved(c, ss, ids, now, i)
  }

  lemma ResolveOn(c: Config, ss: seq<Db>, ids: seq<int>, now: int -> int, id: int, r: Db)
    requires c.Valid() && ResolveTrace(c, ss, ids, now) && Consistent(c, ss[|ids|])
    requires r == ApplyResolve(c, ss[|ids|], id, now(id))
    ensures ResolveTrace(c, ss + [r], ids + [id], now)
  {
    var ts, all := ss + [r], ids + [id];
    forall i: nat | i < |all|
      ensures Resolved(c, ts, all, now, i)
    {
      if i < |ids| {
        assert Resolved(c, ss, ids, now, i);
      }
    }
  }

  /** Without a test before eviction nothing new becomes pending. */
  lemma GoodAddsNone(c: Config, s: Db, a: Service, now: int, r: Db)
    requires c.Valid() && Consistent(c, s) && CanGood(c, s, a, false, now)
    requires r == Good(c, s, a, false, now)
    ensures r.collisions <= s.collisions
  {
    GoodDoes(c, s, a, false, now);
  }

  lemma ReplaceErases(c: Config, s: Db, id: int, now: int, r: Db)
    requires c.Valid() && Consistent(c, s) && CanResolve(c, s, id, now) && Judge(c, s, id, now).Replace?
    requires r == Resolve(c, s, id, now)
    ensures r.collisions <= s.collisions && id !in r.collisions
  {
    var a := s.mapInfo[id].addr;
    var good := Good(c, s, a, false, now);
    GoodAddsNone(c, s, a, now, good);
    assert r.collisions == good.collisions - {id};
  }

  lemma ResolveErases(c: Config, s: Db, id: int, now: int)
    requires c.Valid() && Consistent(c, s)
    ensures CanResolve(c, s, id, now)
    ensures Resolve(c, s, id, now).collisions <= s.collisions
    ensures id in Resolve(c, s, id, now).collisions ==> Judge(c, s, id, now).Keep?
  {
    ResolveKeeps(c, s, id, now);
    if Judge(c, s, id, now).Replace? {
      ReplaceErases(c, s, id, now, Resolve(c, s, id, now));
    }
  }

  lemma RoundErases(c: Config, ss: seq<Db>, ids: seq<int>, now: int -> int, i: nat)
    requires c.Valid() && ResolveTrace(c, ss, ids, now) && i < |ids|
    ensures ss[i + 1].collisions <= ss[i].collisions
    ensures ids[i] in ss[i + 1].collisions ==> Judge(c, ss[i], ids[i], now(ids[i])).Keep?
  {
    assert Resolved(c, ss, ids, now, i);
    ResolveErases(c, ss[i], ids[i], now(ids[i]));
  }

  lemma {:induction false} CollisionsShrink(c: Config, ss: seq<Db>, ids: seq<int>, now: int -> int, i: nat, j: nat)
    requires c.Valid() && ResolveTrace(c, ss, ids, now) && i <= j < |ss|
    ensures ss[j].collisions <= ss[i].collisions
    decreases j
  {
    if i < j {
      CollisionsShrink(c, ss, ids, now, i, j - 1);
      RoundErases(c, ss, ids, now, j - 1);
    }
  }

  /** An id still pending at the end was left pending on purpose when its turn came. */
  lemma ResolvesAll(c: Config, ss: seq<Db>, ids: seq<int>, now: int -> int, i: nat)
    requires c.Valid() && ResolveTrace(c, ss, ids, now) && i < |ids|
    ensures ids[i] in ss[|ids|].collisions ==> Judge(c, ss[i], ids[i], now(ids[i])).Keep?
  {
    RoundErases(c, ss, ids, now, i);
    CollisionsShrink(c, ss, ids, now, i + 1, |ids|);
  }
  /** The rounds as operations of a run. */
  ghost function Rounds(ids: seq<int>, now: int -> int): seq<Op> {
    seq(|ids|, i requires 0 <= i < |ids| => OpResolve(ids[i], now(ids[i])))
  }

  lemma RoundApplies(c: Config, ss: seq<Db>, ids: seq<int>, now: int -> int, i: nat, op: Op)
    requires c.Valid() && ResolveTrace(c, ss, ids, now) && i < |ids| && op == Rounds(ids, now)[i]
    ensures Consistent(c, ss[i]) && ss[i + 1] == Apply(c, ss[i], op)
  {
    assert Resolved(c, ss, ids, now, i);
  }

  lemma RoundsNext(ids: seq<int>, now: int -> int, i: nat)
    requires i < |ids|
    ensures Rounds(ids, now)[..i + 1] == Rounds(ids, now)[..i] + [Rounds(ids, now)[i]]
  {
  }

  lemma {:induction false} RunOneMore(c: Config, s: Db, ops: seq<Op>, op: Op, p: Db, q: Db, all: seq<Op>)
    requires c.Valid() && Consistent(c, s) && Consistent(c, p) && all == ops + [op]
    requires p == Run(c, s, ops) && q == Apply(c, p, op)
    ensures q == Run(c, s, all)
  {
    RunNext(c, s, ops, op);
  }

  lemma {:induction false} TraceRuns(c: Config, ss: seq<Db>, ids: seq<int>, now: int -> int, i: nat)
    requires c.Valid() && ResolveTrace(c, ss, ids, now) && i <= |ids| && Consistent(c, ss[0])
    ensures ss[i] == Run(c, ss[0], Rounds(ids, now)[..i])
  {
    if i > 0 {
      TraceRuns(c, ss, ids, now, i - 1);
      var ops := Rounds(ids, now);
      RoundApplies(c, ss, ids, now, i - 1, ops[i - 1]);
      RoundsNext(ids, now, i - 1);
      RunOneMore(c, ss[0], ops[..i - 1], ops[i - 1], ss[i - 1], ss[i], ops[..i]);
    }
  }
}
