/** What the operations of the address manager do to the addresses, in terms of the times
    and counters kept about them: which are still any good, when a waiting address takes a
    tried slot, and what an announcement changes. */
module AddrEffects {
  import opened Basics
  import opened Powers
  import opened AddrTables
  import opened AddrOps

  // ----------------------------------------------------------- still any good

  /** Tried within the last minute, or else seen within thirty days and not more than ten
      minutes ahead, with a success or fewer than three failures, and with a success within
      a week or fewer than ten failures. */
  predicate Healthy(info: Info, now: int) {
    || (info.nLastTry != 0 && now - info.nLastTry <= 60)
    || (&& info.nTime != 0 && now - info.nTime <= 2592000 && info.nTime - now <= 600
        && (info.nLastSuccess != 0 || info.nAttempts < 3)
        && (now - info.nLastSuccess <= 604800 || info.nAttempts < 10))
  }

  lemma TerribleIff(info: Info, now: int)
    ensures IsTerrible(info, now) <==> !Healthy(info, now)
  {
  }

  /** One attempt to connect, after which a failure may count. */
  datatype Try = Try(counts: bool, time: int)

  function Attempts(s: Db, a: Service, tries: seq<Try>): Db
    decreases |tries|
  {
    if tries == [] then s
    else
      var n := |tries| - 1;
      Attempt(Attempts(s, a, tries[..n]), a, tries[n].counts, tries[n].time)
  }

  predicate AnyCounts(tries: seq<Try>) { exists i | 0 <= i < |tries| :: tries[i].counts }

  /** However often an address is tried, the failures between two successes of anybody count
      as one. */
  lemma {:induction false} AttemptsCountOnce(s: Db, a: Service, tries: seq<Try>, r: Db)
    requires Found(s, a) && r == Attempts(s, a, tries)
    requires forall i | 0 <= i < |tries| :: tries[i].time >= s.nLastGood
    ensures Found(r, a) && CountedOnce(s, r, s.mapAddr[a.ip], tries)
    decreases |tries|
  {
    var n := |tries| - 1;
    if tries != [] {
      AttemptsCountOnce(s, a, tries[..n], Attempts(s, a, tries[..n]));
      assert AnyCounts(tries) <==> AnyCounts(tries[..n]) || tries[n].counts;
    } else {
      assert s.mapInfo == s.mapInfo[s.mapAddr[a.ip] := s.mapInfo[s.mapAddr[a.ip]]];
    }
  }

  /** Of id the last try is the last of the tries, one failure is added if one counts and none
      has counted since the last success of anybody, and nothing else changes. */
  ghost predicate CountedOnce(s: Db, r: Db, id: int, tries: seq<Try>)
    requires id in s.mapInfo
  {
    && id in r.mapInfo && r == s.Set(id, r.mapInfo[id])
    && var before, after := s.mapInfo[id], r.mapInfo[id];
       var more := if AnyCounts(tries) && before.nLastCountAttempt < s.nLastGood then 1 else 0;
    && after == before.(nLastTry := after.nLastTry, nLastCountAttempt := after.nLastCountAttempt,
                        nAttempts := before.nAttempts + more)
    && after.nLastTry == (if tries == [] then before.nLastTry else tries[|tries| - 1].time)
    && (if more == 1 then after.nLastCountAttempt >= s.nLastGood
        else after.nLastCountAttempt == before.nLastCountAttempt)
  }

  /** The time an address was last seen follows its connections in steps of twenty minutes. */
  ghost predicate Seen(s: Db, r: Db, id: int, time: int)
    requires id in s.mapInfo
  {
    && id in r.mapInfo && r == s.Set(id, s.mapInfo[id].(nTime := r.mapInfo[id].nTime))
    && time - r.mapInfo[id].nTime <= 1200
    && (r.mapInfo[id].nTime == s.mapInfo[id].nTime || (r.mapInfo[id].nTime == time > s.mapInfo[id].nTime + 1200))
  }

  lemma ConnectedSeen(s: Db, a: Service, time: int, r: Db)
    requires Found(s, a) && r == Connected(s, a, time)
    ensures Seen(s, r, s.mapAddr[a.ip], time)
  {
    assert s.mapInfo == s.mapInfo[s.mapAddr[a.ip] := s.mapInfo[s.mapAddr[a.ip]]];
  }

  // ------------------------------------------------- when a tried slot changes

  /** The occupant has had no success for four hours, and either was tried since, more than
      a minute ago, or could not be tried for forty minutes after the waiting one succeeded. */
  predicate GivesWay(occupant: Info, waiting: Info, now: int) {
    && now - occupant.nLastSuccess >= 14400
    && (|| 60 < now - occupant.nLastTry < 14400
        || (now - occupant.nLastTry >= 14400 && now - waiting.nLastSuccess > 2400))
  }

  /** A round of ResolveCollisions_ for one pending id. A valid address gets its slot exactly
      if that is empty or its occupant gives way. It stays pending exactly if it is valid and
      its occupant neither gives way nor had a success within four hours. */
  ghost predicate RoundDoes(c: Config, s: Db, r: Db, id: int, now: int)
    requires c.Valid()
  {
    if id !in s.mapInfo then r == s.(collisions := s.collisions - {id})
    else
      var info := s.mapInfo[id];
      var slot := c.TriedSlot(info.addr);
      && slot in s.vvTried && (s.vvTried[slot] == -1 || s.vvTried[slot] in s.mapInfo)
      && var e := s.vvTried[slot];
         var takes := c.isValid(info.addr) && (e == -1 || GivesWay(s.mapInfo[e], info, now));
         var waits := c.isValid(info.addr) && e != -1 && now - s.mapInfo[e].nLastSuccess >= 14400 && !takes;
      && r.vvTried == (if takes then s.vvTried[slot := id] else s.vvTried)
      && r.collisions == (if waits then s.collisions else s.collisions - {id})
      && (if takes then Arrives(s, r, id, e, now) else r == s.(collisions := r.collisions))
  }

  /** id is tried and was just found good; a former occupant is new again. */
  ghost predicate Arrives(s: Db, r: Db, id: int, e: int, now: int)
    requires id in s.mapInfo
  {
    && id in r.mapInfo && r.mapInfo[id].fInTried && JustGood(s.mapInfo[id], r.mapInfo[id], now)
    && (e != -1 && e != id ==> e in r.mapInfo && !r.mapInfo[e].fInTried)
    && (forall o | o in r.mapInfo && o != id :: o in s.mapInfo && SameData(r.mapInfo[o], s.mapInfo[o]))
    && |s.mapInfo.Keys - r.mapInfo.Keys| <= 1
  }

  lemma GoodArrives(c: Config, s: Db, id: int, now: int, g: Db)
    requires c.Valid() && Consistent(c, s) && id in s.mapInfo
    requires CanGood(c, s, s.mapInfo[id].addr, false, now) && g == Good(c, s, s.mapInfo[id].addr, false, now)
    ensures var slot := c.TriedSlot(s.mapInfo[id].addr);
            && slot in s.vvTried && g.vvTried == s.vvTried[slot := id] && g.collisions == s.collisions
            && Arrives(s, g, id, s.vvTried[slot], now)
  {
    var a := s.mapInfo[id].addr;
    GoodDoes(c, s, a, false, now);
    assert s.mapAddr[a.ip] == id && Found(s, a);
    if s.mapInfo[id].fInTried {
      assert s.vvTried[c.TriedSlot(a) := id] == s.vvTried;
      assert s.mapInfo.Keys - g.mapInfo.Keys == {};
      assert id in TriedIds(s.mapInfo);
    } else {
      assert id in TriedIds(g.mapInfo);
    }
  }

  /** The verdict on a known pending address, case by case. */
  lemma JudgedBy(c: Config, s: Db, id: int, now: int, slot: Cell, e: int)
    requires c.Valid() && id in s.mapInfo && slot == c.TriedSlot(s.mapInfo[id].addr) && slot in s.vvTried
    requires e == s.vvTried[slot] && (e != -1 ==> e in s.mapInfo)
    ensures Judge(c, s, id, now).Replace? <==>
              c.isValid(s.mapInfo[id].addr) && (e == -1 || GivesWay(s.mapInfo[e], s.mapInfo[id], now))
    ensures Judge(c, s, id, now).Keep? <==>
              && c.isValid(s.mapInfo[id].addr) && e != -1 && now - s.mapInfo[e].nLastSuccess >= 14400
              && !GivesWay(s.mapInfo[e], s.mapInfo[id], now)
  {
  }

  lemma SlotHolds(c: Config, s: Db, id: int)
    requires c.Valid() && Consistent(c, s) && id in s.mapInfo
    ensures var slot := c.TriedSlot(s.mapInfo[id].addr);
            slot in s.vvTried && (s.vvTried[slot] == -1 || s.vvTried[slot] in s.mapInfo)
  {
  }

  lemma ReplaceDoes(c: Config, s: Db, id: int, now: int, r: Db)
    requires c.Valid() && Consistent(c, s) && CanResolve(c, s, id, now) && r == Resolve(c, s, id, now)
    requires Judge(c, s, id, now).Replace?
    ensures var slot := c.TriedSlot(s.mapInfo[id].addr);
            && slot in s.vvTried && r.vvTried == s.vvTried[slot := id] && r.collisions == s.collisions - {id}
            && Arrives(s, r, id, s.vvTried[slot], now)
  {
    GoodArrives(c, s, id, now, Good(c, s, s.mapInfo[id].addr, false, now));
  }

  lemma ResolveDoes(c: Config, s: Db, id: int, now: int, r: Db)
    requires c.Valid() && Consistent(c, s) && CanResolve(c, s, id, now) && r == Resolve(c, s, id, now)
    ensures RoundDoes(c, s, r, id, now)
  {
    if id in s.mapInfo {
      var slot := c.TriedSlot(s.mapInfo[id].addr);
      SlotHolds(c, s, id);
      JudgedBy(c, s, id, now, slot, s.vvTried[slot]);
      if Judge(c, s, id, now).Replace? {
        ReplaceDoes(c, s, id, now, r);
      }
    }
  }

  /** An occupant that had a success within four hours keeps its slot, and the collision is
      forgotten. */
  lemma WorkingStays(c: Config, s: Db, id: int, now: int, r: Db)
    requires c.Valid() && Consistent(c, s) && CanResolve(c, s, id, now) && r == Resolve(c, s, id, now)
    requires id in s.mapInfo && s.vvTried[c.TriedSlot(s.mapInfo[id].addr)] in s.mapInfo
    requires now - s.mapInfo[s.vvTried[c.TriedSlot(s.mapInfo[id].addr)]].nLastSuccess < 4 * 60 * 60
    ensures r == s.(collisions := s.collisions - {id})
  {
    ResolveDoes(c, s, id, now, r);
  }

  /** Each round of a trace does what it should. */
  ghost predicate RoundsDo(c: Config, ss: seq<Db>, ids: seq<int>, now: int -> int)
    requires c.Valid()
  {
    |ss| == |ids| + 1 && forall i: nat | i < |ids| :: RoundDoes(c, ss[i], ss[i + 1], ids[i], now(ids[i]))
  }

  lemma TraceDoes(c: Config, ss: seq<Db>, ids: seq<int>, now: int -> int)
    requires c.Valid() && ResolveTrace(c, ss, ids, now)
    ensures RoundsDo(c, ss, ids, now)
  {
    forall i: nat | i < |ids| ensures RoundDoes(c, ss[i], ss[i + 1], ids[i], now(ids[i])) {
      assert Resolved(c, ss, ids, now, i);
      AppliedDoes(c, ss[i], ids[i], now(ids[i]), ss[i + 1]);
    }
  }

  lemma {:induction false} TraceAll(c: Config, ss: seq<Db>, ids: seq<int>, now: int -> int, r: Db)
    requires c.Valid() && ResolveTrace(c, ss, ids, now) && Consistent(c, ss[0]) && r == ss[|ids|]
    ensures RoundsDo(c, ss, ids, now) && r == Run(c, ss[0], Rounds(ids, now))
  {
    TraceDoes(c, ss, ids, now);
    TraceRuns(c, ss, ids, now, |ids|);
    assert Rounds(ids, now)[..|ids|] == Rounds(ids, now);
  }

  lemma AppliedDoes(c: Config, s: Db, id: int, now: int, r: Db)
    requires c.Valid() && Consistent(c, s) && r == ApplyResolve(c, s, id, now)
    ensures RoundDoes(c, s, r, id, now)
  {
    ResolveKeeps(c, s, id, now);
    ResolveDoes(c, s, id, now, r);
  }

  // ---------------------------------------------------------- an announcement

  /** The penalty does not apply to an address that announces itself. */
  function Penalty(a: Address, source: NetAddr, penalty: int): int { if a.svc.ip == source then 0 else penalty }

  /** The time kept about a known address: renewed if the announced one, less the penalty, is
      more than an hour later, or more than a day if the address was not seen today. */
  function Renewed(old_: int, announced: int, p: int, now: int): int {
    var renew := announced != 0 && (old_ == 0
        || announced - p - old_ > (if now - announced < 86400 then 3600 else 86400));
    if !renew then old_ else if announced - p < 0 then 0 else announced - p
  }

  /** Does the announcement win the address one more cell? It must be news, the address not
      tried, in fewer than eight cells, lucky, and the cell empty or its occupant no good. */
  ghost predicate Wins(c: Config, s: Db, info: Info, id: int, a: Address, source: NetAddr, time: int, now: int,
      rnd: nat)
    requires c.Valid()
  {
    var k := c.NewSlot(info.addr, source);
    && a.nTime != 0 && (time == 0 || a.nTime > time)
    && !info.fInTried && 1 <= info.nRefCount < 8 && rnd % Pow2(info.nRefCount) == 0
    && k in s.vvNew && s.vvNew[k] != id
    && (s.vvNew[k] == -1 || (s.vvNew[k] in s.mapInfo && !Healthy(s.mapInfo[s.vvNew[k]], now)))
  }

  /** What announcing a known address does: its time and services are brought up to date,
      and it may win one more cell; nobody else's data changes. */
  ghost predicate KnownAdd(c: Config, s: Db, r: Db, a: Address, source: NetAddr, penalty: int, now: int, rnd: nat)
    requires c.Valid() && a.svc.ip in s.mapAddr && s.mapAddr[a.svc.ip] in s.mapInfo
  {
    var id := s.mapAddr[a.svc.ip];
    var info := s.mapInfo[id];
    var time := Renewed(info.nTime, a.nTime, Penalty(a, source, penalty), now);
    var wins := Wins(c, s, info, id, a, source, time, now, rnd);
    && id in r.mapInfo && SameData(r.mapInfo[id], info.(nTime := time, nServices := info.nServices | a.nServices))
    && r.mapInfo[id].nRefCount == info.nRefCount + (if wins then 1 else 0)
    && r.vvNew == (if wins then s.vvNew[c.NewSlot(info.addr, source) := id] else s.vvNew)
    && (forall o | o in r.mapInfo && o != id :: o in s.mapInfo && SameData(r.mapInfo[o], s.mapInfo[o]))
  }

  lemma RefreshIs(info: Info, a: Address, p: int, now: int)
    ensures Refresh(info, a, p, now) ==
            info.(nTime := Renewed(info.nTime, a.nTime, p, now), nServices := info.nServices | a.nServices)
  {
  }

  lemma TakesIff(s: Db, k: Cell, id: int, now: int)
    requires k in s.vvNew && id in s.mapInfo && s.mapInfo[id].nRefCount >= 1
    requires s.vvNew[k] != -1 ==> s.vvNew[k] in s.mapInfo
    ensures Takes(s, k, id, now) <==> s.vvNew[k] == -1 || !Healthy(s.mapInfo[s.vvNew[k]], now)
  {
    if s.vvNew[k] != -1 {
      TerribleIff(s.mapInfo[s.vvNew[k]], now);
    }
  }

  /** id holds one more cell, k. */
  ghost predicate Gains(s: Db, r: Db, id: int, k: Cell)
    requires id in s.mapInfo
  {
    id in r.mapInfo && r.vvNew == s.vvNew[k := id] && r.mapInfo[id].nRefCount == s.mapInfo[id].nRefCount + 1
  }

  lemma TakeGains(c: Config, s: Db, id: int, k: Cell)
    requires c.Valid() && Inv(c, s, {id}, 0) && id in s.mapInfo && k in s.vvNew && s.vvNew[k] != id
    ensures CanClear(s, k) && id in ClearNew(s, k).mapInfo && Gains(s, Ref(ClearNew(s, k), id, k), id, k)
  {
    ClearNewShape(c, s, k, {id}, 0, id);
    RefGains(s, ClearNew(s, k), id, k);
  }

  lemma RefGains(s: Db, w: Db, id: int, k: Cell)
    requires id in s.mapInfo && id in w.mapInfo && SameInfo(w.mapInfo[id], s.mapInfo[id])
    requires k in s.vvNew && w.vvNew == s.vvNew[k := -1]
    ensures Gains(s, Ref(w, id, k), id, k)
  {
  }

  lemma PlaceKnown(c: Config, s: Db, id: int, source: NetAddr, now: int, k: Cell, r: Db)
    requires c.Valid() && Placeable(c, s, id) && s.mapInfo[id].nRefCount >= 1
    requires CanPlace(c, s, id, source, now) && r == Place(c, s, id, source, now)
    requires k == c.NewSlot(s.mapInfo[id].addr, source)
    ensures k in s.vvNew && (s.vvNew[k] == -1 || s.vvNew[k] in s.mapInfo)
    ensures if s.vvNew[k] != id && (s.vvNew[k] == -1 || !Healthy(s.mapInfo[s.vvNew[k]], now))
            then Gains(s, r, id, k) else r == s
  {
    TakesIff(s, k, id, now);
    if s.vvNew[k] != id && Takes(s, k, id, now) {
      TakeGains(c, s, id, k);
    }
  }

  lemma PlaceData(c: Config, s: Db, id: int, source: NetAddr, now: int, r: Db)
    requires c.Valid() && Placeable(c, s, id) && s.mapInfo[id].nRefCount >= 1
    requires CanPlace(c, s, id, source, now) && r == Place(c, s, id, source, now)
    ensures forall o | o in r.mapInfo :: o in s.mapInfo && SameData(r.mapInfo[o], s.mapInfo[o])
  {
    forall o | o in r.mapInfo ensures o in s.mapInfo && SameData(r.mapInfo[o], s.mapInfo[o]) {
      PlaceShape(c, s, id, source, now, o);
    }
  }

  lemma KnownRefs(c: Config, s: Db, id: int)
    requires c.Valid() && Inv(c, s, {}, 0) && id in s.mapInfo && !s.mapInfo[id].fInTried
    ensures 1 <= s.mapInfo[id].nRefCount <= 8
  {
  }

  /** From the brought-up-to-date state s1, whatever the announcement wins. */
  lemma KnownFrom(c: Config, s: Db, s1: Db, r: Db, a: Address, source: NetAddr, penalty: int, now: int, rnd: nat,
      id: int, info: Info, k: Cell, wins: bool)
    requires c.Valid() && a.svc.ip in s.mapAddr && id == s.mapAddr[a.svc.ip] && id in s.mapInfo
    requires info == s.mapInfo[id].(nTime := Renewed(s.mapInfo[id].nTime, a.nTime, Penalty(a, source, penalty), now),
                                    nServices := s.mapInfo[id].nServices | a.nServices)
    requires s1 == s.Set(id, info) && k == c.NewSlot(info.addr, source)
    requires wins == Wins(c, s, s.mapInfo[id], id, a, source, info.nTime, now, rnd)
    requires if wins then Gains(s1, r, id, k) else r.vvNew == s.vvNew && id in r.mapInfo
                                                   && r.mapInfo[id].nRefCount == info.nRefCount
    requires forall o | o in r.mapInfo :: o in s1.mapInfo && SameData(r.mapInfo[o], s1.mapInfo[o])
    ensures KnownAdd(c, s, r, a, source, penalty, now, rnd)
  {
  }

  lemma WinsIff(c: Config, s: Db, id: int, info: Info, a: Address, source: NetAddr, now: int, rnd: nat, k: Cell)
    requires c.Valid() && id in s.mapInfo && Touches(s.mapInfo[id], info) && k == c.NewSlot(info.addr, source)
    requires k in s.vvNew && (s.vvNew[k] == -1 || s.vvNew[k] in s.mapInfo)
    requires !info.fInTried ==> 1 <= info.nRefCount <= 8
    ensures Wins(c, s, s.mapInfo[id], id, a, source, info.nTime, now, rnd) <==>
              && TriesAgain(info, a, rnd) && s.vvNew[k] != id
              && (s.vvNew[k] == -1 || !Healthy(s.mapInfo[s.vvNew[k]], now))
  {
  }

  lemma CellHolds(c: Config, s: Db, k: Cell)
    requires c.Valid() && Inv(c, s, {}, 0) && 0 <= k.0 < c.newBuckets && 0 <= k.1 < c.bucketSize
    ensures k in s.vvNew && (s.vvNew[k] == -1 || s.vvNew[k] in s.mapInfo)
  {
  }

  /** After a try at the cell, or without one. */
  lemma KnownPlaced(c: Config, s: Db, s1: Db, id: int, info: Info, a: Address, source: NetAddr, now: int, rnd: nat,
      k: Cell, r: Db, wins: bool)
    requires c.Valid() && Inv(c, s, {}, 0) && id in s.mapInfo && Touches(s.mapInfo[id], info) && s1 == s.Set(id, info)
    requires k == c.NewSlot(info.addr, source) && TriesAgain(info, a, rnd) && info.nRefCount >= 1
    requires CanPlace(c, s1, id, source, now) && r == Place(c, s1, id, source, now)
    requires wins == (s.vvNew[k] != id && (s.vvNew[k] == -1 || !Healthy(s.mapInfo[s.vvNew[k]], now)))
    ensures if wins then Gains(s1, r, id, k) else r == s1
    ensures forall o | o in r.mapInfo :: o in s1.mapInfo && SameData(r.mapInfo[o], s1.mapInfo[o])
  {
    KnownPlaceable(c, s, id, info, a, rnd);
    PlaceKnown(c, s1, id, source, now, k, r);
    PlaceData(c, s1, id, source, now, r);
  }

  lemma AddIs(c: Config, s: Db, a: Address, source: NetAddr, penalty: int, now: int, rnd: nat, id: int, info: Info,
      r: Db)
    requires c.Valid() && c.isRoutable(a.svc) && a.svc.ip in s.mapAddr && id == s.mapAddr[a.svc.ip]
    requires CanAdd(c, s, a, source, penalty, now, rnd) && r == Add(c, s, a, source, penalty, now, rnd)
    requires id in s.mapInfo && info == Refresh(s.mapInfo[id], a, Penalty(a, source, penalty), now)
    ensures TriesAgain(info, a, rnd) ==> CanPlace(c, s.Set(id, info), id, source, now)
    ensures r == if TriesAgain(info, a, rnd) then Place(c, s.Set(id, info), id, source, now) else s.Set(id, info)
  {
  }

  lemma KnownReady(c: Config, s: Db, id: int, source: NetAddr, k: Cell)
    requires c.Valid() && Inv(c, s, {}, 0) && id in s.mapInfo && k == c.NewSlot(s.mapInfo[id].addr, source)
    ensures !s.mapInfo[id].fInTried ==> 1 <= s.mapInfo[id].nRefCount <= 8
    ensures k in s.vvNew && (s.vvNew[k] == -1 || s.vvNew[k] in s.mapInfo)
  {
    CellHolds(c, s, k);
    if !s.mapInfo[id].fInTried {
      KnownRefs(c, s, id);
    }
  }

  lemma KnownIsKnown(c: Config, s: Db, ip: NetAddr)
    requires c.Valid() && Inv(c, s, {}, 0) && ip in s.mapAddr
    ensures s.mapAddr[ip] in s.mapInfo
  {
  }

  lemma AddKnown(c: Config, s: Db, a: Address, source: NetAddr, penalty: int, now: int, rnd: nat, r: Db)
    requires c.Valid() && Inv(c, s, {}, 0) && c.isRoutable(a.svc) && a.svc.ip in s.mapAddr
    requires CanAdd(c, s, a, source, penalty, now, rnd) && r == Add(c, s, a, source, penalty, now, rnd)
    ensures s.mapAddr[a.svc.ip] in s.mapInfo && KnownAdd(c, s, r, a, source, penalty, now, rnd)
  {
    KnownIsKnown(c, s, a.svc.ip);
    var id := s.mapAddr[a.svc.ip];
    var info := Refresh(s.mapInfo[id], a, Penalty(a, source, penalty), now);
    AddIs(c, s, a, source, penalty, now, rnd, id, info, r);
    AddKnownFrom(c, s, a, source, penalty, now, rnd, id, info, s.Set(id, info), r);
  }

  lemma AddKnownFrom(c: Config, s: Db, a: Address, source: NetAddr, penalty: int, now: int, rnd: nat, id: int,
      info: Info, s1: Db, r: Db)
    requires c.Valid() && Inv(c, s, {}, 0) && a.svc.ip in s.mapAddr && id == s.mapAddr[a.svc.ip] && id in s.mapInfo
    requires info == Refresh(s.mapInfo[id], a, Penalty(a, source, penalty), now) && s1 == s.Set(id, info)
    requires TriesAgain(info, a, rnd) ==> CanPlace(c, s1, id, source, now)
    requires r == if TriesAgain(info, a, rnd) then Place(c, s1, id, source, now) else s1
    ensures KnownAdd(c, s, r, a, source, penalty, now, rnd)
  {
    var k := c.NewSlot(info.addr, source);
    RefreshIs(s.mapInfo[id], a, Penalty(a, source, penalty), now);
    KnownReady(c, s, id, source, k);
    WinsIff(c, s, id, info, a, source, now, rnd, k);
    var wins := Wins(c, s, s.mapInfo[id], id, a, source, info.nTime, now, rnd);
    if TriesAgain(info, a, rnd) {
      KnownPlaced(c, s, s1, id, info, a, source, now, rnd, k, r, wins);
    }
    KnownFrom(c, s, s1, r, a, source, penalty, now, rnd, id, info, k, wins);
  }

  /** What announcing an unknown address does: it takes its cell with the data announced if
      the cell is empty, its occupant no good or known elsewhere too; otherwise nothing. */
  ghost predicate UnknownAdd(c: Config, s: Db, r: Db, a: Address, source: NetAddr, penalty: int, now: int)
    requires c.Valid()
  {
    var k := c.NewSlot(a.svc, source);
    && k in s.vvNew && (s.vvNew[k] != -1 ==> s.vvNew[k] in s.mapInfo)
    && if s.vvNew[k] == -1 || !Healthy(s.mapInfo[s.vvNew[k]], now) || s.mapInfo[s.vvNew[k]].nRefCount > 1
       then Landed(s, r, k, s.nIdCount, NewEntry(a, source, Penalty(a, source, penalty)))
       else r.vvNew == s.vvNew && a.svc.ip !in r.mapAddr
  }

  lemma AddUnknown(c: Config, s: Db, a: Address, source: NetAddr, penalty: int, now: int, rnd: nat, r: Db)
    requires c.Valid() && Inv(c, s, {}, 0) && c.isRoutable(a.svc) && a.svc.ip !in s.mapAddr
    requires CanAdd(c, s, a, source, penalty, now, rnd) && r == Add(c, s, a, source, penalty, now, rnd)
    ensures UnknownAdd(c, s, r, a, source, penalty, now)
  {
    AddPlaces(c, s, a, source, penalty, now, rnd, r);
    var k := c.NewSlot(a.svc, source);
    if s.vvNew[k] != -1 {
      TerribleIff(s.mapInfo[s.vvNew[k]], now);
    }
  }

  /** What Add_ does, in each of its three cases. */
  ghost predicate Announced(c: Config, s: Db, r: Db, a: Address, source: NetAddr, penalty: int, now: int, rnd: nat)
    requires c.Valid()
  {
    if !c.isRoutable(a.svc) then r == s
    else if a.svc.ip in s.mapAddr then
      s.mapAddr[a.svc.ip] in s.mapInfo && KnownAdd(c, s, r, a, source, penalty, now, rnd)
    else UnknownAdd(c, s, r, a, source, penalty, now)
  }

  lemma AddAnnounces(c: Config, s: Db, a: Address, source: NetAddr, penalty: int, now: int, rnd: nat, r: Db)
    requires c.Valid() && Inv(c, s, {}, 0)
    requires CanAdd(c, s, a, source, penalty, now, rnd) && r == Add(c, s, a, source, penalty, now, rnd)
    ensures Announced(c, s, r, a, source, penalty, now, rnd)
  {
    if c.isRoutable(a.svc) {
      if a.svc.ip in s.mapAddr {
        AddKnown(c, s, a, source, penalty, now, rnd, r);
      } else {
        AddUnknown(c, s, a, source, penalty, now, rnd, r);
      }
    }
  }

  // ------------------------------------------------------- cells of the new table

  /** A move to the tried table empties every new cell of the address, gives the evicted one
      the cell of its source, and leaves all other cells alone. */
  ghost predicate CellsMoved(c: Config, s: Db, r: Db, id: int)
    requires c.Valid() && id in s.mapInfo
  {
    var slot := c.TriedSlot(s.mapInfo[id].addr);
    && slot in s.vvTried && (s.vvTried[slot] == -1 || s.vvTried[slot] in s.mapInfo)
    && var e := s.vvTried[slot];
    && r.vvNew.Keys == s.vvNew.Keys
    && forall k | k in s.vvNew ::
         r.vvNew[k] == if e != -1 && k == c.NewSlot(s.mapInfo[e].addr, s.mapInfo[e].source) then e
                       else if s.vvNew[k] == id then -1 else s.vvNew[k]
  }

  lemma MakeTriedCells(c: Config, s: Db, id: int)
    requires c.Valid() && Inv(c, s, {}, 0) && id in s.mapInfo && !s.mapInfo[id].fInTried
    ensures CanMakeTried(c, s, id) && CellsMoved(c, s, MakeTried(c, s, id), id)
  {
    RoomForId(c, s, id);
    SlotHolder(c, s, id);
    var slot := c.TriedSlot(s.mapInfo[id].addr);
    RoomCells(c, s, id, slot);
    CellsFrom(c, s, MakeTried(c, s, id), id, slot, s.vvTried[slot]);
  }

  lemma CellsFrom(c: Config, s: Db, r: Db, id: int, slot: Cell, e: int)
    requires c.Valid() && id in s.mapInfo && slot == c.TriedSlot(s.mapInfo[id].addr) && slot in s.vvTried
    requires e == s.vvTried[slot] && (e != -1 ==> e in s.mapInfo)
    requires e != -1 ==> c.NewSlot(s.mapInfo[e].addr, s.mapInfo[e].source) in s.vvNew
    requires r.vvNew == if e == -1 then Blank(s.vvNew, id)
                        else Blank(s.vvNew, id)[c.NewSlot(s.mapInfo[e].addr, s.mapInfo[e].source) := e]
    ensures CellsMoved(c, s, r, id)
  {
  }

  lemma RoomCells(c: Config, s: Db, id: int, slot: Cell)
    requires c.Valid() && Inv(c, s, {}, 0) && id in s.mapInfo && !s.mapInfo[id].fInTried && CanMakeRoom(c, s, id)
    requires slot == c.TriedSlot(s.mapInfo[id].addr) && slot in s.vvTried
    requires s.vvTried[slot] != -1 ==> s.vvTried[slot] in s.mapInfo && s.vvTried[slot] != id
    ensures var e := s.vvTried[slot];
            Room(c, s, id).vvNew ==
            if e == -1 then Blank(s.vvNew, id)
            else Blank(s.vvNew, id)[c.NewSlot(s.mapInfo[e].addr, s.mapInfo[e].source) := e]
    ensures var e := s.vvTried[slot]; e != -1 ==> c.NewSlot(s.mapInfo[e].addr, s.mapInfo[e].source) in s.vvNew
  {
    if s.vvTried[slot] != -1 {
      LeaveNewOk(c, s, id, {}, 0);
      EvictCells(c, LeaveNew(s, id), slot, {} + {id}, 1);
    }
  }

  lemma EvictCells(c: Config, s: Db, slot: Cell, free: set<int>, d: int)
    requires c.Valid() && Inv(c, s, free, d) && slot in s.vvTried && s.vvTried[slot] != -1
    ensures CanEvict(c, s, slot) && s.vvTried[slot] in s.mapInfo
    ensures var e := s.mapInfo[s.vvTried[slot]];
            && c.NewSlot(e.addr, e.source) in s.vvNew
            && Evict(c, s, slot).vvNew == s.vvNew[c.NewSlot(e.addr, e.source) := s.vvTried[slot]]
  {
    EvictFits(c, s, slot, free, d);
    var e := s.vvTried[slot];
    var k := c.NewSlot(s.mapInfo[e].addr, s.mapInfo[e].source);
    ClearedCells(s, slot, Demote(s, slot), ClearNew(Demote(s, slot), k), e, k);
  }

  lemma ClearedCells(s: Db, slot: Cell, b: Db, w: Db, e: int, k: Cell)
    requires slot in s.vvTried && e == s.vvTried[slot] && e in s.mapInfo && b == Demote(s, slot)
    requires k in b.vvNew && ClearFrame(b, w, k) && e in w.mapInfo
    ensures k in s.vvNew && Ref(w, e, k).(nNew := w.nNew + 1).vvNew == s.vvNew[k := e]
  {
  }

  lemma MarkedCells(c: Config, s: Db, s1: Db, r: Db, id: int)
    requires c.Valid() && id in s.mapInfo && id in s1.mapInfo && s1.vvNew == s.vvNew && s1.vvTried == s.vvTried
    requires s1.mapInfo.Keys == s.mapInfo.Keys
    requires forall o | o in s.mapInfo ::
               s1.mapInfo[o].addr == s.mapInfo[o].addr && s1.mapInfo[o].source == s.mapInfo[o].source
    requires CellsMoved(c, s1, r, id)
    ensures CellsMoved(c, s, r, id)
  {
  }

  lemma GoodMoved(c: Config, s: Db, a: Service, testBeforeEvict: bool, time: int, id: int, s1: Db)
    requires c.Valid() && CanGood(c, s, a, testBeforeEvict, time) && GoodMoves(c, s, a, testBeforeEvict)
    requires id == s.mapAddr[a.ip] && s1 == MarkGood(s.(nLastGood := time), id, time)
    ensures CanMakeTried(c, s1, id) && Good(c, s, a, testBeforeEvict, time) == MakeTried(c, s1, id)
  {
  }

  lemma MarkedPlaces(s: Db, id: int, time: int, s1: Db)
    requires id in s.mapInfo && s1 == MarkGood(s.(nLastGood := time), id, time)
    ensures s1.vvNew == s.vvNew && s1.vvTried == s.vvTried && s1.mapInfo.Keys == s.mapInfo.Keys
    ensures forall o | o in s.mapInfo ::
              s1.mapInfo[o].addr == s.mapInfo[o].addr && s1.mapInfo[o].source == s.mapInfo[o].source
    ensures s1.mapInfo[id].fInTried == s.mapInfo[id].fInTried
  {
  }

  lemma MarkedMakeTried(c: Config, s1: Db, id: int, r: Db)
    requires c.Valid() && Inv(c, s1, {}, 0) && id in s1.mapInfo && !s1.mapInfo[id].fInTried
    requires CanMakeTried(c, s1, id) && r == MakeTried(c, s1, id)
    ensures CellsMoved(c, s1, r, id)
  {
    MakeTriedCells(c, s1, id);
  }

  lemma GoodCells(c: Config, s: Db, a: Service, testBeforeEvict: bool, time: int, id: int, r: Db)
    requires c.Valid() && Inv(c, s, {}, 0) && CanGood(c, s, a, testBeforeEvict, time)
    requires GoodMoves(c, s, a, testBeforeEvict) && id == s.mapAddr[a.ip]
    requires r == Good(c, s, a, testBeforeEvict, time)
    ensures CellsMoved(c, s, r, id)
  {
    var s1 := MarkGood(s.(nLastGood := time), id, time);
    GoodMoved(c, s, a, testBeforeEvict, time, id, s1);
    MarkedOk(c, s, id, time);
    MarkedPlaces(s, id, time, s1);
    MarkedMakeTried(c, s1, id, r);
    MarkedCells(c, s, s1, r, id);
  }
}
