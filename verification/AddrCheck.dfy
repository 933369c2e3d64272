/** The consistency check that the code ships for debugging, loop by loop. It passes
    exactly on the states that are consistent but for what it does not look at: the
    range of ids, addresses that mapAddr knows and mapInfo does not, and pending
    collisions. Clauses about time stamps and the key are not part of this model. */
module AddrCheck {
  import opened AddrTables
  import opened AddrManager

  // ------------------------------------------------- vRandom lists every id once

  lemma {:induction false} DistinctCard(r: seq<int>)
    requires forall i, j | 0 <= i < j < |r| :: r[i] != r[j]
    ensures |set x | x in r| == |r|
  {
    if r != [] {
      var k := |r| - 1;
      DistinctCard(r[..k]);
      assert (set x | x in r) == (set x | x in r[..k]) + {r[k]} by {
        forall x | x in r ensures x in r[..k] || x == r[k] {
          var i :| 0 <= i < |r| && r[i] == x;
          assert i < k ==> r[..k][i] == x;
        }
      }
      assert r[k] !in r[..k];
    }
  }

  /** |vRandom| is the number of known addresses. */
  lemma RandomSize(s: Db, d: int)
    requires RandomOk(s.mapInfo, s.vRandom) && CountsOk(s.mapInfo, s.nTried, s.nNew, d)
    ensures |s.vRandom| == s.nTried + s.nNew + d
  {
    var r, m := s.vRandom, s.mapInfo;
    forall i, j | 0 <= i < j < |r| ensures r[i] != r[j] {
      assert m[r[i]].nRandomPos == i && m[r[j]].nRandomPos == j;
    }
    DistinctCard(r);
    assert (set x | x in r) == TriedIds(m) + NewIds(m) by {
      forall x | x in m ensures x in r {
        assert r[m[x].nRandomPos] == x;
      }
    }
    assert TriedIds(m) * NewIds(m) == {};
  }

  // ---------------------------------------------------------- what is looked at

  /** mapAddr's answer; asking for an unknown address gives zero. */
  function Lookup(a: map<NetAddr, int>, ip: NetAddr): int { if ip in a then a[ip] else 0 }

  predicate EntryOk(s: Db, id: int)
    requires id in s.mapInfo
  {
    var info := s.mapInfo[id];
    && (if info.fInTried then info.nRefCount == 0 else 1 <= info.nRefCount <= MAX_REFS)
    && Lookup(s.mapAddr, info.addr.ip) == id
    && 0 <= info.nRandomPos < |s.vRandom| && s.vRandom[info.nRandomPos] == id
  }

  /** Cell k of the tried table is empty, or holds a tried id whose slot it is. */
  predicate TriedCellOk(c: Config, s: Db, k: Cell)
    requires c.Valid() && k in s.vvTried
  {
    var id := s.vvTried[k];
    id != -1 ==> id in s.mapInfo && s.mapInfo[id].fInTried && c.TriedSlot(s.mapInfo[id].addr) == k
  }

  predicate InSlot(c: Config, s: Db, id: int)
    requires c.Valid() && id in s.mapInfo
  {
    var k := c.TriedSlot(s.mapInfo[id].addr);
    id != -1 && k in s.vvTried && s.vvTried[k] == id
  }

  predicate NewCellOk(c: Config, s: Db, k: Cell)
    requires c.Valid() && k in s.vvNew
  {
    var id := s.vvNew[k];
    id != -1 ==> id in s.mapInfo && !s.mapInfo[id].fInTried && c.BucketPosition(true, k.0, s.mapInfo[id].addr) == k.1
  }

  ghost predicate Counted(s: Db, id: int)
    requires id in s.mapInfo
  {
    id != -1 && s.mapInfo[id].nRefCount == |CellsOf(s.vvNew, id)|
  }

  /** Everything Check_ looks at. */
  ghost predicate Visible(c: Config, s: Db)
    requires c.Valid()
  {
    && |s.vRandom| == s.nTried + s.nNew
    && (forall id | id in s.mapInfo :: EntryOk(s, id))
    && s.nTried == |TriedIds(s.mapInfo)| && s.nNew == |NewIds(s.mapInfo)|
    && (forall k | k in s.vvTried :: TriedCellOk(c, s, k))
    && (forall id | id in s.mapInfo && s.mapInfo[id].fInTried :: InSlot(c, s, id))
    && (forall k | k in s.vvNew :: NewCellOk(c, s, k))
    && (forall id | id in s.mapInfo && !s.mapInfo[id].fInTried :: Counted(s, id))
  }

  lemma IdsSplit(m: Infos)
    ensures |m.Keys| == |TriedIds(m)| + |NewIds(m)|
  {
    assert m.Keys == TriedIds(m) + NewIds(m);
    assert TriedIds(m) * NewIds(m) == {};
  }

  /** As many ids as positions, each at its own: every position holds an id. */
  lemma EveryPosition(m: Infos, r: seq<int>, i: nat)
    requires |r| == |m.Keys| && i < |r|
    requires forall id | id in m :: 0 <= m[id].nRandomPos < |r| && r[m[id].nRandomPos] == id
    ensures r[i] in m && m[r[i]].nRandomPos == i
  {
    var rest := r[..i] + r[i + 1..];
    if !(r[i] in m && m[r[i]].nRandomPos == i) {
      forall id | id in m
        ensures id in rest
      {
        var p := m[id].nRandomPos;
        assert p != i;
        assert rest[if p < i then p else p - 1] == id;
      }
      AtMost(rest, m.Keys);
      assert false;
    }
  }

  lemma NoElements(a: set<int>)
    requires forall id :: id !in a
    ensures a == {}
  {
    if a != {} {
      NonEmpty(a);
      assert false;
    }
  }

  /** A set whose members are all listed is no larger than the list. */
  lemma {:induction false} AtMost(r: seq<int>, a: set<int>)
    requires forall x | x in a :: x in r
    ensures |a| <= |r|
    decreases |r|
  {
    if r == [] {
      NoElements(a);
    } else {
      var n := |r| - 1;
      forall x | x in a - {r[n]}
        ensures x in r[..n]
      {
        var i :| 0 <= i < |r| && r[i] == x;
        assert r[..n][i] == x;
      }
      AtMost(r[..n], a - {r[n]});
      assert a <= a - {r[n]} + {r[n]};
      CardBound(a, r[n]);
    }
  }

  lemma CardBound(a: set<int>, x: int)
    ensures |a| <= |a - {x}| + 1
  {
    if x in a {
      assert a == a - {x} + {x};
    } else {
      assert a - {x} == a;
    }
  }

  lemma VisibleRandom(c: Config, s: Db)
    requires c.Valid() && Visible(c, s)
    ensures RandomOk(s.mapInfo, s.vRandom)
  {
    IdsSplit(s.mapInfo);
    assert forall id | id in s.mapInfo :: EntryOk(s, id);
    forall i | 0 <= i < |s.vRandom|
      ensures s.vRandom[i] in s.mapInfo && s.mapInfo[s.vRandom[i]].nRandomPos == i
    {
      EveryPosition(s.mapInfo, s.vRandom, i);
    }
  }

  lemma VisibleTables(c: Config, s: Db)
    requires c.Valid() && Visible(c, s)
    requires Covers(s.vvTried, c.triedBuckets, c.bucketSize) && Covers(s.vvNew, c.newBuckets, c.bucketSize)
    ensures TablesOk(c, s.mapInfo, s.vvTried, s.vvNew, {})
  {
    forall id | id in s.mapInfo && s.mapInfo[id].fInTried
      ensures InSlot(c, s, id) && s.mapInfo[id].nRefCount == 0
    {
      assert EntryOk(s, id);
    }
    forall k | k in s.vvTried
      ensures TriedCellOk(c, s, k)
    {
    }
    forall k | k in s.vvNew
      ensures NewCellOk(c, s, k)
    {
    }
    forall id | id in s.mapInfo && !s.mapInfo[id].fInTried
      ensures Counted(s, id) && 1 <= s.mapInfo[id].nRefCount <= MAX_REFS
    {
      assert EntryOk(s, id);
    }
  }

  lemma ConsistentVisible(c: Config, s: Db)
    requires c.Valid() && Consistent(c, s)
    ensures Visible(c, s)
  {
    RandomSize(s, 0);
  }

  /** What Check_ looks at, and what it does not, together are consistency. */
  lemma VisibleIff(c: Config, s: Db)
    requires c.Valid()
    requires Covers(s.vvTried, c.triedBuckets, c.bucketSize) && Covers(s.vvNew, c.newBuckets, c.bucketSize)
    ensures Consistent(c, s) <==>
            Visible(c, s) && IdsOk(s.mapInfo, s.nIdCount) && AddrOk(s.mapInfo, s.mapAddr) && CollisionsOk(c, s)
  {
    if Consistent(c, s) {
      ConsistentVisible(c, s);
    } else if Visible(c, s) {
      VisibleRandom(c, s);
      VisibleTables(c, s);
    }
  }

  // ---------------------------------------------------------------- table scans

  /** Cells before (b, p) in the order the loops visit them. */
  predicate Scanned(k: Cell, b: int, p: int) { k.0 < b || (k.0 == b && k.1 < p) }

  lemma ScannedNext(k: Cell, b: int, p: int)
    ensures Scanned(k, b, p + 1) <==> Scanned(k, b, p) || k == (b, p)
  {
    assert k.0 == b && k.1 == p <==> k == (b, p);
  }

  /** left is what is left of the tried ids when the cells before (b, p) are all right. */
  ghost predicate TriedSoFar(c: Config, s: Db, left: set<int>, b: int, p: int)
    requires c.Valid()
  {
    && (forall k | k in s.vvTried && Scanned(k, b, p) :: TriedCellOk(c, s, k))
    && (forall id :: id in left <==> TriedLeft(c, s, id, b, p))
  }

  ghost predicate TriedLeft(c: Config, s: Db, id: int, b: int, p: int)
    requires c.Valid()
  {
    && id in s.mapInfo && s.mapInfo[id].fInTried
    && !(InSlot(c, s, id) && Scanned(c.TriedSlot(s.mapInfo[id].addr), b, p))
  }

  lemma TriedStart(c: Config, s: Db)
    requires c.Valid() && Covers(s.vvTried, c.triedBuckets, c.bucketSize)
    ensures TriedSoFar(c, s, TriedIds(s.mapInfo), 0, 0)
  {
  }

  /** The cell at (b, p) is right exactly when it is empty, or crosses off its own id. */
  lemma TriedStep(c: Config, s: Db, left: set<int>, b: int, p: int)
    requires c.Valid() && TriedSoFar(c, s, left, b, p) && (b, p) in s.vvTried
    ensures var id := s.vvTried[(b, p)];
            && (TriedCellOk(c, s, (b, p)) <==>
                  id == -1 || (id in left && id in s.mapInfo && c.TriedSlot(s.mapInfo[id].addr) == (b, p)))
            && (TriedCellOk(c, s, (b, p)) ==> TriedSoFar(c, s, left - if id == -1 then {} else {id}, b, p + 1))
  {
    var id := s.vvTried[(b, p)];
    if TriedCellOk(c, s, (b, p)) {
      TriedCross(c, s, left, b, p);
    }
  }

  lemma TriedCross(c: Config, s: Db, left: set<int>, b: int, p: int)
    requires c.Valid() && TriedSoFar(c, s, left, b, p) && (b, p) in s.vvTried && TriedCellOk(c, s, (b, p))
    ensures var id := s.vvTried[(b, p)];
            id == -1 || id in left
    ensures TriedSoFar(c, s, left - if s.vvTried[(b, p)] == -1 then {} else {s.vvTried[(b, p)]}, b, p + 1)
  {
    var id := s.vvTried[(b, p)];
    if id != -1 {
      assert TriedLeft(c, s, id, b, p);
    }
    forall k | k in s.vvTried && Scanned(k, b, p + 1)
      ensures TriedCellOk(c, s, k)
    {
      ScannedNext(k, b, p);
    }
    forall o
      ensures TriedLeft(c, s, o, b, p + 1) <==> TriedLeft(c, s, o, b, p) && !(id != -1 && o == id)
    {
      if o in s.mapInfo {
        ScannedNext(c.TriedSlot(s.mapInfo[o].addr), b, p);
      }
    }
  }

  lemma TriedRow(c: Config, s: Db, left: set<int>, b: int)
    requires c.Valid() && TriedSoFar(c, s, left, b, c.bucketSize) && Covers(s.vvTried, c.triedBuckets, c.bucketSize)
    ensures TriedSoFar(c, s, left, b + 1, 0)
  {
    forall id
      ensures TriedLeft(c, s, id, b + 1, 0) <==> TriedLeft(c, s, id, b, c.bucketSize)
    {
    }
  }

  /** At the end, nothing is left exactly when every tried id has been met in its slot. */
  lemma TriedEnd(c: Config, s: Db, left: set<int>)
    requires c.Valid() && TriedSoFar(c, s, left, c.triedBuckets, 0) && Covers(s.vvTried, c.triedBuckets, c.bucketSize)
    ensures forall k | k in s.vvTried :: TriedCellOk(c, s, k)
    ensures left == {} <==> forall id | id in s.mapInfo && s.mapInfo[id].fInTried :: InSlot(c, s, id)
  {
    if forall id | id in s.mapInfo && s.mapInfo[id].fInTried :: InSlot(c, s, id) {
      forall id
        ensures id !in left
      {
        assert !TriedLeft(c, s, id, c.triedBuckets, 0);
      }
      NoElements(left);
    }
    if left == {} {
      forall id | id in s.mapInfo && s.mapInfo[id].fInTried
        ensures InSlot(c, s, id)
      {
        assert id !in left;
        assert !TriedLeft(c, s, id, c.triedBuckets, 0);
      }
    }
  }

  // ----------------------------------------------------------- the new table

  ghost function Met(n: Table, id: int, b: int, p: int): set<Cell> { set k | k in n && n[k] == id && Scanned(k, b, p) }

  /** left counts the references not yet met when the cells before (b, p) are all right. */
  ghost predicate NewSoFar(c: Config, s: Db, left: map<int, int>, b: int, p: int)
    requires c.Valid()
  {
    && (forall k | k in s.vvNew && Scanned(k, b, p) :: NewCellOk(c, s, k))
    && (forall id :: RefsLeft(s, left, id, b, p))
  }

  ghost predicate RefsLeft(s: Db, left: map<int, int>, id: int, b: int, p: int) {
    if id in s.mapInfo && !s.mapInfo[id].fInTried then
      var met := if id == -1 then 0 else |Met(s.vvNew, id, b, p)|;
      && met <= s.mapInfo[id].nRefCount
      && (id in left <==> met < s.mapInfo[id].nRefCount)
      && (id in left ==> left[id] == s.mapInfo[id].nRefCount - met)
    else
      id !in left
  }

  lemma NewStart(c: Config, s: Db, counts: map<int, int>)
    requires c.Valid() && Covers(s.vvNew, c.newBuckets, c.bucketSize)
    requires counts.Keys == NewIds(s.mapInfo) && forall id | id in counts :: counts[id] == s.mapInfo[id].nRefCount
    requires forall id | id in s.mapInfo :: EntryOk(s, id)
    ensures NewSoFar(c, s, counts, 0, 0)
  {
    forall id
      ensures RefsLeft(s, counts, id, 0, 0)
    {
      assert Met(s.vvNew, id, 0, 0) == {};
      if id in s.mapInfo {
        assert EntryOk(s, id);
      }
    }
  }

  lemma MetNext(n: Table, b: int, p: int, id: int)
    requires (b, p) in n
    ensures (b, p) !in Met(n, id, b, p)
    ensures Met(n, id, b, p + 1) == Met(n, id, b, p) + if n[(b, p)] == id then {(b, p)} else {}
  {
    var r := Met(n, id, b, p) + if n[(b, p)] == id then {(b, p)} else {};
    forall k: Cell
      ensures k in Met(n, id, b, p + 1) <==> k in r
    {
      ScannedNext(k, b, p);
    }
  }

  /** mapNew after the scan has passed a cell of id. */
  function Decrement(left: map<int, int>, id: int): map<int, int>
    requires id in left
  {
    if left[id] - 1 == 0 then left - {id} else left[id := left[id] - 1]
  }

  ghost predicate NewTableOk(c: Config, s: Db)
    requires c.Valid()
  {
    && (forall k | k in s.vvNew :: NewCellOk(c, s, k))
    && (forall id | id in s.mapInfo && !s.mapInfo[id].fInTried :: Counted(s, id))
  }

  /** The test made at a cell. */
  predicate NewCellPasses(c: Config, s: Db, left: map<int, int>, k: Cell)
    requires c.Valid() && k in s.vvNew
  {
    var id := s.vvNew[k];
    id == -1 || (id in left && id in s.mapInfo && c.BucketPosition(true, k.0, s.mapInfo[id].addr) == k.1)
  }

  function NextLeft(left: map<int, int>, id: int): map<int, int>
    requires id == -1 || id in left
  {
    if id == -1 then left else Decrement(left, id)
  }

  lemma TooMany(c: Config, s: Db, left: map<int, int>, b: int, p: int, id: int)
    requires c.Valid() && (b, p) in s.vvNew && id == s.vvNew[(b, p)] && id != -1
    requires id in s.mapInfo && !s.mapInfo[id].fInTried && RefsLeft(s, left, id, b, p) && id !in left
    ensures !Counted(s, id)
  {
    MetNext(s.vvNew, b, p, id);
    var more := Met(s.vvNew, id, b, p + 1);
    assert more <= CellsOf(s.vvNew, id);
    SubsetCard(more, CellsOf(s.vvNew, id));
  }

  lemma SubsetCard(a: set<Cell>, b: set<Cell>)
    requires a <= b
    ensures |a| <= |b|
  {
    assert b == a + (b - a);
  }

  lemma NewFails(c: Config, s: Db, left: map<int, int>, b: int, p: int)
    requires c.Valid() && NewSoFar(c, s, left, b, p) && (b, p) in s.vvNew && !NewCellPasses(c, s, left, (b, p))
    ensures !NewTableOk(c, s)
  {
    var id := s.vvNew[(b, p)];
    if NewCellOk(c, s, (b, p)) {
      assert RefsLeft(s, left, id, b, p);
      TooMany(c, s, left, b, p, id);
    }
  }

  lemma RefsNext(s: Db, left: map<int, int>, b: int, p: int, o: int)
    requires (b, p) in s.vvNew && RefsLeft(s, left, o, b, p)
    requires s.vvNew[(b, p)] == -1 || s.vvNew[(b, p)] in left
    ensures RefsLeft(s, NextLeft(left, s.vvNew[(b, p)]), o, b, p + 1)
  {
    MetNext(s.vvNew, b, p, o);
  }

  lemma NewPasses(c: Config, s: Db, left: map<int, int>, b: int, p: int)
    requires c.Valid() && NewSoFar(c, s, left, b, p) && (b, p) in s.vvNew && NewCellPasses(c, s, left, (b, p))
    ensures NewSoFar(c, s, NextLeft(left, s.vvNew[(b, p)]), b, p + 1)
  {
    assert RefsLeft(s, left, s.vvNew[(b, p)], b, p);
    forall k | k in s.vvNew && Scanned(k, b, p + 1)
      ensures NewCellOk(c, s, k)
    {
      ScannedNext(k, b, p);
    }
    var next, q := NextLeft(left, s.vvNew[(b, p)]), p + 1;
    forall o
      ensures RefsLeft(s, next, o, b, q)
    {
      assert RefsLeft(s, left, o, b, p);
      RefsNext(s, left, b, p, o);
    }
  }

  lemma NewRow(c: Config, s: Db, left: map<int, int>, b: int)
    requires c.Valid() && Covers(s.vvNew, c.newBuckets, c.bucketSize) && NewSoFar(c, s, left, b, c.bucketSize)
    ensures NewSoFar(c, s, left, b + 1, 0)
  {
    var next := b + 1;
    forall id
      ensures RefsLeft(s, left, id, next, 0)
    {
      assert RefsLeft(s, left, id, b, c.bucketSize);
      assert Met(s.vvNew, id, b + 1, 0) == Met(s.vvNew, id, b, c.bucketSize);
    }
  }

  lemma NewEnd(c: Config, s: Db, left: map<int, int>)
    requires c.Valid() && Covers(s.vvNew, c.newBuckets, c.bucketSize) && NewSoFar(c, s, left, c.newBuckets, 0)
    requires forall id | id in s.mapInfo :: EntryOk(s, id)
    ensures left.Keys == {} <==> NewTableOk(c, s)
  {
    forall id
      ensures id in s.mapInfo && !s.mapInfo[id].fInTried ==> (id in left <==> !Counted(s, id))
      ensures !(id in s.mapInfo && !s.mapInfo[id].fInTried) ==> id !in left
    {
      assert RefsLeft(s, left, id, c.newBuckets, 0);
      assert Met(s.vvNew, id, c.newBuckets, 0) == CellsOf(s.vvNew, id);
      if id in s.mapInfo {
        assert EntryOk(s, id);
      }
    }
    if NewTableOk(c, s) {
      NoElements(left.Keys);
    }
    if left.Keys == {} {
      forall id | id in s.mapInfo && !s.mapInfo[id].fInTried
        ensures Counted(s, id)
      {
        assert id !in left.Keys;
      }
    }
  }

  // ------------------------------------------------------------------ the method

  function EntryCode(man: AddrMan, id: int): int
    requires id in man.mapInfo
    reads man
  {
    var info := man.mapInfo[id];
    if info.fInTried && info.nRefCount != 0 then -2
    else if !info.fInTried && (info.nRefCount < 0 || info.nRefCount > MAX_REFS) then -3
    else if !info.fInTried && info.nRefCount == 0 then -4
    else if Lookup(man.mapAddr, info.addr.ip) != id then -5
    else if info.nRandomPos < 0 || info.nRandomPos >= |man.vRandom| || man.vRandom[info.nRandomPos] != id then -14
    else 0
  }

  lemma EntryCodeIff(man: AddrMan, id: int)
    requires id in man.mapInfo
    ensures EntryCode(man, id) == 0 <==> EntryOk(man.Abs(), id)
  {
  }

  /** First loop: every entry by itself, collecting tried ids and reference counts. */
  method CheckEntries(man: AddrMan) returns (err: int, setTried: set<int>, mapNew: map<int, int>)
    requires man.Shape()
    ensures err == 0 <==> forall id | id in man.mapInfo :: EntryOk(man.Abs(), id)
    ensures err == 0 ==>
              && setTried == TriedIds(man.mapInfo) && mapNew.Keys == NewIds(man.mapInfo)
              && forall id | id in mapNew :: mapNew[id] == man.mapInfo[id].nRefCount
  {
    setTried, mapNew := {}, map[];
    var rest := man.mapInfo.Keys;
    while rest != {}
      invariant rest <= man.mapInfo.Keys
      invariant forall id | id in man.mapInfo && id !in rest :: EntryOk(man.Abs(), id)
      invariant setTried == TriedIds(man.mapInfo) - rest
      invariant mapNew.Keys == NewIds(man.mapInfo) - rest
      invariant forall id | id in mapNew :: mapNew[id] == man.mapInfo[id].nRefCount
      decreases |rest|
    {
      var id := Pick(rest);
      err := EntryCode(man, id);
      EntryCodeIff(man, id);
      if err != 0 {
        return;
      }
      if man.mapInfo[id].fInTried {
        setTried := setTried + {id};
      } else {
        mapNew := mapNew[id := man.mapInfo[id].nRefCount];
      }
      rest := rest - {id};
    }
    err := 0;
  }

  ghost predicate TriedCellsOk(c: Config, s: Db)
    requires c.Valid()
  {
    forall k | k in s.vvTried :: TriedCellOk(c, s, k)
  }

  /** Second loop: every occupied tried slot holds its own id, and crosses it off. */
  method CheckTried(man: AddrMan, ids: set<int>) returns (err: int, left: set<int>)
    requires man.Shape() && TriedSoFar(man.cfg, man.Abs(), ids, 0, 0)
    ensures err == 0 <==> TriedCellsOk(man.cfg, man.Abs())
    ensures err == 0 ==> TriedSoFar(man.cfg, man.Abs(), left, man.cfg.triedBuckets, 0)
  {
    left := ids;
    ghost var s := man.Abs();
    for b := 0 to man.cfg.triedBuckets
      invariant TriedSoFar(man.cfg, s, left, b, 0)
    {
      err, left := CheckTriedRow(man, left, b, s);
      if err != 0 {
        return;
      }
    }
    TriedEnd(man.cfg, s, left);
    err := 0;
  }

  method CheckTriedRow(man: AddrMan, ids: set<int>, b: int, ghost s: Db) returns (err: int, left: set<int>)
    requires man.Shape() && s == man.Abs() && 0 <= b < man.cfg.triedBuckets && TriedSoFar(man.cfg, s, ids, b, 0)
    ensures err == 0 ==> TriedSoFar(man.cfg, s, left, b + 1, 0)
    ensures err != 0 ==> !TriedCellsOk(man.cfg, s)
  {
    left := ids;
    for p := 0 to man.cfg.bucketSize
      invariant TriedSoFar(man.cfg, s, left, b, p)
    {
      ghost var k := (b, p);
      TabAt(man.vvTried, k);
      TriedStep(man.cfg, s, left, b, p);
      var id := man.vvTried[b, p];
      if id != -1 {
        if id !in left || id !in man.mapInfo {
          return -11, left;
        }
        if man.cfg.TriedSlot(man.mapInfo[id].addr) != (b, p) {
          return -17, left;
        }
        left := left - {id};
      } else {
        assert left - {} == left;
      }
    }
    TriedRow(man.cfg, s, left, b);
    err := 0;
  }

  /** Third loop: every occupied new cell holds a new id at its own position, and
      uses up one of its references. */
  method CheckNew(man: AddrMan, counts: map<int, int>) returns (err: int, left: map<int, int>)
    requires man.Shape() && NewSoFar(man.cfg, man.Abs(), counts, 0, 0)
    ensures err == 0 ==> NewSoFar(man.cfg, man.Abs(), left, man.cfg.newBuckets, 0)
    ensures err != 0 ==> !NewTableOk(man.cfg, man.Abs())
  {
    left := counts;
    ghost var s := man.Abs();
    for b := 0 to man.cfg.newBuckets
      invariant NewSoFar(man.cfg, s, left, b, 0)
    {
      err, left := CheckNewRow(man, left, b, s);
      if err != 0 {
        return;
      }
    }
    err := 0;
  }

  method CheckNewRow(man: AddrMan, counts: map<int, int>, b: int, ghost s: Db) returns (err: int, left: map<int, int>)
    requires man.Shape() && s == man.Abs() && 0 <= b < man.cfg.newBuckets && NewSoFar(man.cfg, s, counts, b, 0)
    ensures err == 0 ==> NewSoFar(man.cfg, s, left, b + 1, 0)
    ensures err != 0 ==> !NewTableOk(man.cfg, s)
  {
    left := counts;
    for p := 0 to man.cfg.bucketSize
      invariant NewSoFar(man.cfg, s, left, b, p)
    {
      err, left := CheckNewCell(man, left, b, p, s);
      if err != 0 {
        return;
      }
    }
    NewRow(man.cfg, s, left, b);
    err := 0;
  }

  method CheckNewCell(man: AddrMan, counts: map<int, int>, b: int, p: int, ghost s: Db)
    returns (err: int, left: map<int, int>)
    requires man.Shape() && s == man.Abs() && 0 <= b < man.cfg.newBuckets && 0 <= p < man.cfg.bucketSize
    requires NewSoFar(man.cfg, s, counts, b, p)
    ensures err == 0 ==> NewSoFar(man.cfg, s, left, b, p + 1)
    ensures err != 0 ==> !NewTableOk(man.cfg, s)
  {
    ghost var k := (b, p);
    TabAt(man.vvNew, k);
    if NewCellPasses(man.cfg, s, counts, k) {
      NewPasses(man.cfg, s, counts, b, p);
    } else {
      NewFails(man.cfg, s, counts, b, p);
    }
    var id := man.vvNew[b, p];
    if id == -1 {
      return 0, counts;
    }
    if id !in counts || id !in man.mapInfo {
      return -12, counts;
    }
    if man.cfg.BucketPosition(true, b, man.mapInfo[id].addr) != p {
      return -19, counts;
    }
    return 0, Decrement(counts, id);
  }

  lemma TablesCover(man: AddrMan)
    requires man.Shape()
    ensures Covers(man.Abs().vvTried, man.cfg.triedBuckets, man.cfg.bucketSize)
    ensures Covers(man.Abs().vvNew, man.cfg.newBuckets, man.cfg.bucketSize)
  {
  }

  /** Check_: zero means no complaint, and there is none exactly when everything it looks
      at is right. */
  method Check(man: AddrMan) returns (err: int)
    requires man.Shape()
    ensures err == 0 <==> Visible(man.cfg, man.Abs())
  {
    ghost var s := man.Abs();
    TablesCover(man);
    if |man.vRandom| != man.nTried + man.nNew {
      return -7;
    }
    var setTried, mapNew;
    err, setTried, mapNew := CheckEntries(man);
    if err != 0 {
      return;
    }
    if |setTried| != man.nTried {
      return -9;
    }
    if |mapNew| != man.nNew {
      return -10;
    }
    TriedStart(man.cfg, s);
    NewStart(man.cfg, s, mapNew);
    err, setTried := CheckTried(man, setTried);
    if err != 0 {
      return;
    }
    TriedEnd(man.cfg, s, setTried);
    err, mapNew := CheckNew(man, mapNew);
    if err != 0 {
      return;
    }
    NewEnd(man.cfg, s, mapNew);
    if |setTried| != 0 {
      return -13;
    }
    if |mapNew| != 0 {
      return -15;
    }
  }
}
