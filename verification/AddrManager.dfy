/** The address manager as the object it is: maps, a vector, two fixed tables and
    counters updated in place. Each method is proved equal to the corresponding
    step of modules AddrTables and AddrOps, so every public operation keeps the
    whole structure consistent and every internal assertion of the code holds. */
module AddrManager {
  import opened Basics
  import opened Powers
  import opened AddrTables
  import opened AddrOps
  import opened AddrEffects

  ghost function Grid(n: int, m: int): (r: set<Cell>)
    ensures forall k: Cell :: k in r <==> 0 <= k.0 < n && 0 <= k.1 < m
  {
    set b, p | 0 <= b < n && 0 <= p < m :: (b, p)
  }

  /** The contents of a bucket table. */
  ghost function Tab(a: array2<int>): (t: Table)
    reads a
  {
    map k | k in Grid(a.Length0, a.Length1) :: a[k.0, k.1]
  }

  lemma TabAt(a: array2<int>, k: Cell)
    ensures k in Tab(a) <==> 0 <= k.0 < a.Length0 && 0 <= k.1 < a.Length1
    ensures k in Tab(a) ==> Tab(a)[k] == a[k.0, k.1]
  {
  }

  method Put(a: array2<int>, b: int, p: int, v: int)
    requires 0 <= b < a.Length0 && 0 <= p < a.Length1
    modifies a
    ensures Tab(a) == old(Tab(a))[(b, p) := v]
  {
    a[b, p] := v;
    forall k: Cell | k in Tab(a) ensures Tab(a)[k] == old(Tab(a))[(b, p) := v][k] {
      if k != (b, p) {
        assert k.0 != b || k.1 != p;
      }
    }
  }

  /** id removed from the buckets below `bucket`. */
  ghost function BlankUpTo(n: Table, id: int, bucket: int): Table {
    map k | k in n :: if n[k] == id && k.0 < bucket then -1 else n[k]
  }

  /** MakeTried's first loop, part way. */
  ghost function LeaveUpTo(s: Db, id: int, bucket: int): Db
    requires id in s.mapInfo
  {
    var n := BlankUpTo(s.vvNew, id, bucket);
    s.Set(id, s.mapInfo[id].(nRefCount := |CellsOf(n, id)|)).(vvNew := n)
  }

  lemma BlankStep(c: Config, n: Table, id: int, a: Service, bucket: int)
    requires c.Valid() && Covers(n, c.newBuckets, c.bucketSize) && 0 <= bucket < c.newBuckets
    requires forall k | k in n && n[k] == id :: k.1 == c.BucketPosition(true, k.0, a)
    ensures var k := (bucket, c.BucketPosition(true, bucket, a));
            var w := BlankUpTo(n, id, bucket);
            && k in n && k in w && w[k] == n[k]
            && BlankUpTo(n, id, bucket + 1) == if n[k] == id then w[k := -1] else w
  {
    var k := (bucket, c.BucketPosition(true, bucket, a));
    var w := BlankUpTo(n, id, bucket);
    var r := if n[k] == id then w[k := -1] else w;
    forall j | j in n ensures BlankUpTo(n, id, bucket + 1)[j] == r[j] {
      if j.0 == bucket && n[j] == id {
        assert j == k;
      }
    }
    assert BlankUpTo(n, id, bucket + 1) == r;
  }

  /** Emptying one more bucket drops one reference, or none. */
  ghost predicate LeaveFact(c: Config, s: Db, id: int, bucket: int)
    requires c.Valid() && id in s.mapInfo
  {
    var k := (bucket, c.BucketPosition(true, bucket, s.mapInfo[id].addr));
    var u := LeaveUpTo(s, id, bucket);
    && k in u.vvNew
    && LeaveUpTo(s, id, bucket + 1) == if u.vvNew[k] == id then Unref(u, k) else u
  }

  /** What MakeTried's first loop relies on. */
  ghost predicate Leavable(c: Config, s: Db, id: int) {
    && c.Valid() && id in s.mapInfo
    && LeaveUpTo(s, id, 0) == s
    && LeaveUpTo(s, id, c.newBuckets).(nNew := s.nNew - 1) == LeaveNew(s, id)
    && forall bucket | 0 <= bucket < c.newBuckets :: LeaveFact(c, s, id, bucket)
  }

  lemma LeaveStep(c: Config, s: Db, id: int, bucket: int)
    requires c.Valid() && NewOk(c, s.mapInfo, s.vvNew) && id in s.mapInfo && id != -1 && 0 <= bucket < c.newBuckets
    ensures LeaveFact(c, s, id, bucket)
  {
    var k := (bucket, c.BucketPosition(true, bucket, s.mapInfo[id].addr));
    var u := LeaveUpTo(s, id, bucket);
    BlankStep(c, s.vvNew, id, s.mapInfo[id].addr, bucket);
    if u.vvNew[k] == id {
      CellsUpdate(u.vvNew, k, -1, id);
      assert k in CellsOf(u.vvNew, id);
      assert |CellsOf(u.vvNew, id) - {k}| == |CellsOf(u.vvNew, id)| - 1;
    }
  }

  lemma LeaveEnds(c: Config, s: Db, id: int)
    requires c.Valid() && NewOk(c, s.mapInfo, s.vvNew) && id in s.mapInfo && id != -1
    requires s.mapInfo[id].nRefCount == |CellsOf(s.vvNew, id)|
    ensures LeaveUpTo(s, id, 0) == s
    ensures LeaveUpTo(s, id, c.newBuckets).(nNew := s.nNew - 1) == LeaveNew(s, id)
  {
    assert BlankUpTo(s.vvNew, id, 0) == s.vvNew;
    assert BlankUpTo(s.vvNew, id, c.newBuckets) == Blank(s.vvNew, id);
    assert CellsOf(Blank(s.vvNew, id), id) == {};
  }

  lemma CanLeave(c: Config, s: Db, id: int)
    requires c.Valid() && Inv(c, s, {}, 0) && id in s.mapInfo && !s.mapInfo[id].fInTried
    ensures Leavable(c, s, id)
  {
    LeaveEnds(c, s, id);
    forall bucket | 0 <= bucket < c.newBuckets ensures LeaveFact(c, s, id, bucket) {
      LeaveStep(c, s, id, bucket);
    }
  }

  /** The i-th bucket of a scan that starts anywhere and wraps around. */
  function Wrap(i: int, start: int, n: int): (b: int)
    requires 0 < n
    ensures 0 <= b < n
  {
    (i + start) % n
  }

  /** Such a scan misses no bucket. */
  lemma Rotation(n: int, start: int, b: int) returns (i: int)
    requires 0 <= start < n && 0 <= b < n
    ensures 0 <= i < n && Wrap(i, start, n) == b
  {
    i := if b >= start then b - start else b - start + n;
    if b < start {
      assert i + start == b + n;
      assert (b + n) % n == b;
    }
  }

  /** Some new bucket holds id. */
  ghost predicate HasBucket(c: Config, s: Db, id: int)
    requires c.Valid() && id in s.mapInfo
  {
    exists b | 0 <= b < c.newBuckets :: InBucket(c, s, id, b)
  }

  ghost predicate InBucket(c: Config, s: Db, id: int, b: int)
    requires c.Valid() && id in s.mapInfo
  {
    var k := (b, c.BucketPosition(true, b, s.mapInfo[id].addr));
    k in s.vvNew && s.vvNew[k] == id
  }

  /** A new address always sits in some bucket: "something bad" never happens. */
  lemma NewHasBucket(c: Config, s: Db, id: int)
    requires c.Valid() && Inv(c, s, {}, 0) && id in s.mapInfo && !s.mapInfo[id].fInTried
    ensures HasBucket(c, s, id)
  {
    assert CellsOf(s.vvNew, id) != {};
    var k :| k in CellsOf(s.vvNew, id);
    assert InBucket(c, s, id, k.0);
  }

  /** Everything Good_ relies on along its path. */
  ghost predicate GoodReady(c: Config, s: Db, a: Service, testBeforeEvict: bool, time: int) {
    && c.Valid() && CanGood(c, s, a, testBeforeEvict, time)
    && (Found(s, a) && !s.mapInfo[s.mapAddr[a.ip]].fInTried ==>
          var id := s.mapAddr[a.ip];
          var s1 := MarkGood(s.(nLastGood := time), id, time);
          HasBucket(c, s1, id) && (GoodMoves(c, s, a, testBeforeEvict) ==> Leavable(c, s1, id)))
  }

  lemma GoodIsReady(c: Config, s: Db, a: Service, testBeforeEvict: bool, time: int)
    requires c.Valid() && Inv(c, s, {}, 0)
    ensures GoodReady(c, s, a, testBeforeEvict, time)
  {
    GoodOk(c, s, a, testBeforeEvict, time);
    if Found(s, a) && !s.mapInfo[s.mapAddr[a.ip]].fInTried {
      var id := s.mapAddr[a.ip];
      var s1 := MarkGood(s.(nLastGood := time), id, time);
      MarkedOk(c, s, id, time);
      NewHasBucket(c, s1, id);
      CanLeave(c, s1, id);
    }
  }

  /** Everything ResolveCollisions_ relies on for one pending id. */
  ghost predicate ResolveReady(c: Config, s: Db, id: int, now: int) {
    && c.Valid() && CanResolve(c, s, id, now)
    && (Judge(c, s, id, now).Replace? ==> GoodReady(c, s, s.mapInfo[id].addr, false, now))
    && (id in s.mapInfo ==>
          var slot := c.TriedSlot(s.mapInfo[id].addr);
          slot in s.vvTried && (s.vvTried[slot] != -1 ==> s.vvTried[slot] in s.mapInfo))
  }

  lemma ResolveIsReady(c: Config, s: Db, id: int, now: int)
    requires c.Valid() && Consistent(c, s)
    ensures ResolveReady(c, s, id, now)
  {
    ResolveKeeps(c, s, id, now);
    if Judge(c, s, id, now).Replace? {
      GoodIsReady(c, s, s.mapInfo[id].addr, false, now);
    }
  }

  /** A table of empty cells. */
  ghost function Blanks(n: int, m: int): Table { map k | k in Grid(n, m) :: -1 }

  ghost function EmptyDb(t: Table, n: Table): Db { Db(0, map[], map[], [], 0, t, 0, n, 1, {}) }

  lemma EmptyConsistent(c: Config, t: Table, n: Table)
    requires c.Valid() && Covers(t, c.triedBuckets, c.bucketSize) && Covers(n, c.newBuckets, c.bucketSize)
    requires (forall k | k in t :: t[k] == -1) && (forall k | k in n :: n[k] == -1)
    ensures Consistent(c, EmptyDb(t, n))
  {
    assert TriedIds(map[]) == {} && NewIds(map[]) == {};
  }

  // ---------------------------------------------------------------------- GetAddr_

  const GETADDR_MAX_PCT := 23
  const GETADDR_MAX := 2500

  /** How many addresses are asked for, out of n. */
  function Wanted(n: nat): nat { Min(23 * n / 100, 2500) }

  /** `out` lists entries found at increasing positions of vRandom below n, all of
      them healthy. */
  ghost predicate Gathered(s: Db, n: int, out: seq<Info>, at: seq<int>, now: int) {
    && |at| == |out|
    && (forall i | 0 <= i < |at| :: 0 <= at[i] < n && at[i] < |s.vRandom|)
    && (forall i, j | 0 <= i < j < |at| :: at[i] < at[j])
    && (forall i | 0 <= i < |at| ::
          && s.vRandom[at[i]] in s.mapInfo
          && SameInfo(out[i], s.mapInfo[s.vRandom[at[i]]])
          && Healthy(out[i], now))
  }

  lemma GatheredNext(s: Db, n: int, out: seq<Info>, at: seq<int>, now: int)
    requires Gathered(s, n, out, at, now) && 0 <= n < |s.vRandom| && s.vRandom[n] in s.mapInfo
    ensures Gathered(s, n + 1, out, at, now)
    ensures var ai := s.mapInfo[s.vRandom[n]];
            Healthy(ai, now) ==> Gathered(s, n + 1, out + [ai], at + [n], now)
  {
  }

  lemma GatheredSwap(s: Db, n: int, j: int, out: seq<Info>, at: seq<int>, now: int)
    requires RandomOk(s.mapInfo, s.vRandom) && 0 <= n <= j < |s.vRandom| && Gathered(s, n, out, at, now)
    ensures Gathered(AddrTables.SwapRandom(s, n, j), n, out, at, now)
  {
    SwapShape(s, n, j);
    var r := AddrTables.SwapRandom(s, n, j);
    forall i | 0 <= i < |at|
      ensures r.vRandom[at[i]] in r.mapInfo && SameInfo(out[i], r.mapInfo[r.vRandom[at[i]]])
    {
      assert r.vRandom[at[i]] == s.vRandom[at[i]];
      assert SameInfo(r.mapInfo[r.vRandom[at[i]]], s.mapInfo[s.vRandom[at[i]]]);
    }
  }

  /** Every listed entry is the one known under its address, and healthy. */
  ghost predicate Listed(s: Db, out: seq<Info>, now: int) {
    && (forall i | 0 <= i < |out| ::
          && Healthy(out[i], now)
          && out[i].addr.ip in s.mapAddr && s.mapAddr[out[i].addr.ip] in s.mapInfo
          && SameInfo(out[i], s.mapInfo[s.mapAddr[out[i].addr.ip]]))
    && (forall i, j | 0 <= i < j < |out| :: out[i].addr.ip != out[j].addr.ip)
  }

  lemma GatheredDistinct(s: Db, n: int, out: seq<Info>, at: seq<int>, now: int)
    requires AddrOk(s.mapInfo, s.mapAddr) && RandomOk(s.mapInfo, s.vRandom) && Gathered(s, n, out, at, now)
    ensures Listed(s, out, now)
  {
    forall i | 0 <= i < |out|
      ensures out[i].addr.ip in s.mapAddr && s.mapAddr[out[i].addr.ip] == s.vRandom[at[i]]
    {
      var id := s.vRandom[at[i]];
      assert id in s.mapInfo && SameInfo(out[i], s.mapInfo[id]);
      assert s.mapInfo[id].addr.ip in s.mapAddr;
    }
    forall i, j | 0 <= i < j < |out| ensures out[i].addr.ip != out[j].addr.ip {
      var a, b := s.vRandom[at[i]], s.vRandom[at[j]];
      assert s.mapInfo[a].nRandomPos == at[i] && s.mapInfo[b].nRandomPos == at[j];
    }
  }

  /** Every entry at the first n positions is unhealthy or among those listed. */
  ghost predicate Passed(s: Db, n: int, at: seq<int>, now: int) {
    forall p | 0 <= p < n && p < |s.vRandom| :: PassedAt(s, p, at, now)
  }

  ghost predicate PassedAt(s: Db, p: int, at: seq<int>, now: int)
    requires 0 <= p < |s.vRandom|
  {
    s.vRandom[p] in s.mapInfo && (Healthy(s.mapInfo[s.vRandom[p]], now) ==> p in at)
  }

  lemma PassedSwap(s: Db, n: int, j: int, at: seq<int>, now: int)
    requires RandomOk(s.mapInfo, s.vRandom) && 0 <= n <= j < |s.vRandom| && Passed(s, n, at, now)
    ensures Passed(AddrTables.SwapRandom(s, n, j), n, at, now)
  {
    SwapShape(s, n, j);
    var r := AddrTables.SwapRandom(s, n, j);
    forall p | 0 <= p < n && p < |r.vRandom|
      ensures PassedAt(r, p, at, now)
    {
      assert PassedAt(s, p, at, now);
      assert SameInfo(r.mapInfo[r.vRandom[p]], s.mapInfo[s.vRandom[p]]);
    }
  }

  lemma PassedNext(s: Db, n: int, at: seq<int>, now: int, to: seq<int>)
    requires 0 <= n < |s.vRandom| && s.vRandom[n] in s.mapInfo && Passed(s, n, at, now)
    requires to == if Healthy(s.mapInfo[s.vRandom[n]], now) then at + [n] else at
    ensures Passed(s, n + 1, to, now)
  {
    forall p | 0 <= p < n + 1 && p < |s.vRandom|
      ensures PassedAt(s, p, to, now)
    {
      if p < n {
        assert PassedAt(s, p, at, now);
      } else if Healthy(s.mapInfo[s.vRandom[n]], now) {
        assert to[|at|] == n;
      }
    }
  }

  /** Every known address that is healthy is in the list. */
  ghost predicate Complete(s: Db, out: seq<Info>, now: int) {
    forall id | id in s.mapInfo && Healthy(s.mapInfo[id], now) :: Among(out, s.mapInfo[id].addr)
  }

  ghost predicate Among(out: seq<Info>, a: Service) { exists i | 0 <= i < |out| :: out[i].addr == a }

  lemma PassedAll(s: Db, out: seq<Info>, at: seq<int>, now: int)
    requires RandomOk(s.mapInfo, s.vRandom) && Gathered(s, |s.vRandom|, out, at, now) && Passed(s, |s.vRandom|, at, now)
    ensures Complete(s, out, now)
  {
    forall id | id in s.mapInfo && Healthy(s.mapInfo[id], now)
      ensures Among(out, s.mapInfo[id].addr)
    {
      var p := s.mapInfo[id].nRandomPos;
      assert PassedAt(s, p, at, now);
      var i :| 0 <= i < |at| && at[i] == p;
      assert SameInfo(out[i], s.mapInfo[s.vRandom[at[i]]]);
    }
  }

  /** s comes from s0 by shuffles, and its first n entries have been gone through. */
  ghost predicate Gathering(c: Config, s0: Db, ops: seq<Op>, s: Db, n: int, out: seq<Info>, at: seq<int>, now: int)
    requires c.Valid()
  {
    && Consistent(c, s0) && AllShuffles(ops) && s == Run(c, s0, ops)
    && Gathered(s, n, out, at, now) && Passed(s, n, at, now)
  }

  lemma GatheringStart(c: Config, s: Db, now: int)
    requires c.Valid() && Consistent(c, s)
    ensures Gathering(c, s, [], s, 0, [], [], now)
  {
  }

  lemma GatheringNext(c: Config, s0: Db, ops: seq<Op>, s: Db, n: int, j: int, r: Db, out: seq<Info>, at: seq<int>,
      now: int, out2: seq<Info>, at2: seq<int>)
    requires c.Valid() && Gathering(c, s0, ops, s, n, out, at, now) && r == Apply(c, s, OpShuffle(n, j))
    requires Gathered(r, n + 1, out2, at2, now) && Passed(r, n + 1, at2, now)
    ensures Gathering(c, s0, ops + [OpShuffle(n, j)], r, n + 1, out2, at2, now)
  {
    RunNext(c, s0, ops, OpShuffle(n, j));
  }

  lemma GatheredTurn(s: Db, n: int, j: int, r: Db, out: seq<Info>, at: seq<int>, now: int, out2: seq<Info>,
      at2: seq<int>)
    requires RandomOk(s.mapInfo, s.vRandom) && 0 <= n <= j < |s.vRandom| && r == AddrTables.SwapRandom(s, n, j)
    requires Gathered(s, n, out, at, now) && Passed(s, n, at, now) && n < |r.vRandom| && r.vRandom[n] in r.mapInfo
    requires var ai := r.mapInfo[r.vRandom[n]];
             if Healthy(ai, now) then out2 == out + [ai] && at2 == at + [n] else out2 == out && at2 == at
    ensures Gathered(r, n + 1, out2, at2, now) && Passed(r, n + 1, at2, now)
  {
    GatheredSwap(s, n, j, out, at, now);
    PassedSwap(s, n, j, at, now);
    GatheredNext(r, n, out, at, now);
    PassedNext(r, n, at, now, at2);
  }

  lemma {:induction false} GatheredAll(c: Config, s0: Db, ops: seq<Op>, s: Db, n: int, out: seq<Info>, at: seq<int>,
      now: int)
    requires c.Valid() && n <= |s.vRandom| && Gathering(c, s0, ops, s, n, out, at, now)
    ensures Reordered(s0, s) && Listed(s, out, now)
    ensures n == |s.vRandom| ==> Complete(s, out, now)
  {
    ShufflesReorder(c, s0, ops);
    GatheredDistinct(s, n, out, at, now);
    if n == |s.vRandom| {
      PassedAll(s, out, at, now);
    }
  }

  lemma NonEmpty(a: set<int>)
    requires a != {}
    ensures exists y :: y in a
  {
    if forall y: int :: y !in a {
      assert false;
    }
  }

  method Pick(a: set<int>) returns (x: int)
    requires a != {}
    ensures x in a
  {
    NonEmpty(a);
    x :| x in a;
  }

  /** Sets are gone through in ascending order. */
  method Smallest(a: set<int>) returns (x: int)
    requires a != {}
    ensures x in a && forall y | y in a :: x <= y
  {
    x := Pick(a);
    var rest := a - {x};
    while rest != {}
      invariant x in a && rest <= a && forall y | y in a && y !in rest :: x <= y
      decreases |rest|
    {
      var y := Pick(rest);
      rest := rest - {y};
      if y < x {
        x := y;
      }
    }
  }

  lemma TabBlank(a: array2<int>)
    requires forall i, j | 0 <= i < a.Length0 && 0 <= j < a.Length1 :: a[i, j] == -1
    ensures Tab(a) == Blanks(a.Length0, a.Length1)
  {
  }

  lemma SetTwice(m: Infos, n: int, a: Info, b: Info)
    ensures m[n := a][n := b] == m[n := b]
  {
  }

  class AddrMan {
    const cfg: Config
    var nIdCount: int
    var mapInfo: map<int, Info>
    var mapAddr: map<NetAddr, int>
    var vRandom: seq<int>
    var nTried: int
    const vvTried: array2<int>
    var nNew: int
    const vvNew: array2<int>
    var nLastGood: int
    var triedCollisions: set<int>

    ghost predicate Shape() {
      && cfg.Valid() && vvTried != vvNew
      && vvTried.Length0 == cfg.triedBuckets && vvTried.Length1 == cfg.bucketSize
      && vvNew.Length0 == cfg.newBuckets && vvNew.Length1 == cfg.bucketSize
    }

    ghost function Abs(): Db
      reads this, vvTried, vvNew
    {
      Db(nIdCount, mapInfo, mapAddr, vRandom, nTried, Tab(vvTried), nNew, Tab(vvNew), nLastGood, triedCollisions)
    }

    ghost predicate Valid()
      reads this, vvTried, vvNew
    {
      Shape() && Consistent(cfg, Abs())
    }

    /** The tables start empty. */
    constructor (c: Config)
      requires c.Valid()
      ensures Valid() && fresh(vvTried) && fresh(vvNew) && cfg == c
      ensures Abs() == EmptyDb(Blanks(c.triedBuckets, c.bucketSize), Blanks(c.newBuckets, c.bucketSize))
    {
      cfg := c;
      nIdCount, nTried, nNew, nLastGood := 0, 0, 0, 1;
      mapInfo, mapAddr, vRandom, triedCollisions := map[], map[], [], {};
      vvTried := new int[c.triedBuckets, c.bucketSize]((i, j) => -1);
      vvNew := new int[c.newBuckets, c.bucketSize]((i, j) => -1);
      new;
      TabBlank(vvTried);
      TabBlank(vvNew);
      EmptyConsistent(c, Tab(vvTried), Tab(vvNew));
    }

    // ------------------------------------------------------------ internal steps

    method SwapRandom(i: int, j: int)
      requires Shape()
      requires i == j || (0 <= i < |vRandom| && 0 <= j < |vRandom|)
      requires i != j ==> vRandom[i] in mapInfo && vRandom[j] in mapInfo
      modifies this`mapInfo, this`vRandom
      ensures Abs() == AddrTables.SwapRandom(old(Abs()), i, j)
    {
      if i == j {
        return;
      }
      var id1, id2 := vRandom[i], vRandom[j];
      mapInfo := mapInfo[id1 := mapInfo[id1].(nRandomPos := j)];
      mapInfo := mapInfo[id2 := mapInfo[id2].(nRandomPos := i)];
      vRandom := vRandom[i := id2];
      vRandom := vRandom[j := id1];
    }

    method Delete(id: int)
      requires Shape() && CanDelete(Abs(), id)
      modifies this`mapInfo, this`mapAddr, this`vRandom, this`nNew
      ensures Abs() == AddrTables.Delete(old(Abs()), id)
    {
      var info := mapInfo[id];
      SwapRandom(info.nRandomPos, |vRandom| - 1);
      vRandom := vRandom[..|vRandom| - 1];
      mapAddr := mapAddr - {info.addr.ip};
      mapInfo := mapInfo - {id};
      nNew := nNew - 1;
    }

    /** One reference to the occupant of a new cell is dropped. */
    method Unreference(k: Cell)
      requires Shape() && k in Abs().vvNew && Abs().vvNew[k] in mapInfo
      modifies this`mapInfo, vvNew
      ensures Abs() == Unref(old(Abs()), k)
    {
      TabAt(vvNew, k);
      var id := vvNew[k.0, k.1];
      mapInfo := mapInfo[id := mapInfo[id].(nRefCount := mapInfo[id].nRefCount - 1)];
      Put(vvNew, k.0, k.1, -1);
    }

    /** A free new cell is given to id. */
    method Reference(id: int, k: Cell)
      requires Shape() && k in Abs().vvNew && id in mapInfo
      modifies this`mapInfo, vvNew
      ensures Abs() == Ref(old(Abs()), id, k)
    {
      TabAt(vvNew, k);
      mapInfo := mapInfo[id := mapInfo[id].(nRefCount := mapInfo[id].nRefCount + 1)];
      Put(vvNew, k.0, k.1, id);
    }

    method ClearNew(k: Cell)
      requires Shape() && CanClear(Abs(), k)
      modifies this`mapInfo, this`mapAddr, this`vRandom, this`nNew, vvNew
      ensures Abs() == AddrTables.ClearNew(old(Abs()), k)
    {
      TabAt(vvNew, k);
      if vvNew[k.0, k.1] != -1 {
        var id := vvNew[k.0, k.1];
        Unreference(k);
        if mapInfo[id].nRefCount == 0 {
          Delete(id);
        }
      }
    }

    // ---------------------------------------------------------------- MakeTried

    /** First loop of MakeTried: id is taken out of all its new buckets, after which
        its reference count is zero. */
    method LeaveNewTable(id: int)
      requires Shape() && Leavable(cfg, Abs(), id)
      modifies this`mapInfo, this`nNew, vvNew
      ensures Abs() == LeaveNew(old(Abs()), id)
      ensures mapInfo[id].nRefCount == 0
    {
      ghost var s := Abs();
      for bucket := 0 to vvNew.Length0
        invariant Abs() == LeaveUpTo(s, id, bucket)
      {
        assert LeaveFact(cfg, s, id, bucket);
        var k := (bucket, cfg.BucketPosition(true, bucket, mapInfo[id].addr));
        TabAt(vvNew, k);
        if vvNew[k.0, k.1] == id {
          Unreference(k);
        }
      }
      nNew := nNew - 1;
    }

    method DemoteAt(slot: Cell)
      requires Shape() && slot in Abs().vvTried && Abs().vvTried[slot] in mapInfo
      modifies this`mapInfo, this`nTried, vvTried
      ensures Abs() == Demote(old(Abs()), slot)
    {
      TabAt(vvTried, slot);
      var e := vvTried[slot.0, slot.1];
      mapInfo := mapInfo[e := mapInfo[e].(fInTried := false)];
      Put(vvTried, slot.0, slot.1, -1);
      nTried := nTried - 1;
    }

    method PromoteTo(id: int, slot: Cell)
      requires Shape() && slot in Abs().vvTried && id in mapInfo
      modifies this`mapInfo, this`nTried, vvTried
      ensures Abs() == Promote(old(Abs()), id, slot)
    {
      TabAt(vvTried, slot);
      Put(vvTried, slot.0, slot.1, id);
      nTried := nTried + 1;
      mapInfo := mapInfo[id := mapInfo[id].(fInTried := true)];
    }

    /** The eviction inside MakeTried. */
    method Evict(slot: Cell)
      requires Shape() && CanEvict(cfg, Abs(), slot)
      modifies this`mapInfo, this`mapAddr, this`vRandom, this`nTried, this`nNew, vvTried, vvNew
      ensures Abs() == AddrOps.Evict(cfg, old(Abs()), slot)
    {
      TabAt(vvTried, slot);
      var e := vvTried[slot.0, slot.1];
      var k := cfg.NewSlot(mapInfo[e].addr, mapInfo[e].source);
      DemoteAt(slot);
      ClearNew(k);
      Reference(e, k);
      nNew := nNew + 1;
    }

    /** Move an entry from the new table to the tried table. */
    method MakeTried(id: int)
      requires Shape() && CanMakeTried(cfg, Abs(), id) && Leavable(cfg, Abs(), id)
      modifies this`mapInfo, this`mapAddr, this`vRandom, this`nTried, this`nNew, vvTried, vvNew
      ensures Abs() == AddrOps.MakeTried(cfg, old(Abs()), id)
    {
      var slot := cfg.TriedSlot(mapInfo[id].addr);
      LeaveNewTable(id);
      TabAt(vvTried, slot);
      if vvTried[slot.0, slot.1] != -1 {
        Evict(slot);
      }
      assert Abs() == Room(cfg, old(Abs()), id);
      PromoteTo(id, slot);
    }

    // -------------------------------------------------------------------- Good_

    /** The first bucket holding id, scanning from a random one; -1 if there is none. */
    method FindBucket(id: int, rnd: nat) returns (bucket: int)
      requires Shape() && id in mapInfo
      ensures bucket == -1 || (0 <= bucket < cfg.newBuckets && InBucket(cfg, Abs(), id, bucket))
      ensures bucket == -1 ==> !HasBucket(cfg, Abs(), id)
    {
      var start := rnd % cfg.newBuckets;
      var a := mapInfo[id].addr;
      for n := 0 to cfg.newBuckets
        invariant forall m | 0 <= m < n :: !InBucket(cfg, Abs(), id, Wrap(m, start, cfg.newBuckets))
      {
        var b := Wrap(n, start, cfg.newBuckets);
        var k := (b, cfg.BucketPosition(true, b, a));
        TabAt(vvNew, k);
        if vvNew[k.0, k.1] == id {
          return b;
        }
      }
      forall b | 0 <= b < cfg.newBuckets ensures !InBucket(cfg, Abs(), id, b) {
        var i := Rotation(cfg.newBuckets, start, b);
        assert !InBucket(cfg, Abs(), id, Wrap(i, start, cfg.newBuckets));
      }
      bucket := -1;
    }

    /** Look up the entry for exactly this address and port. */
    method Find(a: Service) returns (found: bool, id: int)
      ensures found <==> Found(Abs(), a)
      ensures found ==> id == mapAddr[a.ip]
    {
      found := a.ip in mapAddr && mapAddr[a.ip] in mapInfo && mapInfo[mapAddr[a.ip]].addr == a;
      id := if found then mapAddr[a.ip] else -1;
    }

    method MarkGoodAt(id: int, time: int)
      requires Shape() && id in mapInfo
      modifies this`mapInfo
      ensures Abs() == MarkGood(old(Abs()), id, time)
    {
      mapInfo := mapInfo[id := mapInfo[id].(nLastSuccess := time, nLastTry := time, nAttempts := 0)];
    }

    /** Last part of Good_: remember a collision, or move the entry. */
    method MoveOrCollide(id: int, a: Service, testBeforeEvict: bool)
      requires Shape() && cfg.TriedSlot(a) in Abs().vvTried
      requires !(testBeforeEvict && Abs().vvTried[cfg.TriedSlot(a)] != -1) ==>
                 CanMakeTried(cfg, Abs(), id) && Leavable(cfg, Abs(), id)
      modifies this, vvTried, vvNew
      ensures Abs() ==
              var s := old(Abs());
              if testBeforeEvict && s.vvTried[cfg.TriedSlot(a)] != -1 then
                if |s.collisions| < MAX_COLLISIONS then s.(collisions := s.collisions + {id}) else s
              else AddrOps.MakeTried(cfg, s, id)
    {
      var slot := cfg.TriedSlot(a);
      TabAt(vvTried, slot);
      if testBeforeEvict && vvTried[slot.0, slot.1] != -1 {
        if |triedCollisions| < MAX_COLLISIONS {
          triedCollisions := triedCollisions + {id};
        }
      } else {
        MakeTried(id);
      }
    }

    method GoodSteps(a: Service, testBeforeEvict: bool, time: int, rnd: nat)
      requires Shape() && GoodReady(cfg, Abs(), a, testBeforeEvict, time)
      modifies this, vvTried, vvNew
      ensures Abs() == Good(cfg, old(Abs()), a, testBeforeEvict, time)
    {
      nLastGood := time;
      var found, id := Find(a);
      if !found {
        return;
      }
      MarkGoodAt(id, time);
      if mapInfo[id].fInTried {
        return;
      }
      var bucket := FindBucket(id, rnd);
      assert bucket != -1;
      MoveOrCollide(id, a, testBeforeEvict);
    }

    /** Mark an entry good, possibly moving it from new to tried. */
    method Good_(a: Service, testBeforeEvict: bool, time: int, rnd: nat)
      requires Valid()
      modifies this, vvTried, vvNew
      ensures Valid()
      ensures CanGood(cfg, old(Abs()), a, testBeforeEvict, time)
              && Abs() == Good(cfg, old(Abs()), a, testBeforeEvict, time)
      ensures GoodEffect(cfg, old(Abs()), Abs(), a, testBeforeEvict, time)
      ensures GoodMoves(cfg, old(Abs()), a, testBeforeEvict) ==>
                CellsMoved(cfg, old(Abs()), Abs(), old(Abs()).mapAddr[a.ip])
    {
      GoodIsReady(cfg, Abs(), a, testBeforeEvict, time);
      GoodKeeps(cfg, Abs(), a, testBeforeEvict, time);
      GoodDoes(cfg, Abs(), a, testBeforeEvict, time);
      if GoodMoves(cfg, Abs(), a, testBeforeEvict) {
        GoodCells(cfg, Abs(), a, testBeforeEvict, time, mapAddr[a.ip], Good(cfg, Abs(), a, testBeforeEvict, time));
      }
      GoodSteps(a, testBeforeEvict, time, rnd);
    }

    // --------------------------------------------------------------------- Add_

    method PlaceAt(id: int, source: NetAddr, now: int)
      requires Shape() && CanPlace(cfg, Abs(), id, source, now)
      modifies this`mapInfo, this`mapAddr, this`vRandom, this`nNew, vvNew
      ensures Abs() == Place(cfg, old(Abs()), id, source, now)
    {
      var k := cfg.NewSlot(mapInfo[id].addr, source);
      TabAt(vvNew, k);
      if vvNew[k.0, k.1] != id {
        var insert := vvNew[k.0, k.1] == -1;
        if !insert {
          var existing := mapInfo[vvNew[k.0, k.1]];
          if IsTerrible(existing, now) || (existing.nRefCount > 1 && mapInfo[id].nRefCount == 0) {
            insert := true;
          }
        }
        assert insert == Takes(Abs(), k, id, now);
        if insert {
          ClearNew(k);
          Reference(id, k);
        } else if mapInfo[id].nRefCount == 0 {
          Delete(id);
        }
      }
    }

    method AddNew(a: Address, source: NetAddr, penalty: int) returns (id: int)
      requires Shape()
      modifies this`nIdCount, this`mapInfo, this`mapAddr, this`vRandom, this`nNew
      ensures id == old(nIdCount) && Abs() == Create(old(Abs()), a, source, penalty)
    {
      id := nIdCount;
      ghost var first := Info(a.svc, a.nServices, a.nTime, source, 0, 0, 0, 0, 0, false, -1);
      ghost var second := first.(nRandomPos := |vRandom|);
      SetTwice(mapInfo, id, first, second);
      SetTwice(mapInfo, id, second, second.(nTime := Max(0, a.nTime - penalty)));
      nIdCount := nIdCount + 1;
      mapInfo := mapInfo[id := Info(a.svc, a.nServices, a.nTime, source, 0, 0, 0, 0, 0, false, -1)];
      mapAddr := mapAddr[a.svc.ip := id];
      mapInfo := mapInfo[id := mapInfo[id].(nRandomPos := |vRandom|)];
      vRandom := vRandom + [id];
      mapInfo := mapInfo[id := mapInfo[id].(nTime := Max(0, mapInfo[id].nTime - penalty))];
      nNew := nNew + 1;
    }

    /** The stochastic test: 2^n, computed as the code does. */
    method Factor(n: int) returns (f: nat)
      requires 0 <= n
      ensures f == Pow2(n)
    {
      f := 1;
      for i := 0 to n
        invariant f == Pow2(i)
      {
        f := f * 2;
      }
    }

    method AddSteps(a: Address, source: NetAddr, penalty: int, now: int, rnd: nat) returns (fNew: bool)
      requires Shape() && CanAdd(cfg, Abs(), a, source, penalty, now, rnd)
      modifies this, vvNew
      ensures Abs() == Add(cfg, old(Abs()), a, source, penalty, now, rnd)
      ensures fNew <==> cfg.isRoutable(a.svc) && a.svc.ip !in old(mapAddr)
    {
      if !cfg.isRoutable(a.svc) {
        return false;
      }
      var p := if a.svc.ip == source then 0 else penalty;
      if a.svc.ip in mapAddr {
        var id := mapAddr[a.svc.ip];
        mapInfo := mapInfo[id := Refresh(mapInfo[id], a, p, now)];
        var info := mapInfo[id];
        fNew := false;
        if a.nTime == 0 || (info.nTime != 0 && a.nTime <= info.nTime) {
          return;
        }
        if info.fInTried || info.nRefCount == MAX_REFS {
          return;
        }
        var factor := 1;
        if info.nRefCount > 0 {
          factor := Factor(info.nRefCount);
        }
        if factor > 1 && rnd % factor != 0 {
          return;
        }
        assert TriesAgain(info, a, rnd);
        PlaceAt(id, source, now);
      } else {
        var id := AddNew(a, source, p);
        PlaceAt(id, source, now);
        fNew := true;
      }
    }

    /** Add an address to the new table. The result says that the address was unknown
        before; it may still have found its cell taken and been dropped again. */
    method Add_(a: Address, source: NetAddr, penalty: int, now: int, rnd: nat) returns (fNew: bool)
      requires Valid()
      modifies this, vvNew
      ensures Valid()
      ensures CanAdd(cfg, old(Abs()), a, source, penalty, now, rnd)
      ensures Abs() == Add(cfg, old(Abs()), a, source, penalty, now, rnd)
      ensures AddEffect(old(Abs()), Abs(), a.svc) && Announced(cfg, old(Abs()), Abs(), a, source, penalty, now, rnd)
      ensures fNew <==> cfg.isRoutable(a.svc) && a.svc.ip !in old(mapAddr)
    {
      AddKeeps(cfg, Abs(), a, source, penalty, now, rnd);
      AddDoes(cfg, Abs(), a, source, penalty, now, rnd);
      AddAnnounces(cfg, Abs(), a, source, penalty, now, rnd, Add(cfg, Abs(), a, source, penalty, now, rnd));
      fNew := AddSteps(a, source, penalty, now, rnd);
    }

    // --------------------------------------------------------------- statistics

    method AttemptSteps(a: Service, countFailure: bool, time: int)
      requires Shape()
      modifies this`mapInfo
      ensures Abs() == Attempt(old(Abs()), a, countFailure, time)
    {
      var found, id := Find(a);
      if found {
        mapInfo := mapInfo[id := mapInfo[id].(nLastTry := time)];
        if countFailure && mapInfo[id].nLastCountAttempt < nLastGood {
          mapInfo := mapInfo[id := mapInfo[id].(nLastCountAttempt := time, nAttempts := mapInfo[id].nAttempts + 1)];
        }
      }
    }

    method Attempt_(a: Service, countFailure: bool, time: int)
      requires Valid()
      modifies this`mapInfo
      ensures Valid() && Abs() == Attempt(old(Abs()), a, countFailure, time)
      ensures !AddrOps.Found(old(Abs()), a) ==> Abs() == old(Abs())
      ensures AddrOps.Found(old(Abs()), a) && time >= nLastGood ==>
                CountedOnce(old(Abs()), Abs(), old(Abs()).mapAddr[a.ip], [Try(countFailure, time)])
    {
      if AddrOps.Found(Abs(), a) && time >= nLastGood {
        AttemptsCountOnce(Abs(), a, [Try(countFailure, time)], Attempts(Abs(), a, [Try(countFailure, time)]));
      }
      StatisticsKeep(cfg, Abs(), a, countFailure, time, 0);
      AttemptSteps(a, countFailure, time);
    }

    method ConnectedSteps(a: Service, time: int)
      requires Shape()
      modifies this`mapInfo
      ensures Abs() == Connected(old(Abs()), a, time)
    {
      var found, id := Find(a);
      if found {
        if time - mapInfo[id].nTime > 20 * 60 {
          mapInfo := mapInfo[id := mapInfo[id].(nTime := time)];
        } else {
          assert mapInfo == mapInfo[id := mapInfo[id]];
        }
      }
    }

    method Connected_(a: Service, time: int)
      requires Valid()
      modifies this`mapInfo
      ensures Valid() && Abs() == Connected(old(Abs()), a, time)
      ensures AddrOps.Found(old(Abs()), a) ==> Seen(old(Abs()), Abs(), old(Abs()).mapAddr[a.ip], time)
    {
      if AddrOps.Found(Abs(), a) {
        ConnectedSeen(Abs(), a, time, Connected(Abs(), a, time));
      }
      StatisticsKeep(cfg, Abs(), a, false, time, 0);
      ConnectedSteps(a, time);
    }

    method SetServicesSteps(a: Service, services: bv64)
      requires Shape()
      modifies this`mapInfo
      ensures Abs() == SetServices(old(Abs()), a, services)
    {
      var found, id := Find(a);
      if found {
        mapInfo := mapInfo[id := mapInfo[id].(nServices := services)];
      }
    }

    method SetServices_(a: Service, services: bv64)
      requires Valid()
      modifies this`mapInfo
      ensures Valid() && Abs() == SetServices(old(Abs()), a, services)
    {
      StatisticsKeep(cfg, Abs(), a, false, 0, services);
      SetServicesSteps(a, services);
    }

    // --------------------------------------------------------------- collisions

    /** What ResolveCollisions_ does about one pending id. */
    method ResolveSteps(id: int, now: int, rnd: nat)
      requires Shape() && ResolveReady(cfg, Abs(), id, now)
      modifies this, vvTried, vvNew
      ensures Abs() == Resolve(cfg, old(Abs()), id, now)
    {
      var erase, replace := false, false;
      if id !in mapInfo {
        erase := true;
      } else {
        var slot := cfg.TriedSlot(mapInfo[id].addr);
        TabAt(vvTried, slot);
        if !cfg.isValid(mapInfo[id].addr) {
          erase := true;
        } else if vvTried[slot.0, slot.1] != -1 {
          var occupant := mapInfo[vvTried[slot.0, slot.1]];
          if now - occupant.nLastSuccess < REPLACEMENT_SECONDS {
            erase := true;
          } else if now - occupant.nLastTry < REPLACEMENT_SECONDS {
            if now - occupant.nLastTry > 60 {
              replace := true;
            }
          } else if now - mapInfo[id].nLastSuccess > TEST_WINDOW {
            replace := true;
          }
        } else {
          replace := true;
        }
      }
      assert Judge(cfg, Abs(), id, now) == if erase then Erase else if replace then Replace else Keep;
      if replace {
        GoodSteps(mapInfo[id].addr, false, now, rnd);
        erase := true;
      }
      if erase {
        triedCollisions := triedCollisions - {id};
      }
    }

    /** Resolve one pending collision from a consistent state. */
    method ResolveOne(id: int, now: int, rnd: nat)
      requires Valid()
      modifies this, vvTried, vvNew
      ensures Valid() && Abs() == ApplyResolve(cfg, old(Abs()), id, now)
    {
      ResolveIsReady(cfg, Abs(), id, now);
      ResolveKeeps(cfg, Abs(), id, now);
      ResolveSteps(id, now, rnd);
    }

    /** Go through all pending collisions; clock and random draws may differ each time. Each
        pending id gets its turn, once; ResolvesAll says what has become of it. */
    method ResolveCollisions_(now: int -> int, rnd: int -> nat) returns (ghost ids: seq<int>, ghost ss: seq<Db>)
      requires Valid()
      modifies this, vvTried, vvNew
      ensures Valid() && ResolveTrace(cfg, ss, ids, now) && ss[0] == old(Abs()) && ss[|ids|] == Abs()
      ensures Abs() == Run(cfg, old(Abs()), Rounds(ids, now)) && RoundsDo(cfg, ss, ids, now)
      ensures multiset(ids) == multiset(old(triedCollisions))
    {
      var rest := triedCollisions;
      ids, ss := [], [Abs()];
      while rest != {}
        invariant Valid() && ResolveTrace(cfg, ss, ids, now) && ss[0] == old(Abs()) && ss[|ids|] == Abs()
        invariant multiset(ids) + multiset(rest) == multiset(old(triedCollisions))
        decreases |rest|
      {
        var id := Smallest(rest);
        rest := rest - {id};
        ghost var r := ApplyResolve(cfg, Abs(), id, now(id));
        ResolveOn(cfg, ss, ids, now, id, r);
        ResolveOne(id, now(id), rnd(id));
        ids, ss := ids + [id], ss + [r];
      }
      TraceAll(cfg, ss, ids, now, Abs());
    }

    /** The tried entry that the pending collision `id` would evict. */
    method SelectTriedCollision_(id: int) returns (r: Option<Info>)
      requires Valid() && (triedCollisions != {} ==> id in triedCollisions)
      modifies this`triedCollisions
      ensures Valid()
      ensures r.None? <==> old(triedCollisions) == {} || id !in mapInfo
      ensures r.None? ==> triedCollisions == old(triedCollisions) - {id}
      ensures r.Some? ==>
                && triedCollisions == old(triedCollisions)
                && Abs().vvTried[cfg.TriedSlot(mapInfo[id].addr)] in mapInfo
                && r.value == mapInfo[Abs().vvTried[cfg.TriedSlot(mapInfo[id].addr)]]
                && r.value.fInTried && cfg.TriedSlot(r.value.addr) == cfg.TriedSlot(mapInfo[id].addr)
    {
      if triedCollisions == {} {
        return None;
      }
      if id !in mapInfo {
        FewerCollisions(cfg, Abs(), id);
        triedCollisions := triedCollisions - {id};
        return None;
      }
      CollisionSlotOccupied(cfg, Abs(), id);
      var slot := cfg.TriedSlot(mapInfo[id].addr);
      TabAt(vvTried, slot);
      return Some(mapInfo[vvTried[slot.0, slot.1]]);
    }

    // ----------------------------------------------------------------- GetAddr_

    method Shuffle(n: int, j: int)
      requires Valid() && 0 <= n <= j < |vRandom|
      modifies this`mapInfo, this`vRandom
      ensures Valid() && Abs() == AddrTables.SwapRandom(old(Abs()), n, j)
      ensures Abs() == Apply(cfg, old(Abs()), OpShuffle(n, j))
    {
      ShuffleIs(cfg, Abs(), n, j);
      SwapKeeps(cfg, Abs(), n, j);
      SwapRandom(n, j);
    }

    /** One round of GetAddr_: bring a random entry to position n and list it if it
        is any good. */
    method Gather(n: int, j: int, now: int, vAddr: seq<Info>, ghost at: seq<int>, ghost s0: Db, ghost ops: seq<Op>)
      returns (out: seq<Info>, ghost to: seq<int>)
      requires Valid() && 0 <= n <= j < |vRandom| && Gathering(cfg, s0, ops, Abs(), n, vAddr, at, now)
      modifies this`mapInfo, this`vRandom
      ensures Valid() && |vRandom| == old(|vRandom|) && |out| <= |vAddr| + 1
      ensures Gathering(cfg, s0, ops + [OpShuffle(n, j)], Abs(), n + 1, out, to, now)
    {
      ghost var s := Abs();
      Shuffle(n, j);
      assert |vRandom| == |s.vRandom| && vRandom[n] in mapInfo;
      var ai := mapInfo[vRandom[n]];
      TerribleIff(ai, now);
      if IsTerrible(ai, now) {
        out, to := vAddr, at;
      } else {
        out, to := vAddr + [ai], at + [n];
      }
      GatheredTurn(s, n, j, Abs(), vAddr, at, now, out, to);
      GatheringNext(cfg, s0, ops, s, n, j, Abs(), vAddr, at, now, out, to);
    }

    /** A random selection of known addresses, 23% of them but at most 2500: pairwise distinct,
        none terrible, and all there are if fewer. It is a run of shuffles, so just the order of
        vRandom changes. */
    method GetAddr_(now: int, rnd: int -> nat) returns (vAddr: seq<Info>, ghost ops: seq<Op>)
      requires Valid()
      modifies this`mapInfo, this`vRandom
      ensures Valid() && AllShuffles(ops) && Abs() == Run(cfg, old(Abs()), ops) && Reordered(old(Abs()), Abs())
      ensures |vAddr| <= Wanted(|vRandom|) && Listed(Abs(), vAddr, now)
      ensures |vAddr| < Wanted(|vRandom|) ==> Complete(Abs(), vAddr, now)
    {
      var nNodes := GETADDR_MAX_PCT * |vRandom| / 100;
      if nNodes > GETADDR_MAX {
        nNodes := GETADDR_MAX;
      }
      vAddr, ops := [], [];
      ghost var at: seq<int> := [];
      ghost var s0 := Abs();
      GatheringStart(cfg, s0, now);
      var n := 0;
      while n < |vRandom| && |vAddr| < nNodes
        invariant Valid() && 0 <= n <= |vRandom| == old(|vRandom|) && |vAddr| <= nNodes
        invariant Gathering(cfg, s0, ops, Abs(), n, vAddr, at, now)
        decreases |vRandom| - n
      {
        var j := rnd(n) % (|vRandom| - n) + n;
        vAddr, at := Gather(n, j, now, vAddr, at, s0, ops);
        ops := ops + [OpShuffle(n, j)];
        n := n + 1;
      }
      GatheredAll(cfg, s0, ops, Abs(), n, vAddr, at, now);
    }
  }
}
