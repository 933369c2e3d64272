/** How long an element stays. An epoch change makes recent elements old and old ones
    discardable; an element stays live through one change and is given up at the second,
    unless it is marked or dropped before. */
module CuckooEpochs {
  import opened Basics
  import opened CuckooTables
  import opened CuckooCopies

  /** e is live, and recent or old as asked. */
  ghost predicate Has<E(!new)>(t: seq<Slot<E>>, e: E, recent: bool) {
    exists i | 0 <= i < |t| :: t[i] == Slot(e, false, recent)
  }

  ghost predicate Lives<E(!new)>(t: seq<Slot<E>>, e: E) { Has(t, e, true) || Has(t, e, false) }

  lemma {:induction false} LivesIff<E(!new)>(t: seq<Slot<E>>, e: E)
    ensures Lives(t, e) <==> e in Live(t)
  {
    if Has(t, e, true) {
      var i :| 0 <= i < |t| && t[i] == Slot(e, false, true);
      LiveAt(t, i);
    }
    if Has(t, e, false) {
      var i :| 0 <= i < |t| && t[i] == Slot(e, false, false);
      LiveAt(t, i);
    }
    if e in Live(t) {
      var i := LiveSomewhere(t, e);
      assert t[i] == Slot(e, false, t[i].recent);
    }
  }

  // ----------------------------------------------------------- an epoch change

  /** The check ages the table exactly when its counter has run out and the current epoch is
      full. Recent elements are then old, old ones gone; otherwise nothing changes. */
  ghost predicate Ages<E(!new)>(p: Epoch<E>, epochSize: nat) { p.counter == 0 && Recent(p.table) >= epochSize }

  lemma {:induction false} CheckKeeps<E(!new)>(p: Epoch<E>, epochSize: nat, i: nat)
    requires i < |p.table|
    ensures var t, r := p.table, EpochCheck(p.table, p.counter, epochSize).table;
            && |r| == |t| && r[i].elem == t[i].elem
            && if Ages(p, epochSize)
               then r[i].discard == (t[i].discard || !t[i].recent) && !r[i].recent
               else r[i] == t[i]
  {
  }

  /** The next check comes after an epoch's worth of insertions if the table was aged, and
      otherwise when the current epoch may be full, but not before a sixteenth of it. */
  lemma {:induction false} CheckCounts<E(!new)>(p: Epoch<E>, epochSize: nat)
    ensures var c := EpochCheck(p.table, p.counter, epochSize).counter;
            if p.counter > 0 then c == p.counter - 1
            else if Ages(p, epochSize) then c == epochSize
            else
              && c >= 1 && c >= epochSize / 16 && c + Recent(p.table) >= epochSize
              && (c == 1 || c == epochSize / 16 || c + Recent(p.table) == epochSize)
  {
  }

  lemma {:induction false} CheckHas<E(!new)>(p: Epoch<E>, epochSize: nat, e: E, recent: bool)
    requires Has(p.table, e, recent) && (Ages(p, epochSize) ==> recent)
    ensures Has(EpochCheck(p.table, p.counter, epochSize).table, e, recent && !Ages(p, epochSize))
  {
    var i :| 0 <= i < |p.table| && p.table[i] == Slot(e, false, recent);
    CheckKeeps(p, epochSize, i);
    var r := EpochCheck(p.table, p.counter, epochSize).table;
    assert r[i] == Slot(e, false, recent && !Ages(p, epochSize));
  }

  // ----------------------------------------------------------------- insertion

  ghost predicate HasOrHolds<E(!new)>(u: Hand<E>, e: E, recent: bool) {
    Has(u.table, e, recent) || (u.Holding? && u.e == e && u.recent == recent)
  }

  lemma {:induction false} NextHas<E(!new)>(u: Hand<E>, h: E -> Ways, e: E, recent: bool)
    requires Hashing(h, |u.table|) && HasOrHolds(u, e, recent)
    ensures HasOrHolds(Next(u, h), e, recent)
  {
    if u.Holding? {
      var t, locs := u.table, h(u.e);
      var k := FindFree(t, locs, 0);
      FindFreeIs(t, locs, 0, k);
      var v := Next(u, h);
      var l := if k < WAYS then locs[k] else locs[NextWay(locs, u.last)];
      if u.e == e && u.recent == recent {
        assert v.table[l].elem == e && v.table[l].recent == recent && !v.table[l].discard;
        assert v.table[l] == Slot(e, false, recent);
      } else {
        var i :| 0 <= i < |t| && t[i] == Slot(e, false, recent);
        if i != l {
          assert v.table[i] == t[i];
        }
      }
    }
  }

  lemma {:induction false} DisplaceHas<E(!new)>(u: Hand<E>, h: E -> Ways, depth: nat, e: E, recent: bool)
    requires Hashing(h, |u.table|) && HasOrHolds(u, e, recent)
    ensures HasOrHolds(Displace(u, h, depth), e, recent)
  {
    if depth > 0 {
      DisplaceHas(u, h, depth - 1, e, recent);
      NextHas(Displace(u, h, depth - 1), h, e, recent);
    }
  }

  /** Insertion keeps every live element as recent as it was, but for the one dropped; the
      inserted one is recent. */
  lemma {:induction false} InsertHas<E(!new)>(t: seq<Slot<E>>, h: E -> Ways, x: E, depth: nat, e: E, recent: bool,
      r: Hand<E>)
    requires Hashing(h, |t|) && r == Insert(t, h, x, depth) && (Has(t, e, recent) || (e == x && recent))
    ensures HasOrHolds(r, e, recent) || (e == x && HasOrHolds(r, e, true))
  {
    var k := FindSame(t, h(x), x, 0);
    FindSameIs(t, h(x), x, 0, k);
    if k < WAYS {
      var l := h(x)[k];
      assert r.table[l] == Slot(x, false, true);
      if e != x {
        var i :| 0 <= i < |t| && t[i] == Slot(e, false, recent);
        assert r.table[i] == t[i];
      }
    } else {
      DisplaceHas(Holding(t, x, true, -1), h, depth, e, recent);
    }
  }

  // ------------------------------------------------------------ what survives

  /** The live elements of the current epoch. */
  function RecentOnes<E(==)>(t: seq<Slot<E>>): multiset<E> {
    if t == [] then multiset{}
    else
      var s := t[|t| - 1];
      RecentOnes(t[..|t| - 1]) + if !s.discard && s.recent then multiset{s.elem} else multiset{}
  }

  /** What is live once the epoch has been checked. */
  ghost function Surviving<E(!new)>(p: Epoch<E>, epochSize: nat): multiset<E> {
    if Ages(p, epochSize) then RecentOnes(p.table) else Live(p.table)
  }

  lemma {:induction false} AgedLive<E(!new)>(t: seq<Slot<E>>, r: seq<Slot<E>>)
    requires |r| == |t|
    requires forall i | 0 <= i < |t| :: r[i].elem == t[i].elem && r[i].discard == (t[i].discard || !t[i].recent)
    ensures Live(r) == RecentOnes(t)
    decreases |t|
  {
    if t != [] {
      AgedLive(t[..|t| - 1], r[..|t| - 1]);
    }
  }

  lemma {:induction false} CheckLive<E(!new)>(p: Epoch<E>, epochSize: nat)
    ensures Live(EpochCheck(p.table, p.counter, epochSize).table) == Surviving(p, epochSize)
  {
    var r := EpochCheck(p.table, p.counter, epochSize).table;
    if Ages(p, epochSize) {
      forall i | 0 <= i < |p.table|
        ensures r[i].elem == p.table[i].elem && r[i].discard == (p.table[i].discard || !p.table[i].recent)
      {
        CheckKeeps(p, epochSize, i);
      }
      AgedLive(p.table, r);
    }
  }

  /** The element an insertion drops, if any. */
  ghost function DroppedBy<E(!new)>(p: Epoch<E>, epochSize: nat, h: E -> Ways, depth: nat, e: E): Option<E>
    requires Hashing(h, |p.table|)
  {
    var r := Insert(EpochCheck(p.table, p.counter, epochSize).table, h, e, depth);
    if r.Holding? then Some(r.e) else None
  }

  ghost function OneOf<E(!new)>(o: Option<E>): multiset<E> { if o.Some? then multiset{o.value} else multiset{} }

  /** What survives the epoch check stays as recent as it was unless the epoch changed. */
  ghost predicate Stay<E(!new)>(p: Epoch<E>, epochSize: nat, e: E, dropped: Option<E>, t: seq<Slot<E>>) {
    forall x, recent | Has(p.table, x, recent) && (Ages(p, epochSize) ==> recent) && x != e && dropped != Some(x) ::
      Has(t, x, recent && !Ages(p, epochSize))
  }

  /** What inserting e does to the table, in terms of the table as it was: e is there and
      recent, what survives the epoch check stays, and at most one element is dropped. */
  ghost predicate PutKeeps<E(!new)>(p: Epoch<E>, epochSize: nat, e: E, blank: E, dropped: Option<E>, t: seq<Slot<E>>) {
    && |t| == |p.table| && (dropped != Some(e) ==> Has(t, e, true)) && Stay(p, epochSize, e, dropped, t)
    && (e != blank ==>
          Live(t) + OneOf(dropped) ==
          if e in Surviving(p, epochSize) then Surviving(p, epochSize) else Surviving(p, epochSize) + multiset{e})
  }

  lemma {:induction false} PutHas<E(!new)>(p: Epoch<E>, epochSize: nat, h: E -> Ways, depth: nat, e: E, x: E,
      recent: bool, r: Hand<E>)
    requires Hashing(h, |p.table|) && r == Insert(EpochCheck(p.table, p.counter, epochSize).table, h, e, depth)
    requires Has(p.table, x, recent) && (Ages(p, epochSize) ==> recent) && x != e && !(r.Holding? && r.e == x)
    ensures Has(r.table, x, recent && !Ages(p, epochSize))
  {
    var c := EpochCheck(p.table, p.counter, epochSize);
    CheckHas(p, epochSize, x, recent);
    InsertHas(c.table, h, e, depth, x, recent && !Ages(p, epochSize), r);
  }

  lemma {:induction false} PutSurvivors<E(!new)>(p: Epoch<E>, epochSize: nat, h: E -> Ways, depth: nat, e: E, blank: E,
      c: Epoch<E>, r: Hand<E>)
    requires Hashing(h, |p.table|) && AtHome(p.table, h) && Sole(p.table, h, blank) && e != blank
    requires c == EpochCheck(p.table, p.counter, epochSize) && |c.table| == |p.table|
             && r == Insert(c.table, h, e, depth)
    ensures Kept(r) == if e in Surviving(p, epochSize) then Surviving(p, epochSize)
                       else Surviving(p, epochSize) + multiset{e}
  {
    CheckLive(p, epochSize);
    EpochHome(p.table, p.counter, epochSize, h);
    forall i | 0 <= i < |p.table| ensures c.table[i].elem == p.table[i].elem {
      CheckKeeps(p, epochSize, i);
    }
    FlagsSole(p.table, c.table, h, blank, set i | 0 <= i < |p.table| :: p.table[i].elem);
    InsertLive(c.table, h, e, depth, blank, r);
  }

  lemma {:induction false} PutStay<E(!new)>(p: Epoch<E>, epochSize: nat, h: E -> Ways, depth: nat, e: E, r: Hand<E>,
      dropped: Option<E>)
    requires Hashing(h, |p.table|) && r == Insert(EpochCheck(p.table, p.counter, epochSize).table, h, e, depth)
    requires dropped == if r.Holding? then Some(r.e) else None
    ensures Stay(p, epochSize, e, dropped, r.table)
  {
    forall x, recent | Has(p.table, x, recent) && (Ages(p, epochSize) ==> recent) && x != e && dropped != Some(x)
      ensures Has(r.table, x, recent && !Ages(p, epochSize))
    {
      PutHas(p, epochSize, h, depth, e, x, recent, r);
    }
  }

  lemma {:induction false} KeptIs<E(!new)>(r: Hand<E>, dropped: Option<E>)
    requires dropped == if r.Holding? then Some(r.e) else None
    ensures Kept(r) == Live(r.table) + OneOf(dropped)
  {
  }

  lemma {:induction false} PutKeepsIt<E(!new)>(p: Epoch<E>, epochSize: nat, h: E -> Ways, depth: nat, e: E, blank: E,
      c: Epoch<E>, r: Hand<E>, dropped: Option<E>)
    requires Hashing(h, |p.table|) && AtHome(p.table, h) && Sole(p.table, h, blank)
    requires c == EpochCheck(p.table, p.counter, epochSize) && |c.table| == |p.table|
             && r == Insert(c.table, h, e, depth)
    requires dropped == if r.Holding? then Some(r.e) else None
    ensures PutKeeps(p, epochSize, e, blank, dropped, r.table)
  {
    InsertConserves(c.table, h, e, depth, r);
    InsertHas(c.table, h, e, depth, e, true, r);
    PutStay(p, epochSize, h, depth, e, r, dropped);
    KeptIs(r, dropped);
    if e != blank {
      PutSurvivors(p, epochSize, h, depth, e, blank, c, r);
    }
  }

  // ------------------------------------------------------------ when one is dropped

  /** None of the slots of the element in hand is free; it takes over one, and the element
      there is in hand next. */
  ghost predicate PushesOut<E(!new)>(u: Hand<E>, v: Hand<E>, h: E -> Ways) {
    && u.Holding? && v.Holding? && Hashing(h, |u.table|)
    && (forall k | 0 <= k < WAYS :: !u.table[h(u.e)[k]].discard)
    && exists k | 0 <= k < WAYS :: PushedTo(u, v, h(u.e)[k])
  }

  ghost predicate PushedTo<E(!new)>(u: Hand<E>, v: Hand<E>, l: nat)
    requires u.Holding? && v.Holding?
  {
    l < |u.table| && v.table == u.table[l := Slot(u.e, false, u.recent)]
    && v.e == u.table[l].elem && v.recent == u.table[l].recent
  }

  /** As many elements in turn as the depth allows push each other out, from e on. */
  ghost predicate Pushes<E(!new)>(us: seq<Hand<E>>, h: E -> Ways, t: seq<Slot<E>>, e: E, depth: nat) {
    |us| == depth + 1 && us[0] == Holding(t, e, true, -1) && forall i: nat | i < depth :: PushesOut(us[i], us[i + 1], h)
  }

  lemma {:induction false} TurnPushes<E(!new)>(u: Hand<E>, h: E -> Ways, v: Hand<E>)
    requires u.Holding? && Hashing(h, |u.table|) && v == Turn(u, h) && v.Holding?
    ensures PushesOut(u, v, h)
  {
    var locs := h(u.e);
    FindFreeIs(u.table, locs, 0, FindFree(u.table, locs, 0));
    var l := locs[NextWay(locs, u.last)];
    assert !u.table[l].discard;
    assert PushedTo(u, v, l);
  }

  lemma {:induction false} LastPush<E(!new)>(u: Hand<E>, h: E -> Ways, d: nat, w: Hand<E>, r: Hand<E>)
    requires Hashing(h, |u.table|) && d > 0 && w == Displace(u, h, d - 1) && r == Displace(u, h, d) && r.Holding?
    ensures w.Holding? && PushesOut(w, r, h)
  {
    TurnPushes(w, h, r);
  }

  lemma {:induction false} StillHolding<E(!new)>(u: Hand<E>, h: E -> Ways, i: nat, depth: nat)
    requires Hashing(h, |u.table|) && i <= depth && Displace(u, h, depth).Holding?
    ensures Displace(u, h, i).Holding?
  {
    if Displace(u, h, i).Placed? {
      PlacedStays(u, h, i, depth, Displace(u, h, i));
    }
  }

  lemma {:induction false} HandsPush<E(!new)>(u: Hand<E>, h: E -> Ways, depth: nat, us: seq<Hand<E>>, i: nat)
    requires Hashing(h, |u.table|) && us == Hands(u, h, depth) && Displace(u, h, depth).Holding? && i < depth
    ensures PushesOut(us[i], us[i + 1], h)
  {
    StillHolding(u, h, i + 1, depth);
    LastPush(u, h, i + 1, us[i], us[i + 1]);
  }

  lemma {:induction false} DisplacePushes<E(!new)>(h: E -> Ways, t: seq<Slot<E>>, e: E, depth: nat, r: Hand<E>)
    returns (us: seq<Hand<E>>)
    requires Hashing(h, |t|) && r == Displace(Holding(t, e, true, -1), h, depth) && r.Holding?
    ensures Pushes(us, h, t, e, depth) && us[depth] == r
  {
    var u := Holding(t, e, true, -1);
    us := Hands(u, h, depth);
    forall i: nat | i < depth ensures PushesOut(us[i], us[i + 1], h) {
      HandsPush(u, h, depth, us, i);
    }
  }

  /** An element is dropped only where no slot was free, and only by the last push allowed. */
  ghost predicate DropsLate<E(!new)>(t: seq<Slot<E>>, h: E -> Ways, e: E, depth: nat, dropped: Option<E>) {
    dropped.Some? ==>
      exists us: seq<Hand<E>> :: Pushes(us, h, t, e, depth) && us[depth].Holding? && us[depth].e == dropped.value
  }

  lemma {:induction false} InsertDropsLate<E(!new)>(t: seq<Slot<E>>, h: E -> Ways, e: E, depth: nat, r: Hand<E>,
      dropped: Option<E>)
    requires Hashing(h, |t|) && r == Insert(t, h, e, depth) && dropped == if r.Holding? then Some(r.e) else None
    ensures DropsLate(t, h, e, depth, dropped)
  {
    if r.Holding? {
      var us := DisplacePushes(h, t, e, depth, r);
    }
  }

  /** The step Put of the table, what it keeps and what it drops, and the bound on the epoch. */
  ghost predicate Inserted<E(!new)>(p: Epoch<E>, epochSize: nat, h: E -> Ways, depth: nat, e: E, blank: E,
      dropped: Option<E>, q: Epoch<E>)
    requires Hashing(h, |p.table|)
  {
    && q == Step(p, epochSize, h, depth, Put(e)) && PutKeeps(p, epochSize, e, blank, dropped, q.table)
    && Recent(q.table) <= epochSize + Max(1, epochSize / 16)
    && DropsLate(EpochCheck(p.table, p.counter, epochSize).table, h, e, depth, dropped)
  }

  /** All that an insertion keeps. */
  lemma {:induction false} PutAll<E(!new)>(p: Epoch<E>, epochSize: nat, h: E -> Ways, depth: nat, e: E, blank: E,
      known: set<E>, c: Epoch<E>, q: Epoch<E>) returns (dropped: Option<E>)
    requires c == EpochCheck(p.table, p.counter, epochSize)
    requires Good(p, epochSize, h) && Sound(p, h, blank, known) && q == Step(p, epochSize, h, depth, Put(e))
    ensures Good(q, epochSize, h) && Sound(q, h, blank, known + {e})
    ensures Inserted(p, epochSize, h, depth, e, blank, dropped, q)
    ensures |c.table| == |p.table| && q == Epoch(Insert(c.table, h, e, depth).table, c.counter)
  {
    PutSound(p, epochSize, h, depth, e, blank, known, c, q);
    var r := Insert(c.table, h, e, depth);
    dropped := if r.Holding? then Some(r.e) else None;
    PutKeepsIt(p, epochSize, h, depth, e, blank, c, r, dropped);
    InsertDropsLate(c.table, h, e, depth, r, dropped);
  }

  // ------------------------------------------------------------------ whole runs

  /** Step k neither marks e nor drops it. */
  ghost predicate Spares<E(!new)>(p: Epoch<E>, epochSize: nat, h: E -> Ways, depth: nat, ev: Event<E>, e: E)
    requires Hashing(h, |p.table|)
  {
    match ev
    case Put(x) => DroppedBy(p, epochSize, h, depth, x) != Some(e)
    case Look(x, erase) => !(x == e && erase)
  }

  ghost predicate AgesIn<E(!new)>(p: Epoch<E>, epochSize: nat, ev: Event<E>) { ev.Put? && Ages(p, epochSize) }

  lemma {:induction false} StepHas<E(!new)>(p: Epoch<E>, epochSize: nat, h: E -> Ways, depth: nat, ev: Event<E>, e: E,
      recent: bool, q: Epoch<E>)
    requires Hashing(h, |p.table|) && q == Step(p, epochSize, h, depth, ev) && Spares(p, epochSize, h, depth, ev, e)
    requires Has(p.table, e, recent) && (AgesIn(p, epochSize, ev) ==> recent)
    ensures Has(q.table, e, true) || Has(q.table, e, recent && !AgesIn(p, epochSize, ev))
  {
    match ev {
      case Put(x) =>
        var c := EpochCheck(p.table, p.counter, epochSize);
        CheckHas(p, epochSize, e, recent);
        InsertHas(c.table, h, x, depth, e, recent && !Ages(p, epochSize), Insert(c.table, h, x, depth));
      case Look(x, erase) =>
        var i :| 0 <= i < |p.table| && p.table[i] == Slot(e, false, recent);
        FindSameIs(p.table, h(x), x, 0, FindSame(p.table, h(x), x, 0));
        assert q.table[i] == p.table[i];
    }
  }

  /** A run, with e neither marked nor dropped from step i on. */
  ghost predicate Quiet<E(!new)>(ps: seq<Epoch<E>>, epochSize: nat, h: E -> Ways, depth: nat, evs: seq<Event<E>>, e: E,
      i: nat, j: nat)
    requires RunsTo(ps, epochSize, h, depth, evs) && j <= |evs|
  {
    forall k | i <= k < j :: Spares(ps[k], epochSize, h, depth, evs[k], e)
  }

  /** Whether the epoch changes at step k. */
  ghost predicate Changes<E(!new)>(ps: seq<Epoch<E>>, epochSize: nat, evs: seq<Event<E>>, k: nat)
    requires k < |ps| && k < |evs|
  {
    AgesIn(ps[k], epochSize, evs[k])
  }

  ghost predicate ChangedIn<E(!new)>(ps: seq<Epoch<E>>, epochSize: nat, evs: seq<Event<E>>, i: nat, j: nat)
    requires |ps| == |evs| + 1 && j <= |evs|
  {
    exists k: nat | i <= k < j :: Changes(ps, epochSize, evs, k)
  }

  /** A recent element stays live as long as the epoch has not changed twice. */
  lemma {:induction false} StaysOneChange<E(!new)>(ps: seq<Epoch<E>>, epochSize: nat, h: E -> Ways, depth: nat,
      evs: seq<Event<E>>, e: E, i: nat, j: nat)
    requires RunsTo(ps, epochSize, h, depth, evs) && i <= j <= |evs| && Quiet(ps, epochSize, h, depth, evs, e, i, j)
    requires Has(ps[i].table, e, true)
    requires forall a: nat, b: nat | i <= a < b < j ::
             !(Changes(ps, epochSize, evs, a) && Changes(ps, epochSize, evs, b))
    ensures Has(ps[j].table, e, true) || (Has(ps[j].table, e, false) && ChangedIn(ps, epochSize, evs, i, j))
    decreases j
  {
    if i < j {
      StaysOneChange(ps, epochSize, h, depth, evs, e, i, j - 1);
      var k := j - 1;
      assert Spares(ps[k], epochSize, h, depth, evs[k], e);
      var recent := Has(ps[k].table, e, true);
      if !recent {
        var a: nat :| i <= a < k && Changes(ps, epochSize, evs, a);
        assert !Changes(ps, epochSize, evs, k);
        assert i <= a < j && Changes(ps, epochSize, evs, a);
      }
      StepHas(ps[k], epochSize, h, depth, evs[k], e, recent, ps[j]);
      if recent && Changes(ps, epochSize, evs, k) {
        assert i <= k < j && Changes(ps, epochSize, evs, k);
      }
    }
  }

  /** How many insertions there are from step i to step j. */
  function Puts<E>(evs: seq<Event<E>>, i: nat, j: nat): nat
    requires i <= j <= |evs|
    decreases j
  {
    if i == j then 0 else Puts(evs, i, j - 1) + if evs[j - 1].Put? then 1 else 0
  }

  lemma {:induction false} PutsSplit<E>(evs: seq<Event<E>>, i: nat, m: nat, j: nat)
    requires i <= m <= j <= |evs|
    ensures Puts(evs, i, j) == Puts(evs, i, m) + Puts(evs, m, j)
    decreases j
  {
    if m < j {
      PutsSplit(evs, i, m, j - 1);
    }
  }

  lemma {:induction false} StepCounts<E(!new)>(p: Epoch<E>, epochSize: nat, h: E -> Ways, depth: nat, ev: Event<E>,
      q: Epoch<E>)
    requires Hashing(h, |p.table|) && q == Step(p, epochSize, h, depth, ev)
    ensures q.counter + (if ev.Put? then 1 else 0) >= p.counter
    ensures AgesIn(p, epochSize, ev) ==> q.counter == epochSize
  {
    CheckCounts(p, epochSize);
  }

  /** From a change at step a on, the counter and the insertions make up a whole epoch. */
  lemma {:induction false} CounterRuns<E(!new)>(ps: seq<Epoch<E>>, epochSize: nat, h: E -> Ways, depth: nat,
      evs: seq<Event<E>>, a: nat, k: nat)
    requires RunsTo(ps, epochSize, h, depth, evs) && a < k <= |evs| && Changes(ps, epochSize, evs, a)
    ensures ps[k].counter + Puts(evs, a + 1, k) >= epochSize
    decreases k
  {
    StepCounts(ps[k - 1], epochSize, h, depth, evs[k - 1], ps[k]);
    if k > a + 1 {
      CounterRuns(ps, epochSize, h, depth, evs, a, k - 1);
    }
  }

  /** Between two changes of the epoch there is a whole epoch's worth of insertions. */
  lemma {:induction false} ChangesApart<E(!new)>(ps: seq<Epoch<E>>, epochSize: nat, h: E -> Ways, depth: nat,
      evs: seq<Event<E>>, a: nat, b: nat)
    requires RunsTo(ps, epochSize, h, depth, evs) && a < b < |evs|
    requires Changes(ps, epochSize, evs, a) && Changes(ps, epochSize, evs, b)
    ensures Puts(evs, a + 1, b) >= epochSize
  {
    CounterRuns(ps, epochSize, h, depth, evs, a, b);
  }

  lemma {:induction false} PutsBetween<E>(evs: seq<Event<E>>, i: nat, a: nat, b: nat, j: nat)
    requires i <= a < b < j <= |evs| && evs[a].Put? && evs[b].Put?
    ensures Puts(evs, i, j) >= Puts(evs, a + 1, b) + 2
  {
    PutsSplit(evs, i, a, j);
    PutsSplit(evs, a, a + 1, j);
    PutsSplit(evs, a + 1, b, j);
    PutsSplit(evs, b, b + 1, j);
    PutsOne(evs, a);
    PutsOne(evs, b);
  }

  lemma {:induction false} PutsOne<E>(evs: seq<Event<E>>, a: nat)
    requires a < |evs| && evs[a].Put?
    ensures Puts(evs, a, a + 1) == 1
  {
    assert Puts(evs, a, a) == 0;
  }

  lemma {:induction false} AtMostOneChange<E(!new)>(ps: seq<Epoch<E>>, epochSize: nat, h: E -> Ways, depth: nat,
      evs: seq<Event<E>>, i: nat, j: nat, a: nat, b: nat)
    requires RunsTo(ps, epochSize, h, depth, evs) && i <= a < b < j <= |evs| && Puts(evs, i, j) <= epochSize + 1
    ensures !(Changes(ps, epochSize, evs, a) && Changes(ps, epochSize, evs, b))
  {
    if Changes(ps, epochSize, evs, a) && Changes(ps, epochSize, evs, b) {
      ChangesApart(ps, epochSize, h, depth, evs, a, b);
      PutsBetween(evs, i, a, b, j);
    }
  }

  /** An element that was inserted stays live, and is found, through the next epoch's worth of
      insertions, unless it is marked or dropped. */
  lemma {:induction false} StaysAnEpoch<E(!new)>(ps: seq<Epoch<E>>, epochSize: nat, h: E -> Ways, depth: nat,
      evs: seq<Event<E>>, e: E, i: nat, j: nat)
    requires RunsTo(ps, epochSize, h, depth, evs) && Good(ps[0], epochSize, h) && i < j <= |evs| && evs[i] == Put(e)
    requires Quiet(ps, epochSize, h, depth, evs, e, i, j) && Puts(evs, i + 1, j) <= epochSize + 1
    ensures e in Live(ps[j].table) && FindSame(ps[j].table, h(e), e, 0) < WAYS
  {
    assert Spares(ps[i], epochSize, h, depth, evs[i], e);
    var c := EpochCheck(ps[i].table, ps[i].counter, epochSize);
    InsertHas(c.table, h, e, depth, e, true, Insert(c.table, h, e, depth));
    forall a: nat, b: nat | i + 1 <= a < b < j
      ensures !(Changes(ps, epochSize, evs, a) && Changes(ps, epochSize, evs, b))
    {
      AtMostOneChange(ps, epochSize, h, depth, evs, i + 1, j, a, b);
    }
    StaysOneChange(ps, epochSize, h, depth, evs, e, i + 1, j);
    LivesIff(ps[j].table, e);
    RunGood(ps, epochSize, h, depth, evs, j);
  }

  /** At the second change it is given up: what is live then is recent or was inserted. */
  lemma {:induction false} OldIsGivenUp<E(!new)>(p: Epoch<E>, epochSize: nat, h: E -> Ways, e: E)
    requires Ages(p, epochSize) && e in Live(EpochCheck(p.table, p.counter, epochSize).table)
    ensures Has(p.table, e, true)
  {
    var r := EpochCheck(p.table, p.counter, epochSize).table;
    var i := LiveSomewhere(r, e);
    CheckKeeps(p, epochSize, i);
    assert p.table[i] == Slot(e, false, true);
  }
}
