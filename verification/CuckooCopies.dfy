/** No element is kept twice, and only what was inserted is ever found. The one exception
    is the blank element that fills a table when it is set up. */
module CuckooCopies {
  import opened Basics
  import opened CuckooTables

  /** Apart from blanks, elements are in their own slots and no two slots hold the same. */
  ghost predicate Sole<E(!new)>(t: seq<Slot<E>>, h: E -> Ways, blank: E) {
    && (forall i | 0 <= i < |t| && t[i].elem != blank :: i in h(t[i].elem))
    && (forall i, j | 0 <= i < j < |t| && t[i].elem == t[j].elem :: t[i].elem == blank)
  }

  predicate Holds<E(==)>(t: seq<Slot<E>>, e: E) { exists i | 0 <= i < |t| :: t[i].elem == e }

  /** The element in hand is in no slot. */
  ghost predicate SoleHand<E(!new)>(u: Hand<E>, h: E -> Ways, blank: E) {
    Sole(u.table, h, blank) && (u.Holding? && u.e != blank ==> !Holds(u.table, u.e))
  }

  /** Only blanks and the given elements are in the table or in hand. */
  ghost predicate From<E(!new)>(u: Hand<E>, blank: E, known: set<E>) {
    && (forall i | 0 <= i < |u.table| :: u.table[i].elem == blank || u.table[i].elem in known)
    && (u.Holding? ==> u.e == blank || u.e in known)
  }

  lemma {:induction false} SettleSole<E(!new)>(u: Hand<E>, h: E -> Ways, blank: E, l: nat)
    requires u.Holding? && SoleHand(u, h, blank) && l < |u.table| && l in h(u.e)
    ensures SoleHand(Settle(u, l), h, blank)
  {
    var r := Settle(u, l).table;
    forall i, j | 0 <= i < j < |r| && r[i].elem == r[j].elem ensures r[i].elem == blank {
      if i == l {
        assert u.table[j].elem == r[j].elem;
      } else if j == l {
        assert u.table[i].elem == r[i].elem;
      }
    }
  }

  lemma {:induction false} TradeSole<E(!new)>(u: Hand<E>, h: E -> Ways, blank: E, l: nat)
    requires u.Holding? && SoleHand(u, h, blank) && l < |u.table| && l in h(u.e)
    ensures SoleHand(Trade(u, l), h, blank)
  {
    var v := Trade(u, l);
    var r := v.table;
    forall i, j | 0 <= i < j < |r| && r[i].elem == r[j].elem ensures r[i].elem == blank {
      if i == l {
        assert u.table[j].elem == r[j].elem;
      } else if j == l {
        assert u.table[i].elem == r[i].elem;
      }
    }
    forall i | 0 <= i < |r| && v.e != blank ensures r[i].elem != v.e {
      if i != l {
        assert u.table[i].elem == r[i].elem && u.table[l].elem == v.e;
      }
    }
  }

  lemma {:induction false} NextSole<E(!new)>(u: Hand<E>, h: E -> Ways, blank: E, known: set<E>)
    requires Hashing(h, |u.table|) && SoleHand(u, h, blank) && From(u, blank, known)
    ensures SoleHand(Next(u, h), h, blank) && From(Next(u, h), blank, known)
  {
    if u.Holding? {
      var locs := h(u.e);
      var k := FindFree(u.table, locs, 0);
      if k < WAYS {
        SettleSole(u, h, blank, locs[k]);
      } else {
        TradeSole(u, h, blank, locs[NextWay(locs, u.last)]);
      }
    }
  }

  lemma {:induction false} DisplaceSole<E(!new)>(u: Hand<E>, h: E -> Ways, depth: nat, blank: E, known: set<E>)
    requires Hashing(h, |u.table|) && SoleHand(u, h, blank) && From(u, blank, known)
    ensures SoleHand(Displace(u, h, depth), h, blank) && From(Displace(u, h, depth), blank, known)
  {
    if depth > 0 {
      DisplaceSole(u, h, depth - 1, blank, known);
      NextSole(Displace(u, h, depth - 1), h, blank, known);
    }
  }

  /** What is in none of its own slots is nowhere. */
  lemma {:induction false} NotFound<E(!new)>(t: seq<Slot<E>>, h: E -> Ways, e: E, blank: E)
    requires Hashing(h, |t|) && Sole(t, h, blank) && e != blank && FindSame(t, h(e), e, 0) == WAYS
    ensures !Holds(t, e)
  {
    var locs := h(e);
    FindSameIs(t, locs, e, 0, WAYS);
    forall i | 0 <= i < |t| ensures t[i].elem != e {
      assert t[i].elem == e ==> i in locs;
    }
  }

  lemma {:induction false} InsertSole<E(!new)>(t: seq<Slot<E>>, h: E -> Ways, e: E, depth: nat, blank: E, known: set<E>)
    requires Hashing(h, |t|) && Sole(t, h, blank) && From(Placed(t), blank, known)
    ensures SoleHand(Insert(t, h, e, depth), h, blank) && From(Insert(t, h, e, depth), blank, known + {e})
  {
    var k := FindSame(t, h(e), e, 0);
    FindSameIs(t, h(e), e, 0, k);
    if k == WAYS {
      if e != blank {
        NotFound(t, h, e, blank);
      }
      DisplaceSole(Holding(t, e, true, -1), h, depth, blank, known + {e});
    }
  }

  /** Changing flags alone changes neither. */
  lemma {:induction false} FlagsSole<E(!new)>(t: seq<Slot<E>>, r: seq<Slot<E>>, h: E -> Ways, blank: E, known: set<E>)
    requires |r| == |t| && forall i | 0 <= i < |t| :: r[i].elem == t[i].elem
    requires Sole(t, h, blank) && From(Placed(t), blank, known)
    ensures Sole(r, h, blank) && From(Placed(r), blank, known)
  {
    forall i, j | 0 <= i < j < |r| && r[i].elem == r[j].elem ensures r[i].elem == blank {
      assert t[i].elem == t[j].elem;
    }
  }

  // ------------------------------------------------------------ what is live

  lemma {:induction false} LiveAt<E(!new)>(t: seq<Slot<E>>, i: nat)
    requires i < |t| && !t[i].discard
    ensures t[i].elem in Live(t)
  {
    var n := |t| - 1;
    if i < n {
      LiveAt(t[..n], i);
    }
  }

  lemma {:induction false} LiveOnce<E(!new)>(t: seq<Slot<E>>, h: E -> Ways, blank: E, e: E)
    requires Sole(t, h, blank) && e != blank
    ensures Live(t)[e] <= 1
  {
    if t != [] {
      var n := |t| - 1;
      LiveOnce(t[..n], h, blank, e);
      if e in Live(t[..n]) {
        var i := LiveSomewhere(t[..n], e);
        assert t[i].elem == e;
      }
    }
  }

  /** Inserting an element other than the blank one leaves the live elements as they are if
      it is among them; otherwise they gain it and lose at most one. */
  lemma {:induction false} InsertLive<E(!new)>(t: seq<Slot<E>>, h: E -> Ways, e: E, depth: nat, blank: E, r: Hand<E>)
    requires Hashing(h, |t|) && AtHome(t, h) && Sole(t, h, blank) && e != blank && r == Insert(t, h, e, depth)
    ensures Kept(r) == if e in Live(t) then Live(t) else Live(t) + multiset{e}
  {
    var locs := h(e);
    var k := FindSame(t, locs, e, 0);
    FindSameIs(t, locs, e, 0, k);
    InsertConserves(t, h, e, depth, r);
    if e in Live(t) {
      var i := LiveSomewhere(t, e);
      LiveIsFound(t, h, e);
      assert t[locs[k]].elem == t[i].elem;
    } else if k < WAYS && !t[locs[k]].discard {
      LiveAt(t, locs[k]);
    }
  }

  // -------------------------------------------------------------- whole runs

  /** What every run keeps besides Good. */
  ghost predicate Sound<E(!new)>(p: Epoch<E>, h: E -> Ways, blank: E, known: set<E>) {
    Hashing(h, |p.table|) && Sole(p.table, h, blank) && From(Placed(p.table), blank, known)
  }

  ghost function Knows<E(!new)>(known: set<E>, ev: Event<E>): set<E> {
    if ev.Put? then known + {ev.e} else known
  }

  lemma {:induction false} SetupSound<E(!new)>(t: seq<Slot<E>>, counter: nat, h: E -> Ways, blank: E)
    requires Hashing(h, |t|) && forall i | 0 <= i < |t| :: t[i].elem == blank
    ensures Sound(Epoch(t, counter), h, blank, {})
  {
  }

  lemma {:induction false} StepSound<E(!new)>(p: Epoch<E>, epochSize: nat, h: E -> Ways, depth: nat, ev: Event<E>,
      blank: E, known: set<E>)
    requires Sound(p, h, blank, known)
    ensures Sound(Step(p, epochSize, h, depth, ev), h, blank, Knows(known, ev))
  {
    match ev {
      case Put(e) =>
        var q := EpochCheck(p.table, p.counter, epochSize);
        FlagsSole(p.table, q.table, h, blank, known);
        InsertSole(q.table, h, e, depth, blank, known);
        InsertConserves(q.table, h, e, depth, Insert(q.table, h, e, depth));
      case Look(e, erase) =>
        FlagsSole(p.table, LookUp(p.table, h, e, erase), h, blank, known);
    }
  }

  lemma {:induction false} PutSound<E(!new)>(p: Epoch<E>, epochSize: nat, h: E -> Ways, depth: nat, e: E, blank: E,
      known: set<E>, c: Epoch<E>, q: Epoch<E>)
    requires c == EpochCheck(p.table, p.counter, epochSize)
    requires Good(p, epochSize, h) && Sound(p, h, blank, known) && q == Step(p, epochSize, h, depth, Put(e))
    ensures Good(q, epochSize, h) && Sound(q, h, blank, known + {e})
    ensures Recent(q.table) <= epochSize + Max(1, epochSize / 16)
    ensures |c.table| == |p.table| && q == Epoch(Insert(c.table, h, e, depth).table, c.counter)
  {
    StepGood(p, epochSize, h, depth, Put(e));
    StepSound(p, epochSize, h, depth, Put(e), blank, known);
  }

  /** Looking up finds the same elements before and after anything was marked. */
  lemma {:induction false} MarkedStillFound<E(!new)>(t: seq<Slot<E>>, r: seq<Slot<E>>, locs: seq<nat>, e: E, k: nat)
    requires |r| == |t| && (forall i | 0 <= i < |t| :: r[i].elem == t[i].elem) && Slotted(t, locs) && k <= WAYS
    ensures FindSame(r, locs, e, k) == FindSame(t, locs, e, k)
    decreases WAYS - k
  {
    if k < WAYS {
      MarkedStillFound(t, r, locs, e, k + 1);
    }
  }

  /** Marking x discardable hides nothing. */
  lemma {:induction false} EraseHidesNone<E(!new)>(t: seq<Slot<E>>, h: E -> Ways, x: E, erase: bool, e: E)
    requires Hashing(h, |t|)
    ensures var r := LookUp(t, h, x, erase); |r| == |t| && (Found(r, h, e) <==> Found(t, h, e))
  {
    MarkedStillFound(t, LookUp(t, h, x, erase), h(e), e, 0);
  }

  ghost predicate Found<E(!new)>(t: seq<Slot<E>>, h: E -> Ways, e: E)
    requires Hashing(h, |t|)
  {
    FindSame(t, h(e), e, 0) < WAYS
  }

  lemma {:induction false} FoundIsKnown<E(!new)>(p: Epoch<E>, h: E -> Ways, blank: E, known: set<E>, e: E)
    requires Sound(p, h, blank, known) && Found(p.table, h, e)
    ensures e == blank || e in known
  {
    FindSameIs(p.table, h(e), e, 0, FindSame(p.table, h(e), e, 0));
  }

  ghost function KnownIn<E(!new)>(evs: seq<Event<E>>, i: nat): (known: set<E>)
    requires i <= |evs|
  {
    if i == 0 then {} else Knows(KnownIn(evs, i - 1), evs[i - 1])
  }

  lemma {:induction false} KnownIs<E(!new)>(evs: seq<Event<E>>, i: nat, e: E)
    requires i <= |evs| && e in KnownIn(evs, i)
    ensures exists j | 0 <= j < i :: evs[j] == Put(e)
  {
    if evs[i - 1] != Put(e) {
      KnownIs(evs, i - 1, e);
    }
  }

  ghost predicate Blank<E(!new)>(t: seq<Slot<E>>, blank: E) {
    forall i | 0 <= i < |t| :: t[i] == Slot(blank, true, false)
  }

  lemma {:induction false} RunSound<E(!new)>(ps: seq<Epoch<E>>, epochSize: nat, h: E -> Ways, depth: nat,
      evs: seq<Event<E>>, blank: E, i: nat)
    requires RunsTo(ps, epochSize, h, depth, evs) && i < |ps|
    requires Hashing(h, |ps[0].table|) && Blank(ps[0].table, blank)
    ensures Sound(ps[i], h, blank, KnownIn(evs, i))
  {
    if i == 0 {
      SetupSound(ps[0].table, ps[0].counter, h, blank);
    } else {
      RunSound(ps, epochSize, h, depth, evs, blank, i - 1);
      StepSound(ps[i - 1], epochSize, h, depth, evs[i - 1], blank, KnownIn(evs, i - 1));
    }
  }

  /** In every run from set-up, e is found only after it was inserted. */
  ghost predicate FoundOnlyIfPut<E(!new)>(t: seq<Slot<E>>, epochSize: nat, h: E -> Ways, depth: nat, e: E) {
    forall ps: seq<Epoch<E>>, evs: seq<Event<E>>, i: nat | RunsTo(ps, epochSize, h, depth, evs)
        && ps[0] == Epoch(t, epochSize) && i < |ps| ::
      Hashing(h, |ps[i].table|) && Found(ps[i].table, h, e) ==> exists j | 0 <= j < i :: evs[j] == Put(e)
  }

  /** That holds of every element but the blank one, which a new table contains at once. */
  lemma {:induction false} FoundIff<E(!new)>(t: seq<Slot<E>>, epochSize: nat, h: E -> Ways, depth: nat, blank: E, e: E)
    requires Hashing(h, |t|) && Blank(t, blank)
    ensures FoundOnlyIfPut(t, epochSize, h, depth, e) <==> e != blank
  {
    if e == blank {
      BlankIsFound(t, epochSize, h, depth, blank);
    } else {
      forall ps: seq<Epoch<E>>, evs: seq<Event<E>>, i: nat | RunsTo(ps, epochSize, h, depth, evs)
          && ps[0] == Epoch(t, epochSize) && i < |ps|
          && Hashing(h, |ps[i].table|) && Found(ps[i].table, h, e)
        ensures exists j | 0 <= j < i :: evs[j] == Put(e)
      {
        RunSound(ps, epochSize, h, depth, evs, blank, i);
        FoundIsKnown(ps[i], h, blank, KnownIn(evs, i), e);
        KnownIs(evs, i, e);
      }
    }
  }

  lemma {:induction false} BlankIsFound<E(!new)>(t: seq<Slot<E>>, epochSize: nat, h: E -> Ways, depth: nat, blank: E)
    requires Hashing(h, |t|) && Blank(t, blank)
    ensures Found(t, h, blank) && !FoundOnlyIfPut(t, epochSize, h, depth, blank)
  {
    var ps: seq<Epoch<E>>, evs: seq<Event<E>> := [Epoch(t, epochSize)], [];
    assert t[h(blank)[0]].elem == blank;
    assert RunsTo(ps, epochSize, h, depth, evs);
    assert Found(ps[0].table, h, blank);
  }
}
