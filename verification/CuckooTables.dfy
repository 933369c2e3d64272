/** The cuckoo table as a sequence of slots. A slot's element is live unless it has
    been marked discardable; discarded elements stay readable until overwritten. */
module CuckooTables {
  import opened Basics

  datatype Slot<E> = Slot(elem: E, discard: bool, recent: bool)

  const WAYS := 8

  /** The eight slots of an element. */
  type Ways = s: seq<nat> | |s| == 8 witness [0, 0, 0, 0, 0, 0, 0, 0]

  /** A hash gives every element eight slots of the table. */
  ghost predicate Hashing<E(!new)>(h: E -> Ways, size: nat) {
    forall e: E, k: nat {:trigger h(e)[k]} | k < WAYS :: h(e)[k] < size
  }

  // ------------------------------------------------------------- what is live

  function Content<E(==)>(s: Slot<E>): multiset<E> { if s.discard then multiset{} else multiset{s.elem} }

  function Weight<E>(s: Slot<E>): nat { if !s.discard && s.recent then 1 else 0 }

  /** The live elements. */
  function Live<E(==)>(t: seq<Slot<E>>): multiset<E> {
    if t == [] then multiset{} else Live(t[..|t| - 1]) + Content(t[|t| - 1])
  }

  /** How many live elements belong to the current epoch. */
  function Recent<E>(t: seq<Slot<E>>): nat {
    if t == [] then 0 else Recent(t[..|t| - 1]) + Weight(t[|t| - 1])
  }

  lemma Shift<E>(a: multiset<E>, b: multiset<E>, c: multiset<E>, d: multiset<E>, x: multiset<E>)
    requires a + c == b + d
    ensures (a + x) + c == (b + x) + d
  {
    assert (a + x) + c == (a + c) + x;
    assert (b + x) + d == (b + d) + x;
  }

  lemma Swap<E>(a: multiset<E>, c: multiset<E>, d: multiset<E>)
    ensures (a + d) + c == (a + c) + d
  {
  }

  lemma Cancel<E>(a: multiset<E>, b: multiset<E>, c: multiset<E>)
    requires a + c == b + c
    ensures a == b
  {
    assert a == (a + c) - c && b == (b + c) - c;
  }

  /** Changing one slot takes its content out and puts the new one in. */
  lemma {:induction false} SlotChange<E>(t: seq<Slot<E>>, i: nat, s: Slot<E>)
    requires i < |t|
    ensures Live(t[i := s]) + Content(t[i]) == Live(t) + Content(s)
    ensures Recent(t[i := s]) + Weight(t[i]) == Recent(t) + Weight(s)
  {
    var n := |t| - 1;
    var u := t[i := s];
    if i == n {
      assert u[..n] == t[..n];
      Swap(Live(t[..n]), Content(t[n]), Content(s));
    } else {
      SlotChange(t[..n], i, s);
      assert u[..n] == t[..n][i := s];
      Shift(Live(u[..n]), Live(t[..n]), Content(t[i]), Content(s), Content(t[n]));
    }
  }

  lemma {:induction false} LiveSomewhere<E>(t: seq<Slot<E>>, e: E) returns (i: nat)
    requires e in Live(t)
    ensures i < |t| && !t[i].discard && t[i].elem == e
  {
    var n := |t| - 1;
    if e in Content(t[n]) {
      i := n;
    } else {
      i := LiveSomewhere(t[..n], e);
    }
  }

  // ------------------------------------------------------------------ lookup

  predicate Slotted<E>(t: seq<Slot<E>>, locs: seq<nat>) {
    |locs| == WAYS && forall j | 0 <= j < WAYS :: locs[j] < |t|
  }

  /** The first of the given slots, from the k-th on, that holds e; WAYS if none. */
  function FindSame<E(==)>(t: seq<Slot<E>>, locs: seq<nat>, e: E, k: nat): (r: nat)
    requires Slotted(t, locs) && k <= WAYS
    ensures r <= WAYS
    decreases WAYS - k
  {
    if k == WAYS || t[locs[k]].elem == e then k else FindSame(t, locs, e, k + 1)
  }

  lemma {:induction false} FindSameIs<E>(t: seq<Slot<E>>, locs: seq<nat>, e: E, k: nat, r: nat)
    requires Slotted(t, locs) && k <= WAYS && r == FindSame(t, locs, e, k)
    ensures k <= r && (r < WAYS ==> t[locs[r]].elem == e)
    ensures forall j | k <= j < r :: t[locs[j]].elem != e
    decreases WAYS - k
  {
    if k < WAYS && t[locs[k]].elem != e {
      FindSameIs(t, locs, e, k + 1, r);
    }
  }

  /** The first of the given slots, from the k-th on, that may be overwritten. */
  function FindFree<E>(t: seq<Slot<E>>, locs: seq<nat>, k: nat): (r: nat)
    requires Slotted(t, locs) && k <= WAYS
    ensures r <= WAYS
    decreases WAYS - k
  {
    if k == WAYS || t[locs[k]].discard then k else FindFree(t, locs, k + 1)
  }

  lemma {:induction false} FindFreeIs<E>(t: seq<Slot<E>>, locs: seq<nat>, k: nat, r: nat)
    requires Slotted(t, locs) && k <= WAYS && r == FindFree(t, locs, k)
    ensures k <= r && (r < WAYS ==> t[locs[r]].discard)
    ensures forall j | k <= j < r :: !t[locs[j]].discard
    decreases WAYS - k
  {
    if k < WAYS && !t[locs[k]].discard {
      FindFreeIs(t, locs, k + 1, r);
    }
  }

  /** The position of x among the slots, WAYS if it is not there. */
  function IndexOf(locs: seq<nat>, x: int, k: nat): (r: nat)
    requires k <= |locs| == WAYS
    decreases WAYS - k
  {
    if k == WAYS || locs[k] == x then k else IndexOf(locs, x, k + 1)
  }

  /** The slot to displace from: the one after the slot last used. */
  function NextWay(locs: seq<nat>, last: int): (r: nat)
    requires |locs| == WAYS
    ensures r < WAYS
  {
    (1 + IndexOf(locs, last, 0)) % WAYS
  }

  lemma {:induction false} IndexOfIs(locs: seq<nat>, x: int, k: nat, i: nat)
    requires k <= i <= |locs| == WAYS && (i < WAYS ==> locs[i] == x) && forall j | k <= j < i :: locs[j] != x
    ensures IndexOf(locs, x, k) == i
    decreases WAYS - k
  {
    if k < i {
      IndexOfIs(locs, x, k + 1, i);
    }
  }

  /** An element displaced from its slot i moves on to the next of its slots, round the eight;
      a new one starts with the second. */
  lemma {:induction false} NextWayIs(locs: seq<nat>, last: int, i: nat)
    requires i <= |locs| == WAYS && (i < WAYS ==> locs[i] == last) && forall j | 0 <= j < i :: locs[j] != last
    ensures NextWay(locs, last) == if i == 8 then 1 else if i == 7 then 0 else i + 1
  {
    IndexOfIs(locs, last, 0, i);
  }

  /** The slot it moves on to is another one exactly if the two slots are not the same. */
  lemma {:induction false} MovesOnIff(locs: seq<nat>, i: nat)
    requires i < |locs| == WAYS && forall j | 0 <= j < i :: locs[j] != locs[i]
    ensures locs[NextWay(locs, locs[i])] != locs[i] <==> locs[if i == 7 then 0 else i + 1] != locs[i]
  {
    NextWayIs(locs, locs[i], i);
  }

  /** An element whose first two slots are the same is moved again at once, and a new element
      takes over its second slot, not its first. */
  lemma {:induction false} MovesOnCounterexample(locs: seq<nat>, others: seq<nat>)
    requires locs == [5, 5, 1, 2, 3, 4, 6, 7] && others == [0, 1, 2, 3, 4, 5, 6, 7]
    ensures locs[NextWay(locs, 5)] == 5 && others[NextWay(others, -1)] == 1
  {
    NextWayIs(locs, 5, 0);
    NextWayIs(others, -1, 8);
  }

  /** Every live element is in one of its own slots. */
  ghost predicate AtHome<E(!new)>(t: seq<Slot<E>>, h: E -> Ways) {
    forall i | 0 <= i < |t| && !t[i].discard :: i in h(t[i].elem)
  }

  /** A live element is found. */
  lemma {:induction false} LiveIsFound<E(!new)>(t: seq<Slot<E>>, h: E -> Ways, e: E)
    requires Hashing(h, |t|) && AtHome(t, h) && e in Live(t)
    ensures FindSame(t, h(e), e, 0) < WAYS
  {
    var i := LiveSomewhere(t, e);
    var locs := h(e);
    var k :| 0 <= k < WAYS && locs[k] == i;
    FindSameIs(t, locs, e, 0, FindSame(t, locs, e, 0));
  }

  // ---------------------------------------------------------------- insertion

  /** A table and the element in hand, if one is still to be placed; `last` is the
      slot it was taken from. */
  datatype Hand<E> = Placed(table: seq<Slot<E>>) | Holding(table: seq<Slot<E>>, e: E, recent: bool, last: int)

  /** One turn: the element in hand goes into a free slot, or takes an occupied one
      over and the element there is in hand next. */
  function Turn<E(!new)>(u: Hand<E>, h: E -> Ways): (v: Hand<E>)
    requires u.Holding? && Hashing(h, |u.table|)
    ensures |v.table| == |u.table|
  {
    var locs := h(u.e);
    var k := FindFree(u.table, locs, 0);
    if k < WAYS then Settle(u, locs[k]) else Trade(u, locs[NextWay(locs, u.last)])
  }

  function Settle<E>(u: Hand<E>, l: nat): Hand<E>
    requires u.Holding? && l < |u.table|
  {
    Placed(u.table[l := Slot(u.e, false, u.recent)])
  }

  function Trade<E>(u: Hand<E>, l: nat): Hand<E>
    requires u.Holding? && l < |u.table|
  {
    var s := u.table[l];
    Holding(u.table[l := Slot(u.e, s.discard, u.recent)], s.elem, s.recent, l)
  }

  function Next<E(!new)>(u: Hand<E>, h: E -> Ways): (v: Hand<E>)
    requires Hashing(h, |u.table|)
    ensures |v.table| == |u.table|
  {
    if u.Placed? then u else Turn(u, h)
  }

  /** Turns are taken until the element in hand is placed or the depth is used up;
      an element still in hand is then dropped. */
  function Displace<E(!new)>(u: Hand<E>, h: E -> Ways, depth: nat): (v: Hand<E>)
    requires Hashing(h, |u.table|)
    ensures |v.table| == |u.table|
  {
    if depth == 0 then u else Next(Displace(u, h, depth - 1), h)
  }

  /** Each hand of a trace but the last takes its turn. */
  ghost predicate IsTrace<E(!new)>(us: seq<Hand<E>>, h: E -> Ways) {
    forall i | 0 < i < |us| :: Follows(us, h, i)
  }

  ghost predicate Follows<E(!new)>(us: seq<Hand<E>>, h: E -> Ways, i: int)
    requires 0 < i < |us|
  {
    us[i - 1].Holding? && Hashing(h, |us[i - 1].table|) && us[i] == Turn(us[i - 1], h)
  }

  lemma TraceOn<E(!new)>(us: seq<Hand<E>>, h: E -> Ways, v: Hand<E>)
    requires us != [] && IsTrace(us, h)
    requires var u := us[|us| - 1]; u.Holding? && Hashing(h, |u.table|) && v == Turn(u, h)
    ensures IsTrace(us + [v], h)
  {
    var ws := us + [v];
    forall i | 0 < i < |ws| ensures Follows(ws, h, i) {
      if i < |us| {
        assert Follows(us, h, i);
      }
    }
  }

  /** A trace that stops early or at the depth limit is the whole displacement. */
  lemma {:induction false} TraceIs<E(!new)>(us: seq<Hand<E>>, h: E -> Ways, i: nat)
    requires i < |us| && IsTrace(us, h) && Hashing(h, |us[0].table|)
    ensures us[i] == Displace(us[0], h, i)
  {
    if i > 0 {
      TraceIs(us, h, i - 1);
      assert Follows(us, h, i);
    }
  }

  lemma {:induction false} TraceEnd<E(!new)>(us: seq<Hand<E>>, h: E -> Ways, depth: nat)
    requires 0 < |us| <= depth + 1 && IsTrace(us, h) && Hashing(h, |us[0].table|)
    requires us[|us| - 1].Placed? || |us| == depth + 1
    ensures us[|us| - 1] == Displace(us[0], h, depth)
  {
    var d := |us| - 1;
    TraceIs(us, h, d);
    EndOf(us[0], h, d, depth, us[d]);
  }

  lemma {:induction false} EndOf<E(!new)>(u: Hand<E>, h: E -> Ways, d: nat, depth: nat, v: Hand<E>)
    requires Hashing(h, |u.table|) && d <= depth && v == Displace(u, h, d) && (v.Placed? || d == depth)
    ensures v == Displace(u, h, depth)
  {
    if d < depth {
      PlacedStays(u, h, d, depth, v);
    }
  }

  /** Once the element is placed nothing changes. */
  lemma {:induction false} PlacedStays<E(!new)>(u: Hand<E>, h: E -> Ways, d: nat, depth: nat, v: Hand<E>)
    requires Hashing(h, |u.table|) && d <= depth && v == Displace(u, h, d) && v.Placed?
    ensures Displace(u, h, depth) == v
  {
    if d < depth {
      PlacedStays(u, h, d, depth - 1, v);
    }
  }

  /** The live elements together with the one in hand. */
  function Kept<E(==)>(u: Hand<E>): multiset<E> {
    if u.Placed? then Live(u.table) else Live(u.table) + multiset{u.e}
  }

  function KeptRecent<E>(u: Hand<E>): nat { Recent(u.table) + if u.Holding? && u.recent then 1 else 0 }

  lemma TurnConserves<E(!new)>(u: Hand<E>, h: E -> Ways, v: Hand<E>)
    requires u.Holding? && Hashing(h, |u.table|) && v == Turn(u, h)
    ensures Kept(v) == Kept(u) && KeptRecent(v) == KeptRecent(u)
  {
    var t, locs := u.table, h(u.e);
    var k := FindFree(t, locs, 0);
    FindFreeIs(t, locs, 0, k);
    if k < WAYS {
      PlaceConserves(t, locs[k], u.e, u.recent, v.table);
    } else {
      MoveConserves(t, locs[NextWay(locs, u.last)], u.e, u.recent, v.table);
    }
  }

  lemma {:induction false} PlaceConserves<E>(t: seq<Slot<E>>, l: nat, e: E, recent: bool, r: seq<Slot<E>>)
    requires l < |t| && t[l].discard && r == t[l := Slot(e, false, recent)]
    ensures Live(r) == Live(t) + multiset{e} && Recent(r) == Recent(t) + if recent then 1 else 0
  {
    SlotChange(t, l, Slot(e, false, recent));
    assert Live(r) + multiset{} == Live(r);
  }

  lemma {:induction false} MoveConserves<E>(t: seq<Slot<E>>, l: nat, e: E, recent: bool, r: seq<Slot<E>>)
    requires l < |t| && !t[l].discard && r == t[l := Slot(e, false, recent)]
    ensures Live(r) + multiset{t[l].elem} == Live(t) + multiset{e}
    ensures Recent(r) + (if t[l].recent then 1 else 0) == Recent(t) + if recent then 1 else 0
  {
    SlotChange(t, l, Slot(e, false, recent));
  }

  lemma NextConserves<E(!new)>(u: Hand<E>, h: E -> Ways, v: Hand<E>)
    requires Hashing(h, |u.table|) && v == Next(u, h)
    ensures Kept(v) == Kept(u) && KeptRecent(v) == KeptRecent(u)
  {
    if u.Holding? {
      TurnConserves(u, h, v);
    }
  }

  /** The hands between the turns. */
  ghost function Hands<E(!new)>(u: Hand<E>, h: E -> Ways, depth: nat): (us: seq<Hand<E>>)
    requires Hashing(h, |u.table|)
    ensures |us| == depth + 1 && forall i: nat | i <= depth :: us[i] == Displace(u, h, i)
  {
    seq(depth + 1, i requires 0 <= i => Displace(u, h, i))
  }

  /** Each is the next of the one before. */
  ghost predicate HandsFollow<E(!new)>(us: seq<Hand<E>>, h: E -> Ways) {
    forall i: nat | i + 1 < |us| :: FollowsHand(us[i], us[i + 1], h)
  }

  ghost predicate FollowsHand<E(!new)>(u: Hand<E>, v: Hand<E>, h: E -> Ways) {
    Hashing(h, |u.table|) && v == Next(u, h)
  }

  lemma {:induction false} HandsNext<E(!new)>(u: Hand<E>, h: E -> Ways, depth: nat, us: seq<Hand<E>>, i: nat)
    requires Hashing(h, |u.table|) && us == Hands(u, h, depth) && i < depth
    ensures FollowsHand(us[i], us[i + 1], h)
  {
  }

  lemma {:induction false} HandsConserve<E(!new)>(us: seq<Hand<E>>, h: E -> Ways, i: nat)
    requires i < |us| && HandsFollow(us, h)
    ensures Kept(us[i]) == Kept(us[0]) && KeptRecent(us[i]) == KeptRecent(us[0])
  {
    if i > 0 {
      HandsConserve(us, h, i - 1);
      assert FollowsHand(us[i - 1], us[i - 1 + 1], h);
      NextConserves(us[i - 1], h, us[i]);
    }
  }

  /** A displacement run conserves: what is live at the end, with the at most one
      element dropped, is what was live before with the new element. */
  lemma {:induction false} DisplaceConserves<E(!new)>(u: Hand<E>, h: E -> Ways, depth: nat, v: Hand<E>)
    requires Hashing(h, |u.table|) && v == Displace(u, h, depth)
    ensures Kept(v) == Kept(u) && KeptRecent(v) == KeptRecent(u)
  {
    var us := Hands(u, h, depth);
    forall i: nat | i + 1 < |us| ensures FollowsHand(us[i], us[i + 1], h) {
      HandsNext(u, h, depth, us, i);
    }
    HandsConserve(us, h, depth);
  }

  lemma TurnHome<E(!new)>(u: Hand<E>, h: E -> Ways, v: Hand<E>)
    requires u.Holding? && Hashing(h, |u.table|) && AtHome(u.table, h) && v == Turn(u, h)
    ensures AtHome(v.table, h)
  {
  }

  lemma NextHome<E(!new)>(u: Hand<E>, h: E -> Ways, v: Hand<E>)
    requires Hashing(h, |u.table|) && AtHome(u.table, h) && v == Next(u, h)
    ensures AtHome(v.table, h)
  {
    if u.Holding? {
      TurnHome(u, h, v);
    }
  }

  /** ... and keeps every live element in one of its own slots. */
  lemma {:induction false} DisplaceHome<E(!new)>(u: Hand<E>, h: E -> Ways, depth: nat) returns (v: Hand<E>)
    requires Hashing(h, |u.table|) && AtHome(u.table, h)
    ensures v == Displace(u, h, depth) && AtHome(v.table, h)
  {
    if depth == 0 {
      v := u;
    } else {
      var w := DisplaceHome(u, h, depth - 1);
      v := Next(w, h);
      NextHome(w, h, v);
    }
  }

  /** Inserting into the current epoch: a copy already there is kept and renewed. */
  function Insert<E(==,!new)>(t: seq<Slot<E>>, h: E -> Ways, e: E, depth: nat): Hand<E>
    requires Hashing(h, |t|)
  {
    var k := FindSame(t, h(e), e, 0);
    if k < WAYS then Placed(t[h(e)[k] := Slot(e, false, true)]) else Displace(Holding(t, e, true, -1), h, depth)
  }

  /** Either the element found was live and the live elements are unchanged, or
      they gain exactly e and lose at most one element. The current epoch grows by
      at most one. */
  lemma {:induction false} InsertConserves<E(!new)>(t: seq<Slot<E>>, h: E -> Ways, e: E, depth: nat, r: Hand<E>)
    requires Hashing(h, |t|) && r == Insert(t, h, e, depth)
    ensures |r.table| == |t|
    ensures var k := FindSame(t, h(e), e, 0);
            Kept(r) == if k < WAYS && !t[h(e)[k]].discard then Live(t) else Live(t) + multiset{e}
    ensures Recent(r.table) <= Recent(t) + 1
  {
    var k := FindSame(t, h(e), e, 0);
    FindSameIs(t, h(e), e, 0, k);
    if k < WAYS {
      var i := h(e)[k];
      SlotChange(t, i, Slot(e, false, true));
      if !t[i].discard {
        Cancel(Live(r.table), Live(t), multiset{e});
      } else {
        assert Live(r.table) + multiset{} == Live(r.table);
      }
    } else {
      DisplaceConserves(Holding(t, e, true, -1), h, depth, r);
    }
  }

  lemma InsertHome<E(!new)>(t: seq<Slot<E>>, h: E -> Ways, e: E, depth: nat)
    requires Hashing(h, |t|) && AtHome(t, h)
    ensures AtHome(Insert(t, h, e, depth).table, h)
  {
    var u := Holding(t, e, true, -1);
    var v := DisplaceHome(u, h, depth);
  }

  // -------------------------------------------------------------------- epochs

  function Aged<E>(s: Slot<E>): Slot<E> { if s.recent then s.(recent := false) else s.(discard := true) }

  /** Ages the first n slots: recent entries become old, old ones discardable. */
  function AgeTo<E>(t: seq<Slot<E>>, n: nat): (r: seq<Slot<E>>)
    requires n <= |t|
    ensures |r| == |t|
    ensures forall i | 0 <= i < |t| :: r[i] == if i < n then Aged(t[i]) else t[i]
  {
    if n == 0 then t else AgeTo(t, n - 1)[n - 1 := Aged(t[n - 1])]
  }

  lemma {:induction false} AgedHasNone<E>(t: seq<Slot<E>>)
    requires forall i | 0 <= i < |t| :: Weight(t[i]) == 0
    ensures Recent(t) == 0
  {
    if t != [] {
      AgedHasNone(t[..|t| - 1]);
    }
  }

  datatype Epoch<E> = Epoch(table: seq<Slot<E>>, counter: nat)

  /** Runs before every insertion. */
  function EpochCheck<E>(t: seq<Slot<E>>, counter: nat, epochSize: nat): Epoch<E> {
    if counter != 0 then Epoch(t, counter - 1)
    else if Recent(t) >= epochSize then Epoch(AgeTo(t, |t|), epochSize)
    else Epoch(t, Max(1, Max(epochSize / 16, epochSize - Recent(t))))
  }

  /** The bound on the current epoch: what the heuristic counter still allows, added
      to the recent elements, stays within the epoch size and a sixteenth of it. */
  predicate Bounded<E>(t: seq<Slot<E>>, counter: nat, epochSize: nat) {
    Recent(t) + counter <= epochSize + Max(1, epochSize / 16)
  }

  /** An epoch check followed by an insertion keeps the bound. */
  lemma EpochBound<E(!new)>(t: seq<Slot<E>>, counter: nat, epochSize: nat, h: E -> Ways, e: E, depth: nat)
    requires Hashing(h, |t|) && Bounded(t, counter, epochSize)
    ensures var p := EpochCheck(t, counter, epochSize);
            |p.table| == |t| && Bounded(Insert(p.table, h, e, depth).table, p.counter, epochSize)
  {
    var p := EpochCheck(t, counter, epochSize);
    if counter == 0 && Recent(t) >= epochSize {
      AgedHasNone(p.table);
    }
    InsertConserves(p.table, h, e, depth, Insert(p.table, h, e, depth));
  }

  lemma EpochHome<E(!new)>(t: seq<Slot<E>>, counter: nat, epochSize: nat, h: E -> Ways)
    requires AtHome(t, h)
    ensures AtHome(EpochCheck(t, counter, epochSize).table, h)
  {
    var r := EpochCheck(t, counter, epochSize).table;
    forall i | 0 <= i < |r| && !r[i].discard ensures i in h(r[i].elem) {
      assert !t[i].discard && r[i].elem == t[i].elem;
    }
  }

  // ---------------------------------------------------------------- whole runs

  datatype Event<E> = Put(e: E) | Look(e: E, erase: bool)

  /** Looking an element up, marking it discardable when asked to. */
  function LookUp<E(==,!new)>(t: seq<Slot<E>>, h: E -> Ways, e: E, erase: bool): seq<Slot<E>>
    requires Hashing(h, |t|)
  {
    var k := FindSame(t, h(e), e, 0);
    if k < WAYS && erase then t[h(e)[k] := t[h(e)[k]].(discard := true)] else t
  }

  function Step<E(==,!new)>(p: Epoch<E>, epochSize: nat, h: E -> Ways, depth: nat, ev: Event<E>): Epoch<E>
    requires Hashing(h, |p.table|)
  {
    match ev
    case Put(e) =>
      var q := EpochCheck(p.table, p.counter, epochSize);
      Epoch(Insert(q.table, h, e, depth).table, q.counter)
    case Look(e, erase) => Epoch(LookUp(p.table, h, e, erase), p.counter)
  }

  /** What every run keeps: live elements are in their own slots, so that they are
      found, and the current epoch stays within its bound. */
  ghost predicate Good<E(!new)>(p: Epoch<E>, epochSize: nat, h: E -> Ways) {
    Hashing(h, |p.table|) && AtHome(p.table, h) && Bounded(p.table, p.counter, epochSize)
  }

  /** A table just set up is good: nothing is live. */
  lemma SetupGood<E(!new)>(t: seq<Slot<E>>, epochSize: nat, h: E -> Ways)
    requires Hashing(h, |t|) && forall i | 0 <= i < |t| :: t[i].discard
    ensures Good(Epoch(t, epochSize), epochSize, h)
  {
    AgedHasNone(t);
  }

  lemma StepGood<E(!new)>(p: Epoch<E>, epochSize: nat, h: E -> Ways, depth: nat, ev: Event<E>)
    requires Good(p, epochSize, h)
    ensures Good(Step(p, epochSize, h, depth, ev), epochSize, h)
  {
    match ev {
      case Put(e) =>
        var q := EpochCheck(p.table, p.counter, epochSize);
        EpochBound(p.table, p.counter, epochSize, h, e, depth);
        EpochHome(p.table, p.counter, epochSize, h);
        InsertHome(q.table, h, e, depth);
        InsertConserves(q.table, h, e, depth, Insert(q.table, h, e, depth));
      case Look(e, erase) =>
        var locs := h(e);
        var k := FindSame(p.table, locs, e, 0);
        if k < WAYS && erase {
          SlotChange(p.table, locs[k], p.table[locs[k]].(discard := true));
        }
    }
  }

  ghost predicate RunsTo<E(!new)>(ps: seq<Epoch<E>>, epochSize: nat, h: E -> Ways, depth: nat, evs: seq<Event<E>>) {
    && |ps| == |evs| + 1
    && forall i | 0 <= i < |evs| :: Hashing(h, |ps[i].table|) && ps[i + 1] == Step(ps[i], epochSize, h, depth, evs[i])
  }

  lemma {:induction false} RunGood<E(!new)>(ps: seq<Epoch<E>>, epochSize: nat, h: E -> Ways, depth: nat,
      evs: seq<Event<E>>, i: nat)
    requires RunsTo(ps, epochSize, h, depth, evs) && Good(ps[0], epochSize, h) && i < |ps|
    ensures Good(ps[i], epochSize, h)
    ensures Recent(ps[i].table) <= epochSize + Max(1, epochSize / 16)
    ensures forall e | e in Live(ps[i].table) :: FindSame(ps[i].table, h(e), e, 0) < WAYS
  {
    if i > 0 {
      RunGood(ps, epochSize, h, depth, evs, i - 1);
      StepGood(ps[i - 1], epochSize, h, depth, evs[i - 1]);
    }
    forall e | e in Live(ps[i].table) ensures FindSame(ps[i].table, h(e), e, 0) < WAYS {
      LiveIsFound(ps[i].table, h, e);
    }
  }
}
