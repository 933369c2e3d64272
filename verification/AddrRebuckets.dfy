/** Reading addresses whose former buckets cannot be used, and reading tried addresses: each
    cell goes to the first entry of the stream that wants it. */
module AddrRebuckets {
  import opened AddrTables
  import opened AddrStore

  // ---------------------------------------------------------------- the first one

  /** x is the first of n wishes for k, or -1 if there is none. */
  ghost predicate FirstFor(wants: seq<Cell>, n: nat, k: Cell, x: int)
    requires n <= |wants|
  {
    if x == -1 then forall i | 0 <= i < n :: wants[i] != k
    else 0 <= x < n && wants[x] == k && forall i | 0 <= i < x :: wants[i] != k
  }

  ghost function NewWants(c: Config, news: seq<Info>): (r: seq<Cell>)
    requires c.Valid()
    ensures |r| == |news| && forall i | 0 <= i < |r| :: r[i] == c.NewSlot(news[i].addr, news[i].source)
  {
    seq(|news|, i requires 0 <= i < |news| => c.NewSlot(news[i].addr, news[i].source))
  }

  ghost function TriedWants(c: Config, trieds: seq<Info>): (r: seq<Cell>)
    requires c.Valid()
    ensures |r| == |trieds| && forall i | 0 <= i < |r| :: r[i] == c.TriedSlot(trieds[i].addr)
  {
    seq(|trieds|, i requires 0 <= i < |trieds| => c.TriedSlot(trieds[i].addr))
  }

  // ------------------------------------------------------------------- new entries

  /** The first n ids are those of the new entries of the stream. */
  ghost predicate Numbered(s: Db, news: seq<Info>, n: nat)
    requires n <= |news|
  {
    n <= s.nIdCount && forall i | 0 <= i < n ::
      i in s.mapInfo && s.mapInfo[i].addr == news[i].addr && s.mapInfo[i].source == news[i].source
  }

  lemma {:induction false} NewsNumbered(e: Db, news: seq<Info>, n: nat)
    requires n <= |news| && e.nIdCount == 0
    ensures var s := News(e, news, n);
            Numbered(s, news, n) && s.nIdCount == n && s.vvNew == e.vvNew && s.vvTried == e.vvTried
    decreases n
  {
    if n > 0 {
      NewsNumbered(e, news, n - 1);
    }
  }

  lemma {:induction false} TriedsNumbered(c: Config, s: Db, trieds: seq<Info>, n: nat, news: seq<Info>)
    requires c.Valid() && n <= |trieds| && Numbered(s, news, |news|)
    ensures Numbered(Trieds(c, s, trieds, n), news, |news|) && Trieds(c, s, trieds, n).vvNew == s.vvNew
    decreases n
  {
    if n > 0 {
      TriedsNumbered(c, s, trieds, n - 1, news);
    }
  }

  /** Every cell holds the first of the first n entries that wants it. */
  ghost predicate FirstCome(c: Config, t: Table, wants: seq<Cell>, n: nat)
    requires c.Valid() && n <= |wants|
  {
    forall k | k in t :: FirstFor(wants, n, k, t[k])
  }

  lemma FirstComeNext(c: Config, t: Table, wants: seq<Cell>, n: nat, r: Table)
    requires c.Valid() && n < |wants| && FirstCome(c, t, wants, n)
    requires r == if wants[n] in t && t[wants[n]] == -1 then t[wants[n] := n] else t
    ensures FirstCome(c, r, wants, n + 1)
  {
  }

  lemma {:induction false} SettlesFirst(c: Config, s: Db, buckets: seq<seq<int>>, n: nat, news: seq<Info>,
      wants: seq<Cell>,
      r: Db)
    requires c.Valid() && n <= |news| && Numbered(s, news, |news|) && wants == NewWants(c, news)
    requires FirstCome(c, s.vvNew, wants, 0) && r == Settles(c, s, buckets, false, n)
    ensures Numbered(r, news, |news|) && FirstCome(c, r.vvNew, wants, n) && r.vvTried == s.vvTried
    decreases n
  {
    if n > 0 {
      var p := Settles(c, s, buckets, false, n - 1);
      SettlesFirst(c, s, buckets, n - 1, news, wants, p);
      FirstComeNext(c, p.vvNew, wants, n - 1, r.vvNew);
    }
  }

  lemma {:induction false} PrunesTables(s: Db, n: nat)
    ensures Prunes(s, n).vvNew == s.vvNew && Prunes(s, n).vvTried == s.vvTried
    decreases n
  {
    if n > 0 {
      PrunesTables(s, n - 1);
    }
  }

  /** If the former buckets are not used, every new cell goes to the first new entry of the
      stream for which it is the cell of its source, and no other cell is filled. */
  lemma {:induction false} NewRebucketed(c: Config, e: Db, st: Stream)
    requires c.Valid() && e.nIdCount == 0 && forall k | k in e.vvNew :: e.vvNew[k] == -1
    ensures FirstCome(c, Loaded(c, e, st, false).vvNew, NewWants(c, st.news), |st.news|)
  {
    var n := |st.news|;
    var a := News(e, st.news, n);
    var b := Trieds(c, a, st.trieds, |st.trieds|);
    var f := Settles(c, b, st.buckets, false, n);
    NewsNumbered(e, st.news, n);
    TriedsNumbered(c, a, st.trieds, |st.trieds|, st.news);
    SettlesFirst(c, b, st.buckets, n, st.news, NewWants(c, st.news), f);
    PrunesTables(f, f.nIdCount);
  }

  // ----------------------------------------------------------------- tried entries

  /** Slot k is free if none of the first n tried entries wants it, and holds the first that does. */
  ghost predicate HeldByFirst(s: Db, trieds: seq<Info>, wants: seq<Cell>, n: nat, k: Cell)
    requires n <= |wants| == |trieds| && k in s.vvTried
  {
    var id := s.vvTried[k];
    if id == -1 then FirstFor(wants, n, k, -1)
    else id in s.mapInfo && id < s.nIdCount && s.mapInfo[id].fInTried &&
         exists j: nat | j < n :: FirstFor(wants, n, k, j) && s.mapInfo[id].addr == trieds[j].addr
  }

  ghost predicate AllHeld(s: Db, trieds: seq<Info>, wants: seq<Cell>, n: nat)
    requires n <= |wants| == |trieds|
  {
    forall k | k in s.vvTried :: HeldByFirst(s, trieds, wants, n, k)
  }

  lemma {:induction false} HeldNext(c: Config, s: Db, trieds: seq<Info>, wants: seq<Cell>, n: nat, r: Db, k: Cell)
    requires c.Valid() && n < |wants| == |trieds| && AllHeld(s, trieds, wants, n) && s.nIdCount >= 0
    requires wants[n] == c.TriedSlot(trieds[n].addr) && r == EnterTried(c, s, trieds[n]) && k in r.vvTried
    ensures k in s.vvTried && HeldByFirst(r, trieds, wants, n + 1, k)
  {
    assert HeldByFirst(s, trieds, wants, n, k);
    var id := s.vvTried[k];
    if id != -1 {
      var j: nat :| j < n && FirstFor(wants, n, k, j) && s.mapInfo[id].addr == trieds[j].addr;
      assert FirstFor(wants, n + 1, k, j);
      assert r.mapInfo[id] == s.mapInfo[id];
    } else if wants[n] == k {
      assert FirstFor(wants, n + 1, k, n);
    }
  }

  lemma {:induction false} AllHeldNext(c: Config, s: Db, trieds: seq<Info>, wants: seq<Cell>, n: nat, r: Db, m: nat)
    requires c.Valid() && n < |wants| == |trieds| && AllHeld(s, trieds, wants, n) && s.nIdCount >= 0 && m == n + 1
    requires wants[n] == c.TriedSlot(trieds[n].addr) && r == EnterTried(c, s, trieds[n])
    ensures AllHeld(r, trieds, wants, m) && r.nIdCount >= 0
  {
    forall k | k in r.vvTried ensures HeldByFirst(r, trieds, wants, m, k) {
      HeldNext(c, s, trieds, wants, n, r, k);
    }
  }

  lemma {:induction false} TriedsHeld(c: Config, s: Db, trieds: seq<Info>, wants: seq<Cell>, n: nat, r: Db)
    requires c.Valid() && n <= |trieds| && wants == TriedWants(c, trieds) && s.nIdCount >= 0
    requires AllHeld(s, trieds, wants, 0) && r == Trieds(c, s, trieds, n)
    ensures AllHeld(r, trieds, wants, n) && r.nIdCount >= 0
    decreases n
  {
    if n > 0 {
      var p := Trieds(c, s, trieds, n - 1);
      TriedsHeld(c, s, trieds, wants, n - 1, p);
      AllHeldNext(c, p, trieds, wants, n - 1, r, n);
    }
  }

  /** Neither placing nor pruning takes a tried address from its slot. */
  ghost predicate KeepsTried(s: Db, r: Db) {
    && r.vvTried == s.vvTried && r.nIdCount == s.nIdCount
    && forall id | id in s.mapInfo && s.mapInfo[id].fInTried ::
         id in r.mapInfo && r.mapInfo[id].fInTried && r.mapInfo[id].addr == s.mapInfo[id].addr
  }

  lemma KeepsHeld(s: Db, r: Db, trieds: seq<Info>, wants: seq<Cell>, n: nat)
    requires n <= |wants| == |trieds| && AllHeld(s, trieds, wants, n) && KeepsTried(s, r)
    ensures AllHeld(r, trieds, wants, n)
  {
    forall k | k in r.vvTried ensures HeldByFirst(r, trieds, wants, n, k) {
      assert HeldByFirst(s, trieds, wants, n, k);
    }
  }

  lemma {:induction false} SettlesKeepTried(c: Config, s: Db, buckets: seq<seq<int>>, keep: bool, n: nat)
    requires c.Valid()
    ensures KeepsTried(s, Settles(c, s, buckets, keep, n))
    decreases n
  {
    if n > 0 {
      SettlesKeepTried(c, s, buckets, keep, n - 1);
    }
  }

  lemma {:induction false} PrunesIds(s: Db, n: nat)
    ensures Prunes(s, n).nIdCount == s.nIdCount
    decreases n
  {
    if n > 0 {
      PrunesIds(s, n - 1);
    }
  }

  lemma {:induction false} PrunesKeepTried(c: Config, s: Db, n: nat, m: nat, r: Db)
    requires c.Valid() && Pruning(c, s, 0, m) && PrunedTo(s, s, 0) && r == Prunes(s, n)
    ensures KeepsTried(s, r)
  {
    PrunesOk(c, s, n, m);
    PrunesTables(s, n);
    PrunesIds(s, n);
    forall id | id in s.mapInfo && s.mapInfo[id].fInTried
      ensures id in r.mapInfo && r.mapInfo[id].fInTried && r.mapInfo[id].addr == s.mapInfo[id].addr
    {
      assert SameInfo(r.mapInfo[id], s.mapInfo[id]);
    }
  }

  /** Every tried slot is given to the first tried entry of the stream that wants it. */
  lemma {:induction false} TriedRebuilt(c: Config, e: Db, st: Stream, keep: bool)
    requires c.Valid() && IsEmpty(c, e) && forall k | k in e.vvTried :: e.vvTried[k] == -1
    ensures AllHeld(Loaded(c, e, st, keep), st.trieds, TriedWants(c, st.trieds), |st.trieds|)
  {
    var n, m, wants := |st.trieds|, |st.news|, TriedWants(c, st.trieds);
    var a := News(e, st.news, m);
    var b := Trieds(c, a, st.trieds, n);
    var f := Filled(c, e, st, keep);
    NewsNumbered(e, st.news, m);
    TriedsHeld(c, a, st.trieds, wants, n, b);
    SettlesKeepTried(c, b, st.buckets, keep, m);
    KeepsHeld(b, f, st.trieds, wants, n);
    FilledOk(c, e, st, keep, f);
    PrunedNone(f);
    PrunesKeepTried(c, f, f.nIdCount, m, Loaded(c, e, st, keep));
    KeepsHeld(f, Loaded(c, e, st, keep), st.trieds, wants, n);
  }
}
