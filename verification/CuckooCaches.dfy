/** The cuckoo cache object: a table of elements, one bit per slot marking it
    discardable, packed eight to a byte, and one marking it recent. */
module CuckooCaches {
  import opened Basics
  import opened ByteBits
  import opened CuckooTables
  import opened CuckooCopies
  import opened CuckooEpochs

  class BitPackedFlags {
    var mem: seq<bv8>

    constructor (size: nat)
      ensures 8 * |mem| >= size && forall k: nat | k < 8 * |mem| :: FlagAt(mem, k)
    {
      mem := seq((size + 7) / 8, _ => 0xFF);
    }

    predicate IsSet(s: nat)
      requires s < 8 * |mem|
      reads this
    {
      FlagAt(mem, s)
    }

    method Setup(b: nat)
      modifies this
      ensures 8 * |mem| >= b && forall k: nat | k < 8 * |mem| :: FlagAt(mem, k)
    {
      var d := new BitPackedFlags(b);
      mem := d.mem;
    }

    method Set(s: nat)
      requires s < 8 * |mem|
      modifies this
      ensures |mem| == old(|mem|)
      ensures forall k: nat | k < 8 * |mem| :: FlagAt(mem, k) == (k == s || FlagAt(old(mem), k))
    {
      ghost var x := mem[s / 8];
      mem := mem[s / 8 := mem[s / 8] | Mask(s % 8)];
      forall k: nat | k < 8 * |mem| ensures FlagAt(mem, k) == (k == s || FlagAt(old(mem), k)) {
        SetBit(x, s % 8, k % 8);
      }
    }

    method Unset(s: nat)
      requires s < 8 * |mem|
      modifies this
      ensures |mem| == old(|mem|)
      ensures forall k: nat | k < 8 * |mem| :: FlagAt(mem, k) == (k != s && FlagAt(old(mem), k))
    {
      ghost var x := mem[s / 8];
      mem := mem[s / 8 := mem[s / 8] & !Mask(s % 8)];
      forall k: nat | k < 8 * |mem| ensures FlagAt(mem, k) == (k != s && FlagAt(old(mem), k)) {
        ClearBit(x, s % 8, k % 8);
      }
    }
  }

  type Hash32 = x: int | 0 <= x < 0x1_0000_0000

  /** A 32-bit hash scaled to the table's size: the high word of their product. */
  function Scale(hash: Hash32, size: nat): (r: nat)
    ensures size > 0 ==> r < size
  {
    ScaleBound(hash, size);
    var product: int := hash * size;
    product / 0x1_0000_0000
  }

  lemma ScaleBound(hash: Hash32, size: nat)
    ensures 0 <= hash * size && (size > 0 ==> hash * size < 0x1_0000_0000 * size)
  {
  }

  function Locs<E>(hash: (nat, E) -> Hash32, size: nat, e: E): (r: Ways)
    ensures size > 0 ==> forall k | 0 <= k < WAYS :: r[k] < size
  {
    [Scale(hash(0, e), size), Scale(hash(1, e), size), Scale(hash(2, e), size), Scale(hash(3, e), size),
     Scale(hash(4, e), size), Scale(hash(5, e), size), Scale(hash(6, e), size), Scale(hash(7, e), size)]
  }

  function Home<E>(hash: (nat, E) -> Hash32, size: nat): E -> Ways { e => Locs(hash, size, e) }

  /** Every element's slots lie in the table. */
  lemma HomeIsHashing<E(!new)>(hash: (nat, E) -> Hash32, size: nat)
    requires size > 0
    ensures Hashing(Home(hash, size), size)
  {
    forall e: E, k: nat | k < WAYS ensures Home(hash, size)(e)[k] < size {
      assert Home(hash, size)(e) == Locs(hash, size, e);
    }
  }

  /** Some hash is scaled to any given slot. */
  lemma EverySlot(size: nat, w: nat) returns (h: Hash32)
    requires w < size <= 0x1_0000_0000
    ensures Scale(h, size) == w
  {
    var x: nat := w * 0x1_0000_0000;
    var low := (x + size - 1) / size;
    assert x <= low * size < x + size;
    assert low >= 0x1_0000_0000 ==> low * size >= 0x1_0000_0000 * size;
    h := low;
    var product := h * size;
    assert product / 0x1_0000_0000 == w;
  }

  lemma {:induction false} HashesFor(size: nat, ws: seq<nat>) returns (hs: seq<Hash32>)
    requires 0 < size <= 0x1_0000_0000 && forall k | 0 <= k < |ws| :: ws[k] < size
    ensures |hs| == |ws| && forall k | 0 <= k < |ws| :: Scale(hs[k], size) == ws[k]
  {
    if ws == [] {
      return [];
    }
    hs := HashesFor(size, ws[..|ws| - 1]);
    var h := EverySlot(size, ws[|ws| - 1]);
    hs := hs + [h];
  }

  /** The eight slots are independent: eight hashes can make them any given ones. */
  lemma {:induction false} AnySlots<E>(size: nat, e: E, ws: Ways) returns (hash: (nat, E) -> Hash32)
    requires 0 < size <= 0x1_0000_0000 && forall k | 0 <= k < WAYS :: ws[k] < size
    ensures Home(hash, size)(e) == ws
  {
    var hs := HashesFor(size, ws);
    hash := (k: nat, _: E) => if k < |hs| then hs[k] else 0;
    assert Locs(hash, size, e) == ws;
  }

  /** The slots that the element table and the two flag vectors make up. */
  function Slots<E>(table: seq<E>, mem: seq<bv8>, epochs: seq<bool>): (t: seq<Slot<E>>)
    requires |table| == |epochs| <= 8 * |mem|
    ensures |t| == |table|
  {
    seq(|table|, i requires 0 <= i < |table| => Slot(table[i], FlagAt(mem, i), epochs[i]))
  }

  class Cache<E(==,!new)> {
    const hash: (nat, E) -> Hash32
    const blank: E                   // a default-constructed element
    ghost var home: E -> Ways
    ghost var known: set<E>          // what was inserted since Setup
    const collection: BitPackedFlags
    var table: seq<E>
    var epochFlags: seq<bool>
    var size: nat
    var counter: nat
    var epochSize: nat
    var depthLimit: nat

    ghost predicate Shape()
      reads this`size, this`table, this`epochFlags, this`home, collection
    {
      && size == |table| == |epochFlags| && size >= 2 && 8 * |collection.mem| >= size
      && home == Home(hash, size) && Hashing(home, size)
    }

    /** Live elements are in their own slots, the epoch is within its bound, and all that
        the table holds are blanks and single copies of what was inserted. */
    ghost predicate Valid()
      reads this, collection
    {
      Shape() && Good(Epoch(Abs(), counter), epochSize, home) && Sound(Epoch(Abs(), counter), home, blank, known)
    }

    ghost function Abs(): (t: seq<Slot<E>>)
      requires Shape()
      reads this`size, this`table, this`epochFlags, this`home, collection
      ensures |t| == size
    {
      Slots(table, collection.mem, epochFlags)
    }

    constructor (hash: (nat, E) -> Hash32, blank: E)
      ensures this.hash == hash && this.blank == blank && fresh(collection)
    {
      this.hash, this.blank, known := hash, blank, {};
      table, epochFlags, size, counter, epochSize, depthLimit := [], [], 0, 0, 0, 0;
      home := Home(hash, 0);
      var flags := new BitPackedFlags(0);
      collection := flags;
    }

    /** Makes room for new_size elements, at least two; nothing is live. */
    method Setup(newSize: nat, depth: nat) returns (r: nat)
      modifies this, collection
      ensures Valid() && r == size == (if newSize < 2 then 2 else newSize) && depthLimit == depth
      ensures epochSize == Max(1, (45 * size) / 100) && counter == epochSize
      ensures Abs() == seq(size, _ => Slot(blank, true, false)) && known == {}
    {
      depthLimit := depth;
      size := if newSize < 2 then 2 else newSize;
      table := seq(size, _ => blank);
      collection.Setup(size);
      epochFlags := seq(size, _ => false);
      epochSize := Max(1, (45 * size) / 100);
      counter := epochSize;
      home, known := Home(hash, size), {};
      HomeIsHashing(hash, size);
      ghost var t := Abs();
      assert t == seq(size, _ => Slot(blank, true, false));
      SetupGood(t, epochSize, home);
      SetupSound(t, epochSize, home, blank);
      r := size;
    }

    /** Counts the live recent slots. */
    method CountRecent() returns (n: nat)
      requires Shape()
      ensures n == Recent(Abs())
    {
      n := 0;
      var i := 0;
      while i < size
        invariant 0 <= i <= size && n == Recent(Abs()[..i])
      {
        assert Abs()[..i + 1][..i] == Abs()[..i];
        n := n + if epochFlags[i] && !collection.IsSet(i) then 1 else 0;
        i := i + 1;
      }
      assert Abs()[..i] == Abs();
    }

    method AgeAll()
      requires Shape()
      modifies this`epochFlags, collection
      ensures Shape() && Abs() == AgeTo(old(Abs()), size)
    {
      ghost var t := Abs();
      var i := 0;
      while i < size
        invariant 0 <= i <= size && Shape() && Abs() == AgeTo(t, i)
      {
        ghost var u := Abs();
        if epochFlags[i] {
          epochFlags := epochFlags[i := false];
        } else {
          collection.Set(i);
        }
        assert Abs() == u[i := Aged(u[i])];
        i := i + 1;
      }
    }

    method EpochCheck(ghost r: Epoch<E>)
      requires Shape() && r == CuckooTables.EpochCheck(Abs(), counter, epochSize)
      modifies this`epochFlags, this`counter, collection
      ensures Shape() && Abs() == r.table && counter == r.counter
    {
      if counter != 0 {
        counter := counter - 1;
        return;
      }
      var unused := CountRecent();
      if unused >= epochSize {
        AgeAll();
        counter := epochSize;
      } else {
        counter := Max(1, Max(epochSize / 16, epochSize - unused));
      }
    }

    /** Puts an element into a slot that may be overwritten, for keeps. */
    method Place(loc: nat, e: E, recent: bool)
      requires Shape() && loc < size
      modifies this`table, this`epochFlags, collection
      ensures Shape() && Abs() == old(Abs())[loc := Slot(e, false, recent)]
    {
      table := table[loc := e];
      collection.Unset(loc);
      epochFlags := epochFlags[loc := recent];
    }

    /** Puts an element into an occupied slot and takes the old one out. */
    method Exchange(loc: nat, e: E, recent: bool) returns (out: E, outRecent: bool)
      requires Shape() && loc < size
      modifies this`table, this`epochFlags
      ensures Shape() && Abs() == old(Abs())[loc := Slot(e, old(Abs())[loc].discard, recent)]
      ensures out == old(Abs())[loc].elem && outRecent == old(Abs())[loc].recent
    {
      out, outRecent := table[loc], epochFlags[loc];
      table, epochFlags := table[loc := e], epochFlags[loc := recent];
    }

    method FindElement(e: E, locs: seq<nat>) returns (k: nat)
      requires Shape() && |locs| == WAYS && forall j | 0 <= j < WAYS :: locs[j] < size
      ensures k == FindSame(Abs(), locs, e, 0)
    {
      k := 0;
      while k < WAYS && table[locs[k]] != e
        invariant k <= WAYS && FindSame(Abs(), locs, e, k) == FindSame(Abs(), locs, e, 0)
      {
        k := k + 1;
      }
    }

    method FindDiscardable(locs: seq<nat>) returns (k: nat)
      requires Shape() && |locs| == WAYS && forall j | 0 <= j < WAYS :: locs[j] < size
      ensures k == FindFree(Abs(), locs, 0)
    {
      k := 0;
      while k < WAYS && !collection.IsSet(locs[k])
        invariant k <= WAYS && FindFree(Abs(), locs, k) == FindFree(Abs(), locs, 0)
      {
        k := k + 1;
      }
    }

    /** An epoch check, then the insertion: the step Put of the table. What is live stays, but
        for the old elements if the epoch changes and for at most one that is dropped. */
    method Insert(e0: E) returns (ghost dropped: Option<E>)
      requires Valid()
      modifies this`table, this`epochFlags, this`counter, this`known, collection
      ensures Valid() && known == old(known) + {e0}
      ensures Inserted(old(Epoch(Abs(), counter)), epochSize, home, depthLimit, e0, blank, dropped,
              Epoch(Abs(), counter))
    {
      ghost var p := Epoch(Abs(), counter);
      ghost var c := CuckooTables.EpochCheck(p.table, p.counter, epochSize);
      ghost var q := Step(p, epochSize, home, depthLimit, Put(e0));
      dropped := PutAll(p, epochSize, home, depthLimit, e0, blank, known, c, q);
      known := known + {e0};
      InsertSteps(e0, c, q);
      assert Epoch(Abs(), counter) == q;
    }

    method InsertSteps(e0: E, ghost c: Epoch<E>, ghost q: Epoch<E>)
      requires Shape() && c == CuckooTables.EpochCheck(Abs(), counter, epochSize) && |c.table| == size
      requires q == Epoch(CuckooTables.Insert(c.table, home, e0, depthLimit).table, c.counter)
      modifies this`table, this`epochFlags, this`counter, collection
      ensures Shape() && Abs() == q.table && counter == q.counter
    {
      EpochCheck(c);
      InsertNow(e0, q.table);
    }

    method InsertNow(e: E, ghost r: seq<Slot<E>>)
      requires Shape() && r == CuckooTables.Insert(Abs(), home, e, depthLimit).table
      modifies this`table, this`epochFlags, collection
      ensures Shape() && Abs() == r
    {
      var locs := Locs(hash, size, e);
      var k := FindElement(e, locs);
      if k < WAYS {
        Place(locs[k], e, true);
      } else {
        DisplaceLoop(e);
      }
    }

    method DisplaceLoop(e0: E)
      requires Shape()
      modifies this`table, this`epochFlags, collection
      ensures Shape() && Abs() == Displace(Holding(old(Abs()), e0, true, -1), home, depthLimit).table
    {
      ghost var u0 := Holding(Abs(), e0, true, -1);
      ghost var us: seq<Hand<E>> := [u0];
      var e, lastEpoch, lastLoc: int := e0, true, -1;
      var depth := 0;
      var placed := false;
      while depth < depthLimit && !placed
        invariant 0 <= depth <= depthLimit && Shape()
        invariant |us| == depth + 1 && us[0] == u0 && IsTrace(us, home)
        invariant us[depth] == if placed then Placed(Abs()) else Holding(Abs(), e, lastEpoch, lastLoc)
      {
        ghost var v;
        placed, e, lastEpoch, lastLoc, v := TakeTurn(e, lastEpoch, lastLoc, us[depth]);
        TraceOn(us, home, v);
        us, depth := us + [v], depth + 1;
      }
      TraceEnd(us, home, depthLimit);
    }

    /** Fills a free slot with e, or takes the slot after the last one used. */
    method TakeTurn(e: E, recent: bool, last: int, ghost u: Hand<E>)
      returns (placed: bool, out: E, outRecent: bool, loc: nat, ghost v: Hand<E>)
      requires Shape() && u == Holding(Abs(), e, recent, last)
      modifies this`table, this`epochFlags, collection
      ensures Shape() && v == Turn(u, home)
      ensures v == if placed then Placed(Abs()) else Holding(Abs(), out, outRecent, loc)
    {
      v := Turn(u, home);
      var locs := Locs(hash, size, e);
      var k := FindDiscardable(locs);
      if k < WAYS {
        Place(locs[k], e, recent);
        placed, out, outRecent, loc := true, e, recent, locs[k];
        return;
      }
      placed, loc := false, locs[NextWay(locs, last)];
      out, outRecent := Exchange(loc, e, recent);
    }

    method AllowErase(loc: nat)
      requires Shape() && loc < size
      modifies collection
      ensures Shape() && Abs() == old(Abs())[loc := old(Abs())[loc].(discard := true)]
    {
      collection.Set(loc);
    }

    /** Every live element is found; an element asked to be erased may be overwritten from
        now on. */
    method Contains(e: E, erase: bool) returns (found: bool)
      requires Valid()
      modifies collection
      ensures Valid() && found == Found(old(Abs()), home, e) == Found(Abs(), home, e)
      ensures e in Live(old(Abs())) ==> found
      ensures found ==> e == blank || e in known
      ensures Epoch(Abs(), counter) == Step(old(Epoch(Abs(), counter)), epochSize, home, depthLimit, Look(e, erase))
    {
      StepGood(Epoch(Abs(), counter), epochSize, home, depthLimit, Look(e, erase));
      StepSound(Epoch(Abs(), counter), epochSize, home, depthLimit, Look(e, erase), blank, known);
      EraseHidesNone(Abs(), home, e, erase, e);
      if Found(Abs(), home, e) {
        FoundIsKnown(Epoch(Abs(), counter), home, blank, known, e);
      }
      if e in Live(Abs()) {
        LiveIsFound(Abs(), home, e);
      }
      var locs := Locs(hash, size, e);
      var k := FindElement(e, locs);
      if k < WAYS {
        if erase {
          AllowErase(locs[k]);
        }
        return true;
      }
      return false;
    }
  }
  method MarkFind<E(==,!new)>(c: Cache<E>, x: E) returns (r: bool)
    requires c.Valid()
    modifies c.collection
    ensures c.Valid() && r
  {
    r := c.Contains(x, true);
    if r {
      r := c.Contains(x, false);
    } else {
      r := true;
    }
  }

  /** Marking an element for collection does not hide it until its slot is needed: the law
      that the header gives for re-organisations. */
  method InsertMarkFind<E(==,!new)>(c: Cache<E>, x: E) returns (r: bool)
    requires c.Valid()
    modifies c`table, c`epochFlags, c`counter, c`known, c.collection
    ensures c.Valid() && r
  {
    ghost var dropped := c.Insert(x);
    r := MarkFind(c, x);
  }
}
