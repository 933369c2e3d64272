/** The filter object. A word is modelled as its 64 bits; two words hold the low and
    the high bit of 64 generation numbers. */
module BloomFilters {
  import opened BloomGenerations

  type Word = s: seq<bool> | |s| == 64 witness seq(64, _ => false)

  type Hash32 = x: int | 0 <= x < 0x1_0000_0000

  function And(x: Word, y: Word): Word { seq(64, i requires 0 <= i < 64 => x[i] && y[i]) }

  function Or(x: Word, y: Word): Word { seq(64, i requires 0 <= i < 64 => x[i] || y[i]) }

  function Xor(x: Word, y: Word): Word { seq(64, i requires 0 <= i < 64 => x[i] != y[i]) }

  function Not(x: Word): Word { seq(64, i requires 0 <= i < 64 => !x[i]) }

  /** One bit, shifted left. */
  function Shl(v: bool, bit: nat): Word { seq(64, i requires 0 <= i < 64 => v && i == bit) }

  /** One bit, negated as a whole word: all ones or all zeros. */
  function Spread(v: bool): Word { seq(64, i requires 0 <= i < 64 => v) }

  predicate LowBit(gen: nat) { gen % 2 == 1 }

  predicate HighBit(gen: nat) { gen / 2 == 1 }

  /** The number two bits stand for. */
  function Number(low: bool, high: bool): nat { (if low then 1 else 0) + if high then 2 else 0 }

  lemma NumberOf(gen: nat)
    requires 1 <= gen <= 3
    ensures Number(LowBit(gen), HighBit(gen)) == gen
  {
  }

  /** A replacement for the remainder that keeps a hash's uniformity. */
  function FastMod(x: Hash32, n: nat): (r: nat)
    ensures n > 0 ==> r < n
  {
    FastModBound(x, n);
    var product: int := x * n;
    product / 0x1_0000_0000
  }

  lemma FastModBound(x: Hash32, n: nat)
    ensures 0 <= x * n && (n > 0 ==> x * n < 0x1_0000_0000 * n)
  {
  }

  /** The bit position a hash selects. */
  function PosOf(h: Hash32, size: nat): Pos { (FastMod(h, size) / 2, h % 64) }

  lemma InWindow(size: nat, x: int, low: nat, d: nat)
    requires 0 < size <= 0x400_0000 && d < 64 && x <= low * size < x + size
    ensures x <= (low + d) * size < x + 0x1_0000_0000
  {
    assert (low + d) * size == low * size + d * size;
    assert d * size <= 63 * size;
  }

  lemma InRange(size: nat, h: nat, w: nat)
    requires w < size && h * size < w * 0x1_0000_0000 + 0x1_0000_0000
    ensures h < 0x1_0000_0000
  {
    assert h >= 0x1_0000_0000 ==> h * size >= 0x1_0000_0000 * size;
  }

  /** No position is out of reach: some hash selects any given word and bit. */
  lemma {:induction false} EveryPosition(size: nat, w: nat, b: nat) returns (h: Hash32)
    requires 0 < size <= 0x400_0000 && w < size && b < 64
    ensures PosOf(h, size) == (w / 2, b)
  {
    var x: nat := w * 0x1_0000_0000;
    var low := (x + size - 1) / size;
    LeastAbove(x, size, low);
    var d := (b - low) % 64;
    InWindow(size, x, low, d);
    InRange(size, low + d, w);
    h := low + d;
    var product := h * size;
    assert product / 0x1_0000_0000 == w;
  }

  lemma LeastAbove(x: nat, d: nat, q: nat)
    requires d > 0 && q == (x + d - 1) / d
    ensures x <= q * d < x + d
  {
  }

  /** The positions of a key under the first n hash functions. */
  function Positions<K>(hash: (nat, K) -> Hash32, n: nat, size: nat, key: K): set<Pos> {
    if n == 0 then {} else Positions(hash, n - 1, size, key) + {PosOf(hash(n - 1, key), size)}
  }

  function At<K>(hash: (nat, K) -> Hash32, n: nat, size: nat): K -> set<Pos> {
    key => Positions(hash, n, size, key)
  }

  /** The generation number at a position. */
  function Held(data: seq<Word>, p: Pos): nat
    requires 2 * p.0 + 1 < |data| && p.1 < 64
  {
    Number(data[2 * p.0][p.1], data[2 * p.0 + 1][p.1])
  }

  ghost predicate HoldsAll(data: seq<Word>, what: Pos -> nat) {
    forall q: nat, b: nat | 2 * q + 1 < |data| && b < 64 :: Held(data, (q, b)) == what((q, b))
  }

  /** Every position that holds g from pair q0 on is as in the old data, below wiped. */
  ghost predicate WipedTo(data: seq<Word>, before: seq<Word>, g: nat, q0: nat) {
    && |data| == |before|
    && forall q: nat, b: nat | 2 * q + 1 < |data| && b < 64 ::
         Held(data, (q, b)) == if q < q0 then Wiped(Held(before, (q, b)), g) else Held(before, (q, b))
  }

  /** One pair of words more. */
  lemma WipedNext(next: seq<Word>, data: seq<Word>, before: seq<Word>, g: nat, q0: nat)
    requires WipedTo(data, before, g, q0) && |next| == |data| && 2 * q0 + 1 < |data|
    requires forall b: nat | b < 64 :: Held(next, (q0, b)) == Wiped(Held(data, (q0, b)), g)
    requires forall i | 0 <= i < |data| && i / 2 != q0 :: next[i] == data[i]
    ensures WipedTo(next, before, g, q0 + 1)
  {
  }

  /** Position p holds g, every other position what it did. */
  ghost predicate MarkedAt(data: seq<Word>, before: seq<Word>, p: Pos, g: nat) {
    && |data| == |before|
    && forall q: nat, b: nat | 2 * q + 1 < |data| && b < 64 ::
         Held(data, (q, b)) == if (q, b) == p then g else Held(before, (q, b))
  }

  /** The positions given hold g, the others what they did. */
  ghost predicate MarkedAll(data: seq<Word>, before: seq<Word>, ps: set<Pos>, g: nat) {
    && |data| == |before|
    && forall q: nat, b: nat | 2 * q + 1 < |data| && b < 64 ::
         Held(data, (q, b)) == if (q, b) in ps then g else Held(before, (q, b))
  }

  lemma MarkedNone(data: seq<Word>, g: nat)
    ensures MarkedAll(data, data, {}, g)
  {
  }

  lemma MarkedMore(data: seq<Word>, mid: seq<Word>, before: seq<Word>, ps: set<Pos>, p: Pos, g: nat)
    requires MarkedAll(mid, before, ps, g) && MarkedAt(data, mid, p, g)
    ensures MarkedAll(data, before, ps + {p}, g)
  {
  }

  /** Wiping when a generation ends, then marking, does what Holds says. */
  lemma InsertHolds<K>(e: nat, at: K -> set<Pos>, ks: seq<K>, key: K, ks2: seq<K>,
                       before: seq<Word>, mid: seq<Word>, data: seq<Word>, g: nat)
    requires ks2 == ks + [key] && |data| == |mid| == |before| && |data| % 2 == 0 && g == Label(ClockAt(e, |ks| + 1).gen)
    requires HoldsAll(before, p => Holds(e, at, ks, p))
    requires if ClockAt(e, |ks|).count == e then WipedTo(mid, before, g, |data| / 2) else mid == before
    requires MarkedAll(data, mid, at(key), g)
    ensures HoldsAll(data, p => Holds(e, at, ks2, p))
  {
    assert ks2[..|ks|] == ks;
    forall q: nat, b: nat | 2 * q + 1 < |data| && b < 64 ensures Held(data, (q, b)) == Holds(e, at, ks2, (q, b)) {
      assert Held(before, (q, b)) == Holds(e, at, ks, (q, b));
      assert q < |data| / 2;
    }
  }

  ghost predicate AllMarked(data: seq<Word>, ps: set<Pos>) {
    forall p | p in ps :: 2 * p.0 + 1 < |data| && p.1 < 64 && Held(data, p) != 0
  }

  lemma {:induction false} PositionIn<K>(hash: (nat, K) -> Hash32, i: nat, n: nat, size: nat, key: K)
    requires i < n
    ensures PosOf(hash(i, key), size) in Positions(hash, n, size, key)
  {
    if i < n - 1 {
      PositionIn(hash, i, n - 1, size, key);
    }
  }

  lemma {:induction false} PositionsInRange<K>(hash: (nat, K) -> Hash32, n: nat, size: nat, key: K)
    requires size >= 2 && size % 2 == 0
    ensures forall p | p in Positions(hash, n, size, key) :: 2 * p.0 + 1 < size && p.1 < 64
  {
    if n > 0 {
      PositionsInRange(hash, n - 1, size, key);
    }
  }

  /** The last n of a sequence, or all of it. */
  function Last<K>(keys: seq<K>, n: nat): seq<K> { if |keys| <= n then keys else keys[|keys| - n..] }

  lemma {:induction false} RecentMarked<K>(nElements: nat, hash: (nat, K) -> Hash32, n: nat, data: seq<Word>,
      keys: seq<K>, key: K)
    requires |data| >= 2 && |data| % 2 == 0 && nElements >= 1 && key in Last(keys, nElements)
    requires HoldsAll(data, p => Holds((nElements + 1) / 2, At(hash, n, |data|), keys, p))
    ensures AllMarked(data, Positions(hash, n, |data|, key))
  {
    var at := At(hash, n, |data|);
    var j :| 0 <= j < |keys| && j + nElements >= |keys| && keys[j] == key;
    PositionsInRange(hash, n, |data|, key);
    forall p | p in Positions(hash, n, |data|, key) ensures Held(data, p) != 0 {
      Remembers(nElements, at, keys, j, p);
      assert Held(data, (p.0, p.1)) == Holds((nElements + 1) / 2, at, keys, (p.0, p.1));
      assert p == (p.0, p.1);
    }
  }

  lemma {:induction false} PositionFrom<K>(hash: (nat, K) -> Hash32, n: nat, size: nat, key: K, p: Pos) returns (i: nat)
    requires p in Positions(hash, n, size, key)
    ensures i < n && PosOf(hash(i, key), size) == p
  {
    i := n - 1;
    if PosOf(hash(i, key), size) != p {
      i := PositionFrom(hash, n - 1, size, key, p);
    }
  }

  /** One of the keys has the position under one of the first n hash functions. */
  ghost predicate HasPosition<K>(hash: (nat, K) -> Hash32, n: nat, size: nat, keys: seq<K>, p: Pos) {
    exists j: nat, i: nat | j < |keys| && i < n :: PosOf(hash(i, keys[j]), size) == p
  }

  /** What the filter still knows: the keys of the last three generations, each of half of
      nElements entries, rounded up. */
  function LastThree<K>(nElements: nat, keys: seq<K>): seq<K>
    requires nElements >= 1
  {
    if keys == [] then [] else Last(keys, (nElements + 1) / 2 * 2 + (|keys| - 1) % ((nElements + 1) / 2) + 1)
  }

  /** Each position of the key is one of those keys' positions too. */
  ghost predicate Covered<K>(nElements: nat, hash: (nat, K) -> Hash32, n: nat, size: nat, keys: seq<K>, key: K)
    requires nElements >= 1
  {
    forall i: nat | i < n :: HasPosition(hash, n, size, LastThree(nElements, keys), PosOf(hash(i, key), size))
  }

  lemma {:induction false} HeldCovered<K>(nElements: nat, hash: (nat, K) -> Hash32, n: nat, size: nat, keys: seq<K>,
      last: seq<K>, p: Pos)
    requires nElements >= 1 && last == LastThree(nElements, keys)
    ensures Holds((nElements + 1) / 2, At(hash, n, size), keys, p) != 0 <==> HasPosition(hash, n, size, last, p)
  {
    var e := (nElements + 1) / 2;
    var at := At(hash, n, size);
    var from := |keys| - |last|;
    HeldIff(e, at, keys, p);
    assert |last| == Recent(e, |keys|);
    assert forall j | 0 <= j < |last| :: last[j] == keys[from + j];
    if Holds(e, at, keys, p) != 0 {
      var j :| from <= j < |keys| && p in at(keys[j]);
      var i := PositionFrom(hash, n, size, keys[j], p);
      assert last[j - from] == keys[j];
      assert PosOf(hash(i, last[j - from]), size) == p;
    }
    if HasPosition(hash, n, size, last, p) {
      var j: nat, i: nat :| j < |last| && i < n && PosOf(hash(i, last[j]), size) == p;
      PositionIn(hash, i, n, size, keys[from + j]);
      assert p in at(keys[from + j]);
    }
  }

  /** A key looks present exactly when the keys of the last three generations cover it. */
  lemma {:induction false} FoundIff<K>(nElements: nat, hash: (nat, K) -> Hash32, n: nat, data: seq<Word>, keys: seq<K>,
      key: K)
    requires |data| >= 2 && |data| % 2 == 0 && nElements >= 1
    requires HoldsAll(data, p => Holds((nElements + 1) / 2, At(hash, n, |data|), keys, p))
    ensures AllMarked(data, Positions(hash, n, |data|, key)) <==> Covered(nElements, hash, n, |data|, keys, key)
  {
    var size, ps := |data|, Positions(hash, n, |data|, key);
    var last := LastThree(nElements, keys);
    PositionsInRange(hash, n, size, key);
    forall p | p in ps ensures Held(data, p) != 0 <==> HasPosition(hash, n, size, last, p) {
      HeldCovered(nElements, hash, n, size, keys, last, p);
      assert p == (p.0, p.1);
    }
    if AllMarked(data, ps) {
      forall i: nat | i < n ensures HasPosition(hash, n, size, last, PosOf(hash(i, key), size)) {
        PositionIn(hash, i, n, size, key);
      }
    }
    if Covered(nElements, hash, n, size, keys, key) {
      forall p | p in ps ensures Held(data, p) != 0 {
        var i := PositionFrom(hash, n, size, key, p);
        assert HasPosition(hash, n, size, last, PosOf(hash(i, key), size));
      }
    }
  }

  class RollingBloomFilter<K(==)> {
    const nElements: nat
    const nEntriesPerGeneration: nat
    const nHashFuncs: nat
    var hash: (nat, K) -> Hash32
    var nEntriesThisGeneration: nat
    var nGeneration: nat
    var data: seq<Word>

    /** The keys inserted since the last reset. */
    ghost var keys: seq<K>

    ghost predicate Shape()
      reads this
    {
      |data| >= 2 && |data| % 2 == 0 && nEntriesPerGeneration == (nElements + 1) / 2
    }

    ghost function Expected(): Pos -> nat
      reads this
    {
      var e, at, ks := nEntriesPerGeneration, At(hash, nHashFuncs, |data|), keys;
      p => Holds(e, at, ks, p)
    }

    /** The object is what inserting its keys leads to. */
    ghost predicate Valid()
      reads this
    {
      && Shape() && HoldsAll(data, Expected())
      && nEntriesThisGeneration == ClockAt(nEntriesPerGeneration, |keys|).count
      && nGeneration == Label(ClockAt(nEntriesPerGeneration, |keys|).gen)
    }

    constructor (nElements: nat, nHashFuncs: nat, pairs: nat, hash: (nat, K) -> Hash32)
      requires pairs >= 1
      ensures Valid() && keys == [] && this.nElements == nElements && this.nHashFuncs == nHashFuncs
    {
      this.nElements, this.nHashFuncs, this.hash := nElements, nHashFuncs, hash;
      nEntriesPerGeneration := (nElements + 1) / 2;
      data := seq(2 * pairs, _ => Spread(false));
      keys, nEntriesThisGeneration, nGeneration := [], 0, 1;
    }

    /** Forgets everything and takes new hash functions. */
    method Reset(hash: (nat, K) -> Hash32)
      requires Valid()
      modifies this
      ensures Valid() && keys == [] && |data| == old(|data|) && this.hash == hash
    {
      this.hash := hash;
      keys, nEntriesThisGeneration, nGeneration := [], 0, 1;
      data := seq(|data|, _ => Spread(false));
    }

    /** Clears the positions that hold the number of the generation now starting. */
    method Wipe(gen: nat)
      requires Shape() && 1 <= gen <= 3
      modifies this`data
      ensures Shape() && WipedTo(data, old(data), gen, |data| / 2)
    {
      var mask1, mask2 := Spread(LowBit(gen)), Spread(HighBit(gen));
      NumberOf(gen);
      var p := 0;
      while p < |data|
        invariant 0 <= p <= |data| && p % 2 == 0 && Shape()
        invariant WipedTo(data, old(data), gen, p / 2)
      {
        var p1, p2 := data[p], data[p + 1];
        var mask := Or(Xor(p1, mask1), Xor(p2, mask2));
        ghost var was := data;
        data := data[p := And(p1, mask)][p + 1 := And(p2, mask)];
        WipedNext(data, was, old(data), gen, p / 2);
        p := p + 2;
      }
    }

    /** Writes the current generation's number at the position a hash selects. */
    method Mark(h: Hash32)
      requires Shape() && 1 <= nGeneration <= 3
      modifies this`data
      ensures Shape() && MarkedAt(data, old(data), PosOf(h, |data|), nGeneration)
    {
      var bit := h % 64;
      var pos := FastMod(h, |data|);
      var low, high := pos / 2 * 2, pos / 2 * 2 + 1;
      NumberOf(nGeneration);
      data := data[low := Or(And(data[low], Not(Shl(true, bit))), Shl(LowBit(nGeneration), bit))];
      data := data[high := Or(And(data[high], Not(Shl(true, bit))), Shl(HighBit(nGeneration), bit))];
    }

    method MarkAll(key: K)
      requires Shape() && 1 <= nGeneration <= 3
      modifies this`data
      ensures Shape() && |data| == old(|data|)
      ensures MarkedAll(data, old(data), Positions(hash, nHashFuncs, |data|, key), nGeneration)
    {
      ghost var before := data;
      MarkedNone(data, nGeneration);
      assert Progress(key, 0, before);
      var n := 0;
      while n < nHashFuncs
        invariant 0 <= n <= nHashFuncs && Shape() && |data| == |before|
        invariant Progress(key, n, before)
      {
        MarkNext(key, n, before);
        n := n + 1;
      }
    }

    /** The key's first n positions are marked. */
    ghost predicate Progress(key: K, n: nat, before: seq<Word>)
      reads this
    {
      MarkedAll(data, before, Positions(hash, n, |data|, key), nGeneration)
    }

    method MarkNext(key: K, n: nat, ghost before: seq<Word>)
      requires Shape() && 1 <= nGeneration <= 3
      requires Progress(key, n, before)
      modifies this`data
      ensures Shape() && |data| == old(|data|)
      ensures Progress(key, n + 1, before)
    {
      ghost var mid := data;
      Mark(hash(n, key));
      MarkedMore(data, mid, before, Positions(hash, n, |data|, key), PosOf(hash(n, key), |data|), nGeneration);
    }

    method Insert(key: K)
      requires Valid()
      modifies this`data, this`keys, this`nEntriesThisGeneration, this`nGeneration
      ensures Valid() && keys == old(keys) + [key] && |data| == old(|data|)
    {
      if nEntriesThisGeneration == nEntriesPerGeneration {
        nEntriesThisGeneration := 0;
        nGeneration := nGeneration + 1;
        if nGeneration == 4 {
          nGeneration := 1;
        }
        Wipe(nGeneration);
      }
      ghost var mid := data;
      nEntriesThisGeneration := nEntriesThisGeneration + 1;
      MarkAll(key);
      ghost var at := At(hash, nHashFuncs, |data|);
      keys := keys + [key];
      InsertHolds(nEntriesPerGeneration, at, old(keys), key, keys, old(data), mid, data, nGeneration);
    }

    /** True for every one of the last nElements keys, and otherwise exactly when each
        position of the key is one of a key of the last three generations. */
    method Contains(key: K) returns (found: bool)
      requires Valid()
      ensures found == AllMarked(data, Positions(hash, nHashFuncs, |data|, key))
      ensures nElements >= 1 && key in Last(keys, nElements) ==> found
      ensures nElements >= 1 ==> (found <==> Covered(nElements, hash, nHashFuncs, |data|, keys, key))
    {
      found := AllBitsSet(key);
      if nElements >= 1 && key in Last(keys, nElements) {
        RecentMarked(nElements, hash, nHashFuncs, data, keys, key);
      }
      if nElements >= 1 {
        FoundIff(nElements, hash, nHashFuncs, data, keys, key);
      }
    }

    method AllBitsSet(key: K) returns (found: bool)
      requires Shape()
      ensures found == AllMarked(data, Positions(hash, nHashFuncs, |data|, key))
    {
      var n := 0;
      while n < nHashFuncs
        invariant 0 <= n <= nHashFuncs && AllMarked(data, Positions(hash, n, |data|, key))
      {
        var h := hash(n, key);
        var bit := h % 64;
        var pos := FastMod(h, |data|);
        var low, high := pos / 2 * 2, pos / 2 * 2 + 1;
        if !Or(data[low], data[high])[bit] {
          PositionIn(hash, n, nHashFuncs, |data|, key);
          assert Held(data, PosOf(h, |data|)) == 0;
          return false;
        }
        n := n + 1;
      }
      return true;
    }
  }
}
