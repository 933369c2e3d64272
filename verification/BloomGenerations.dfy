/** The rolling Bloom filter. Every bit position holds a generation number from one
    to three, or zero; a new generation first wipes the positions that still hold
    its number. */
module BloomGenerations {
  import opened Basics

  /** A bit position: a pair of words and a bit in them. */
  type Pos = (nat, nat)

  /** The generation, counted from the start, and the entries it has. */
  datatype Clock = Clock(gen: nat, count: nat)

  /** The clock after t insertions, with e entries to a generation. */
  function ClockAt(e: nat, t: nat): Clock {
    if t == 0 then Clock(0, 0)
    else
      var c := ClockAt(e, t - 1);
      if c.count == e then Clock(c.gen + 1, 1) else Clock(c.gen, c.count + 1)
  }

  /** The number a generation goes by. */
  function Label(gen: nat): nat { gen % 3 + 1 }

  /** What a position holds after its number has been wiped, if it is the given one. */
  function Wiped(held: nat, g: nat): nat { if held == g then 0 else held }

  /** What position p holds after inserting the keys one after another. */
  function Holds<K>(e: nat, at: K -> set<Pos>, keys: seq<K>, p: Pos): nat {
    if keys == [] then 0
    else
      var t := |keys| - 1;
      var before := Holds(e, at, keys[..t], p);
      var g := Label(ClockAt(e, t + 1).gen);
      if p in at(keys[t]) then g
      else if ClockAt(e, t).count == e then Wiped(before, g)
      else before
  }

  // ------------------------------------------------------------- the true age

  /** The generation, counted from the start, in which p was last written, or -1 if
      it was never written or has been wiped since. */
  function Written<K>(e: nat, at: K -> set<Pos>, keys: seq<K>, p: Pos): int {
    if keys == [] then -1
    else
      var t := |keys| - 1;
      var before := Written(e, at, keys[..t], p);
      var k := ClockAt(e, t + 1).gen;
      if p in at(keys[t]) then k
      else if ClockAt(e, t).count == e && before == k - 3 then -1
      else before
  }

  /** Three numbers suffice: what a position holds tells its generation, because only
      the last three are ever present. */
  lemma {:induction false} LabelsTell<K>(e: nat, at: K -> set<Pos>, keys: seq<K>, p: Pos)
    ensures var a, k := Written(e, at, keys, p), ClockAt(e, |keys|).gen;
            && -1 <= a <= k && (a >= 0 ==> a >= k - 2)
            && Holds(e, at, keys, p) == if a < 0 then 0 else Label(a)
  {
    if keys != [] {
      LabelsTell(e, at, keys[..|keys| - 1], p);
    }
  }

  lemma {:induction false} GenGrows(e: nat, s: nat, t: nat)
    requires s <= t
    ensures ClockAt(e, s).gen <= ClockAt(e, t).gen
  {
    if s < t {
      GenGrows(e, s, t - 1);
    }
  }

  /** A position written for a key is still marked two generations later. */
  lemma {:induction false} StillWritten<K>(e: nat, at: K -> set<Pos>, keys: seq<K>, p: Pos, j: nat)
    requires j < |keys| && p in at(keys[j])
    requires ClockAt(e, j + 1).gen >= ClockAt(e, |keys|).gen - 2
    ensures Written(e, at, keys, p) >= ClockAt(e, j + 1).gen
  {
    var t := |keys| - 1;
    if j < t {
      GenGrows(e, t, t + 1);
      GenGrows(e, j + 1, t + 1);
      StillWritten(e, at, keys[..t], p, j);
    }
  }

  /** One generation lasts e insertions. */
  lemma {:induction false} GenShift(e: nat, t: nat)
    requires e >= 1 && t >= 1
    ensures ClockAt(e, t + e) == Clock(ClockAt(e, t).gen + 1, ClockAt(e, t).count)
  {
    if t == 1 {
      FirstGen(e, e);
    } else {
      GenShift(e, t - 1);
    }
  }

  lemma {:induction false} FirstGen(e: nat, t: nat)
    requires t <= e
    ensures ClockAt(e, t) == Clock(0, t)
  {
    if t > 0 {
      FirstGen(e, t - 1);
    }
  }

  /** Every key among the last n inserted is remembered at all its positions, where
      a generation has half of n entries, rounded up. */
  lemma Remembers<K>(n: nat, at: K -> set<Pos>, keys: seq<K>, j: nat, p: Pos)
    requires n >= 1 && j < |keys| && j + n >= |keys| && p in at(keys[j])
    ensures Holds((n + 1) / 2, at, keys, p) != 0
  {
    var e := (n + 1) / 2;
    GenShift(e, j + 1);
    GenShift(e, j + 1 + e);
    GenGrows(e, |keys|, j + 1 + e + e);
    StillWritten(e, at, keys, p, j);
    LabelsTell(e, at, keys, p);
  }

  // ------------------------------------------------------------- forgetting

  lemma Turns(e: nat, t: nat)
    requires e >= 1
    ensures (t + 1) / e == (if t % e == e - 1 then t / e + 1 else t / e)
    ensures (t + 1) % e == (if t % e == e - 1 then 0 else t % e + 1)
  {
    var q, r := t / e, t % e;
    assert t == q * e + r;
    if r == e - 1 {
      assert t + 1 == (q + 1) * e;
      Quotient(e, t + 1, q + 1, 0);
    } else {
      Quotient(e, t + 1, q, r + 1);
    }
  }

  lemma Quotient(e: nat, t: nat, q: nat, r: nat)
    requires t == q * e + r && r < e
    ensures t / e == q && t % e == r
  {
    var d := t / e - q;
    assert d * e == r - t % e;
    assert (d > 0 ==> d * e >= e) && (d < 0 ==> d * e <= 0 - e);
  }

  /** Every e insertions the generation changes. */
  lemma {:induction false} ClockIs(e: nat, t: nat)
    requires e >= 1 && t >= 1
    ensures ClockAt(e, t) == Clock((t - 1) / e, (t - 1) % e + 1)
  {
    if t > 1 {
      ClockIs(e, t - 1);
      Turns(e, t - 2);
    }
  }

  /** A position that holds a generation was written by a key of that generation. */
  lemma {:induction false} WrittenBy<K>(e: nat, at: K -> set<Pos>, keys: seq<K>, p: Pos) returns (j: nat)
    requires Written(e, at, keys, p) >= 0
    ensures j < |keys| && p in at(keys[j]) && ClockAt(e, j + 1).gen == Written(e, at, keys, p)
  {
    j := |keys| - 1;
    if p !in at(keys[j]) {
      var before := keys[..j];
      j := WrittenBy(e, at, before, p);
    }
  }

  /** How many of t keys are in the last three generations, of e keys each. */
  function Recent(e: nat, t: nat): (r: nat)
    requires e >= 1
  {
    if t == 0 then 0 else Min(t, 2 * e + (t - 1) % e + 1)
  }

  lemma RecentGen(e: nat, t: nat, j: nat)
    requires e >= 1 && j < t
    ensures t - Recent(e, t) <= j <==> j / e >= (t - 1) / e - 2
  {
    var q, r := (t - 1) / e, (t - 1) % e;
    var k, i := j / e, j % e;
    assert t - 1 == q * e + r && j == k * e + i;
    var d := k - (q - 2);
    assert j - (t - 2 * e - r - 1) == d * e + i;
    if d >= 0 {
      assert d * e >= 0;
    } else {
      assert d * e <= 0 - e;
    }
  }

  /** A position is marked exactly when a key of the last three generations has it. */
  lemma {:induction false} HeldIff<K>(e: nat, at: K -> set<Pos>, keys: seq<K>, p: Pos)
    requires e >= 1
    ensures Holds(e, at, keys, p) != 0 <==>
            exists j | |keys| - Recent(e, |keys|) <= j < |keys| :: p in at(keys[j])
  {
    var t := |keys|;
    LabelsTell(e, at, keys, p);
    if Holds(e, at, keys, p) != 0 {
      var j := WrittenBy(e, at, keys, p);
      ClockIs(e, j + 1);
      ClockIs(e, t);
      RecentGen(e, t, j);
    }
    if j :| t - Recent(e, t) <= j < t && p in at(keys[j]) {
      ClockIs(e, j + 1);
      ClockIs(e, t);
      RecentGen(e, t, j);
      StillWritten(e, at, keys, p, j);
    }
  }
}
