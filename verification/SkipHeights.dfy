/** The heights that skip pointers jump back to, and how many turns it takes to get from one
    height to another by them: at most the square of the number of bits of the height. */
module SkipHeights {

  /** The bitwise and of two naturals. */
  function BitAnd(x: nat, y: nat): (r: nat)
    ensures r <= x && r <= y
  {
    if x == 0 || y == 0 then 0
    else (if x % 2 == 1 && y % 2 == 1 then 1 else 0) + 2 * BitAnd(x / 2, y / 2)
  }

  /** Clears the lowest set bit. */
  function InvertLowestOne(n: nat): (r: nat)
    ensures r < n || n == 0 == r
  {
    if n == 0 then 0 else BitAnd(n, n - 1)
  }

  /** The height a skip pointer jumps back to. */
  function SkipHeight(height: nat): (r: nat)
    ensures r < height || height == 0 == r
  {
    if height < 2 then 0
    else if height % 2 == 1 then InvertLowestOne(InvertLowestOne(height - 1)) + 1
    else InvertLowestOne(height)
  }

  // ------------------------------------------------------- halves of skip heights

  lemma {:induction false} AndSelf(x: nat)
    ensures BitAnd(x, x) == x
  {
    if x > 0 {
      AndSelf(x / 2);
    }
  }

  /** Clearing the lowest set bit, by halves. */
  lemma {:induction false} InvertOdd(m: nat)
    ensures InvertLowestOne(2 * m + 1) == 2 * m
  {
    AndSelf(m);
  }

  lemma {:induction false} InvertEven(m: nat)
    ensures InvertLowestOne(2 * m) == 2 * InvertLowestOne(m)
  {
    if m > 0 {
      assert (2 * m - 1) / 2 == m - 1;
    }
  }

  /** The skip height of an even height clears a bit of its half, of an odd one two. */
  lemma {:induction false} SkipHalves(m: nat)
    ensures m > 0 ==> SkipHeight(2 * m) == 2 * InvertLowestOne(m)
    ensures m > 0 ==> SkipHeight(2 * m + 1) == 2 * InvertLowestOne(InvertLowestOne(m)) + 1
  {
    if m > 0 {
      InvertEven(m);
      InvertEven(InvertLowestOne(m));
    }
  }

  // --------------------------------------------------------- bits that differ

  /** The number of bits up to the highest in which m and u differ. */
  function Level(m: nat, u: nat): nat
    decreases m + u
  {
    if m == u then 0 else 1 + Level(m / 2, u / 2)
  }

  /** The number of set bits of m below that one. */
  function Low(m: nat, u: nat): nat
    decreases m + u
  {
    if m == u || m / 2 == u / 2 then 0 else m % 2 + Low(m / 2, u / 2)
  }

  lemma {:induction false} LowBelow(m: nat, u: nat)
    requires m != u
    ensures Low(m, u) < Level(m, u)
    decreases m + u
  {
    if m / 2 != u / 2 {
      LowBelow(m / 2, u / 2);
    }
  }

  /** Clearing the lowest set bit: one of those below, or else the highest that differs. */
  lemma {:induction false} Inverted(m: nat, u: nat, r: nat)
    requires m > u && r == InvertLowestOne(m)
    ensures Low(m, u) > 0 ==> r > u && Level(r, u) == Level(m, u) && Low(r, u) == Low(m, u) - 1
    ensures Low(m, u) == 0 ==> r <= u
    decreases m
  {
    var h := m / 2;
    if m % 2 == 1 {
      InvertOdd(h);
      assert r == 2 * h && r / 2 == h;
    } else {
      InvertEven(h);
      Inverted(h, u / 2, InvertLowestOne(h));
      assert r / 2 == InvertLowestOne(h) && r % 2 == 0;
    }
  }

  /** One less, with no set bit below the highest that differs: the level drops. */
  lemma {:induction false} DropsLevel(m: nat, u: nat)
    requires m > u && Low(m, u) == 0
    ensures m - 1 >= u && Level(m - 1, u) < Level(m, u)
    decreases m
  {
    var h := m / 2;
    if m % 2 == 1 {
      assert h == u / 2 && m - 1 == u;
    } else {
      DropsLevel(h, u / 2);
      assert (m - 1) / 2 == h - 1;
    }
  }

  lemma OddLess(m: nat, u: nat, h: nat, v: nat)
    requires m > u && Low(m, u) > 0 && m == 2 * h + 1 && v == u / 2
    ensures m - 1 > u && Level(m - 1, u) == Level(m, u) && Low(m - 1, u) == Low(m, u) - 1
  {
    assert m / 2 == h && (m - 1) / 2 == h;
  }

  /** One less, with a set bit among the last two. */
  lemma {:induction false} OneLess(m: nat, u: nat)
    requires m > u && Low(m, u) > 0 && m % 4 != 0
    ensures m - 1 > u && Level(m - 1, u) == Level(m, u) && Low(m - 1, u) <= Low(m, u)
  {
    var h, v := m / 2, u / 2;
    if m % 2 == 1 {
      OddLess(m, u, h, v);
    } else {
      assert h % 2 == 1 && (m - 1) / 2 == h - 1 && m == 2 * h;
      assert h > v && Low(h, v) > 0;
      OddLess(h, v, h / 2, v / 2);
    }
  }

  // ------------------------------------------------------------ one turn

  /** Whether the walk from n to t takes the skip pointer: it leads to t, or not below it and
      the one of the previous height is not better. */
  predicate Jumps(n: nat, t: nat)
    requires n > 0
  {
    var skip, skipPrev := SkipHeight(n), SkipHeight(n - 1);
    skip == t || (skip > t && !(skipPrev < skip - 2 && skipPrev >= t))
  }

  function NextHeight(n: nat, t: nat): nat
    requires n > 0
  {
    if Jumps(n, t) then SkipHeight(n) else n - 1
  }

  /** What is left to do from n to t, counted in turns. */
  function TurnsLeft(n: nat, t: nat): nat {
    if n <= t then 0
    else if n / 2 == t / 2 then 1
    else
      var l := Level(n / 2, t / 2);
      l * l + 2 * Low(n / 2, t / 2) + if n % 2 == 0 then 2 else if SkipHeight(n) >= t then 1 else 3
  }

  /** From an even height the previous pointer is better only near the end of its bits. */
  lemma {:induction false} PrevBetter(m: nat)
    requires m > 0 && m % 4 == 0
    ensures InvertLowestOne(InvertLowestOne(m - 1)) >= InvertLowestOne(m)
  {
    var q := m / 4;
    assert m == 2 * (2 * q) && m - 1 == 2 * (2 * q - 1) + 1 && 2 * q - 1 == 2 * (q - 1) + 1;
    InvertOdd(2 * q - 1);
    InvertEven(2 * q - 1);
    InvertOdd(q - 1);
    InvertEven(2 * q);
    InvertEven(q);
  }

  lemma NextSquare(k: nat, l: nat)
    requires k < l
    ensures k * k + 2 * k + 1 <= l * l
  {
    var d := l - (k + 1);
    assert l * l == (k + 1) * (k + 1) + d * (l + k + 1);
  }

  lemma SquarePositive(l: nat)
    requires l > 0
    ensures l * l >= 1
  {
  }

  lemma {:induction false} EvenJump(n: nat, t: nat, m: nat, u: nat, r: nat)
    requires n > t && n == 2 * m && u == t / 2 && Jumps(n, t) && r == SkipHeight(n)
    ensures t <= r < n && TurnsLeft(r, t) < TurnsLeft(n, t)
  {
    SkipHalves(m);
    var i := InvertLowestOne(m);
    Inverted(m, u, i);
    assert r == 2 * i && r / 2 == i;
  }

  lemma {:induction false} EvenLast(n: nat, t: nat, m: nat, u: nat, r: nat)
    requires n > t && n == 2 * m && u == t / 2 && Low(m, u) == 0 && r == n - 1
    ensures TurnsLeft(r, t) < TurnsLeft(n, t)
  {
    DropsLevel(m, u);
    SquarePositive(Level(m, u));
    assert r / 2 == m - 1 && r % 2 == 1;
    if m - 1 != u {
      LowBelow(m - 1, u);
      NextSquare(Level(m - 1, u), Level(m, u));
    }
  }

  /** Where the previous pointer is better, one of the last two bits of the half is set. */
  lemma {:induction false} BetterEnds(n: nat, m: nat)
    requires n == 2 * m && m > 0 && SkipHeight(n - 1) < SkipHeight(n) - 2
    ensures m % 4 != 0
  {
    if m % 4 == 0 {
      SkipHalves(m);
      SkipHalves(m - 1);
      PrevBetter(m);
    }
  }

  lemma {:induction false} SkipAbove(n: nat, t: nat, m: nat, u: nat)
    requires n == 2 * m && u == t / 2 && m > u && Low(m, u) > 0
    ensures SkipHeight(n) > t
  {
    SkipHalves(m);
    Inverted(m, u, InvertLowestOne(m));
  }

  lemma {:induction false} EvenBack(n: nat, t: nat, m: nat, u: nat, r: nat)
    requires n > t && n == 2 * m && u == t / 2 && m > u && Low(m, u) > 0 && r == n - 1 && m % 4 != 0
    requires SkipHeight(r) >= t
    ensures TurnsLeft(r, t) < TurnsLeft(n, t)
  {
    OneLess(m, u);
    assert r / 2 == m - 1 && r % 2 == 1 && n / 2 == m;
  }

  /** From an even height. */
  lemma {:induction false} EvenTurn(n: nat, t: nat, m: nat, u: nat, r: nat)
    requires n > t && n == 2 * m && u == t / 2 && r == NextHeight(n, t)
    ensures t <= r < n && TurnsLeft(r, t) < TurnsLeft(n, t)
  {
    if Jumps(n, t) {
      EvenJump(n, t, m, u, r);
    } else if Low(m, u) == 0 {
      EvenLast(n, t, m, u, r);
    } else {
      SkipAbove(n, t, m, u);
      BetterEnds(n, m);
      EvenBack(n, t, m, u, r);
    }
  }

  lemma {:induction false} OddJump(n: nat, t: nat, m: nat, u: nat, r: nat)
    requires n > t && n == 2 * m + 1 && u == t / 2 && m > u && r == SkipHeight(n) && r >= t
    ensures TurnsLeft(r, t) < TurnsLeft(n, t)
  {
    SkipHalves(m);
    var i := InvertLowestOne(m);
    var j := InvertLowestOne(i);
    assert r == 2 * j + 1 && r / 2 == j;
    Inverted(m, u, i);
    if i > u {
      Inverted(i, u, j);
    }
    SquarePositive(Level(m, u));
  }

  lemma {:induction false} OddBack(n: nat, t: nat, m: nat, u: nat, r: nat)
    requires n > t && n == 2 * m + 1 && u == t / 2 && m > u && r == n - 1 && SkipHeight(n) < t
    ensures t <= r < n && TurnsLeft(r, t) < TurnsLeft(n, t)
  {
    assert r / 2 == m && r % 2 == 0 && n / 2 == m && n % 2 == 1;
  }

  /** From an odd height the previous pointer is never so much better. */
  lemma {:induction false} OddNotBetter(n: nat, m: nat)
    requires n == 2 * m + 1 && m > 0
    ensures SkipHeight(n - 1) >= SkipHeight(n) - 2
  {
    SkipHalves(m);
  }

  /** From an odd height. */
  lemma {:induction false} OddTurn(n: nat, t: nat, m: nat, u: nat, r: nat)
    requires n > t && n == 2 * m + 1 && u == t / 2 && r == NextHeight(n, t)
    ensures t <= r < n && TurnsLeft(r, t) < TurnsLeft(n, t)
  {
    if m == u {
      if m > 0 {
        SkipHalves(m);
      }
    } else {
      OddNotBetter(n, m);
      if SkipHeight(n) >= t {
        OddJump(n, t, m, u, r);
      } else {
        OddBack(n, t, m, u, r);
      }
    }
  }

  /** Every turn leaves less to do. */
  lemma {:induction false} TurnLess(n: nat, t: nat)
    requires n > t
    ensures t <= NextHeight(n, t) < n && TurnsLeft(NextHeight(n, t), t) < TurnsLeft(n, t)
  {
    if n % 2 == 0 {
      EvenTurn(n, t, n / 2, t / 2, NextHeight(n, t));
    } else {
      OddTurn(n, t, n / 2, t / 2, NextHeight(n, t));
    }
  }

  // --------------------------------------------------------------- the bound

  /** The number of bits of n. */
  function BitsOf(n: nat): nat { if n == 0 then 0 else 1 + BitsOf(n / 2) }

  lemma {:induction false} LevelBits(m: nat, u: nat)
    requires m >= u
    ensures Level(m, u) <= BitsOf(m)
    decreases m
  {
    if m != u {
      LevelBits(m / 2, u / 2);
    }
  }

  lemma {:induction false} TurnsBound(n: nat, t: nat)
    ensures TurnsLeft(n, t) <= BitsOf(n) * BitsOf(n)
  {
    if n > t {
      SquarePositive(BitsOf(n));
      if n / 2 != t / 2 {
        LevelBits(n / 2, t / 2);
        LowBelow(n / 2, t / 2);
        NextSquare(Level(n / 2, t / 2), BitsOf(n));
      }
    }
  }
}
