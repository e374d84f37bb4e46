/** The arithmetic of the binary counter that `list_sort` keeps in `part[]`: which consumed nodes each level holds,
    and what the merges cost. */
module SortCounter {
  import opened Arith

  /** Index of the last usable slot; MAX_LIST_LENGTH_BITS is 20 and slot 20 is the sentinel. */
  const TOP: nat := 19
  const SLOTS: nat := 21
  /** 2^TOP: nodes that reach the top slot together. */
  const BLOCK: nat := 0x8_0000

  ghost function Shr(n: nat, l: nat): nat {
    if l == 0 then n else Shr(n / 2, l - 1)
  }

  /** `n` with its low `l` bits cleared. */
  ghost function Clear(n: nat, l: nat): (r: nat)
    ensures n - Pow2(l) < r <= n
  {
    if l == 0 then n else 2 * Clear(n / 2, l - 1)
  }

  /** Levels `l` and above hold exactly the first `Bound(n, l)` of `n` consumed nodes. */
  ghost function Bound(n: nat, l: nat): (r: nat)
    ensures r <= n
  {
    if l <= TOP then Clear(n, l) else 0
  }

  /** Level `l` holds something. */
  ghost predicate Occupied(n: nat, l: nat) { Bound(n, l + 1) < Bound(n, l) }

  lemma {:induction false} ClearStep(n: nat, l: nat)
    ensures Clear(n, l) - Clear(n, l + 1) == if Shr(n, l) % 2 == 1 then Pow2(l) else 0
  {
    if l > 0 { ClearStep(n / 2, l - 1); }
  }

  lemma {:induction false} ClearZero(n: nat, l: nat)
    requires n < Pow2(l)
    ensures Clear(n, l) == 0
  {
    if l > 0 { ClearZero(n / 2, l - 1); }
  }

  /** Levels never overlap. */
  lemma {:induction false} BoundMonotone(n: nat, k: nat, l: nat)
    requires k <= l
    ensures Bound(n, l) <= Bound(n, k)
  {
    if k < l {
      BoundMonotone(n, k, l - 1);
      ClearStep(n, l - 1);
    }
  }

  /** Level `l` below the top is occupied exactly when bit `l` of the count is set, and then holds 2^l nodes;
      below 2^20 consumed nodes the same holds of the top level. */
  lemma LevelIsBit(n: nat, l: nat)
    requires l <= TOP && (l == TOP ==> n < Pow2(TOP + 1))
    ensures Bound(n, l) - Bound(n, l + 1) == if Shr(n, l) % 2 == 1 then Pow2(l) else 0
  {
    ClearStep(n, l);
    if l == TOP { ClearZero(n, TOP + 1); }
  }

  ghost predicate Full(n: nat, l: nat) { n - Clear(n, l) == Pow2(l) - 1 }

  lemma {:induction false} ClearSucc(n: nat, l: nat)
    ensures Clear(n + 1, l) == if Full(n, l) then n + 1 else Clear(n, l)
  {
    if l > 0 {
      ClearSucc(n / 2, l - 1);
      assert (n + 1) / 2 == if n % 2 == 1 then n / 2 + 1 else n / 2;
    }
  }

  lemma {:induction false} FullDown(n: nat, k: nat, l: nat)
    requires k <= l && Full(n, l)
    ensures Full(n, k)
  {
    if k < l { ClearStep(n, l - 1); FullDown(n, k, l - 1); }
  }

  /** When levels 0..lev-1 are all occupied, a carry that climbs them has consumed the low bits. */
  lemma {:induction false} FullBelow(n: nat, lev: nat)
    requires lev <= TOP
    requires forall k :: 0 <= k < lev ==> Occupied(n, k)
    ensures Full(n, lev)
  {
    if lev > 0 {
      FullBelow(n, lev - 1);
      ClearStep(n, lev - 1);
      assert Occupied(n, lev - 1);
    }
  }

  /** The levels after a carry to `lev`: everything up to `lev` moved there, everything above stayed. */
  lemma BoundCarry(n: nat, lev: nat, k: nat)
    requires lev <= TOP && Full(n, lev)
    requires lev < TOP ==> !Occupied(n, lev)
    ensures Bound(n + 1, k) == if k <= lev then n + 1 else Bound(n, k)
  {
    ClearSucc(n, k);
    ClearStep(n, lev);
    if k <= lev {
      FullDown(n, k, lev);
    } else if k <= TOP && Full(n, k) {
      FullDown(n, lev + 1, k);
      assert false;
    }
  }

  // ---------- cost ----------

  /** Nodes moved by the merges of one carry that climbs to `lev`. */
  ghost function CarryCost(n: nat, lev: nat): nat {
    if lev == 0 then 0 else CarryCost(n, lev - 1) + (n + 1 - Bound(n, lev))
  }

  ghost function SumBound(n: nat, lev: nat): nat {
    if lev == 0 then 0 else SumBound(n, lev - 1) + Bound(n, lev)
  }

  ghost function Blocks(n: nat): nat { Shr(n, TOP) }

  /** Nodes moved by the merges into the top slot, once it has overflowed: 2+3+..+blocks blocks. */
  ghost function Overflow(blocks: nat): nat {
    if blocks < 2 then 0 else Overflow(blocks - 1) + blocks * BLOCK
  }

  /** A lower bound on the same merges when the older run always wins: 1+2+..+(blocks-1) blocks. */
  ghost function OverflowLow(blocks: nat): nat {
    if blocks < 2 then 0 else OverflowLow(blocks - 1) + (blocks - 1) * BLOCK
  }

  lemma {:induction false} SumBoundCarry(n: nat, lev: nat, top: nat)
    requires lev <= TOP && Full(n, lev) && lev <= top
    requires lev < TOP ==> !Occupied(n, lev)
    ensures SumBound(n + 1, top) == SumBound(n, top) + CarryCost(n, lev)
  {
    if lev < top {
      SumBoundCarry(n, lev, top - 1);
      BoundCarry(n, lev, top);
    } else {
      SumBoundFull(n, lev);
    }
  }

  lemma {:induction false} SumBoundFull(n: nat, lev: nat)
    requires Full(n, lev) && lev <= TOP
    ensures SumBound(n + 1, lev) == SumBound(n, lev) + CarryCost(n, lev)
  {
    if lev > 0 {
      FullDown(n, lev - 1, lev);
      SumBoundFull(n, lev - 1);
      ClearSucc(n, lev);
    }
  }

  lemma DoubleRight(a: nat, b: nat)
    ensures 2 * (a * b) == a * (2 * b)
  {
  }

  lemma {:induction false} ClearShr(n: nat, l: nat)
    ensures Clear(n, l) == Shr(n, l) * Pow2(l)
  {
    if l > 0 {
      ClearShr(n / 2, l - 1);
      DoubleRight(Shr(n, l), Pow2(l - 1));
    }
  }

  lemma Pow2Top()
    ensures Pow2(TOP) == BLOCK && Pow2(TOP + 1) == 0x10_0000
  {
    assert Pow2(5) == 32 && Pow2(10) == 1024 && Pow2(15) == 0x8000;
  }

  lemma TopBlocks(n: nat)
    ensures Bound(n, TOP) == Blocks(n) * BLOCK
  {
    ClearShr(n, TOP);
    Pow2Top();
    assert Shr(n, TOP) * Pow2(TOP) == Shr(n, TOP) * BLOCK;
  }

  /** The top slot grows by one block exactly when the carry reaches it. */
  lemma BlocksCarry(n: nat)
    ensures Blocks(n + 1) == if Full(n, TOP) then Blocks(n) + 1 else Blocks(n)
  {
    TopBlocks(n);
    TopBlocks(n + 1);
    ClearSucc(n, TOP);
    Pow2Top();
  }

  /** floor(log2 n) */
  ghost function Log2(n: nat): (r: nat)
    requires n > 0
    ensures Pow2(r) <= n < Pow2(r + 1)
  {
    if n == 1 then 0 else Log2(n / 2) + 1
  }

  lemma {:induction false} Log2Unique(n: nat, k: nat)
    requires Pow2(k) <= n < Pow2(k + 1)
    ensures Log2(n) == k
  {
    if Log2(n) < k { Pow2Monotone(Log2(n) + 1, k); }
    if Log2(n) > k { Pow2Monotone(k + 1, Log2(n)); }
  }

  /** The highest level ever used for `n` nodes. */
  ghost function MaxLev(n: nat): nat
    requires n > 0
  {
    if Log2(n) < TOP then Log2(n) else TOP
  }

  lemma BoundAboveMax(n: nat, l: nat)
    requires n > 0
    ensures l > MaxLev(n) ==> Bound(n, l) == 0
    ensures Bound(n, MaxLev(n)) > 0
  {
    if MaxLev(n) < l <= TOP {
      Pow2Monotone(Log2(n) + 1, l);
      ClearZero(n, l);
    }
    Pow2Monotone(MaxLev(n), Log2(n));
  }

  /** A bound on all calls of the callback for `n` nodes: carries, top-slot overflow, the closing merges, the last
      merge. */
  ghost function SortCost(n: nat): nat
    requires n > 0
  {
    SumBound(n, TOP) + Overflow(Blocks(n)) + Pow2(MaxLev(n) + 1) + n
  }

  lemma MulStep(l: nat, n: nat)
    requires l > 0
    ensures l * n == (l - 1) * n + n
  {}

  lemma {:induction false} SumBoundLimit(n: nat, l: nat, log: nat)
    requires n < Pow2(log + 1)
    ensures SumBound(n, l) <= (if l < log then l else log) * n
  {
    if l > 0 {
      SumBoundLimit(n, l - 1, log);
      if l > log { Pow2Monotone(log + 1, l); ClearZero(n, l); }
      else { MulStep(l, n); }
    }
  }

  /** Up to here the bound n*(floor(log2 n) + 3) holds for every comparison. */
  const LINEARITHMIC: nat := 7 * BLOCK

  lemma LogAtMostTop(n: nat)
    requires 0 < n < 2 * BLOCK
    ensures Log2(n) <= TOP && Overflow(Blocks(n)) == 0 && Pow2(MaxLev(n) + 1) <= 2 * n
  {
    Pow2Top();
    if Log2(n) > TOP { Pow2Monotone(TOP + 1, Log2(n)); }
    TopBlocks(n);
  }

  /** The promised O(n log n) holds with its constant while the top slot has overflowed at most five times. */
  lemma SortCostLogarithmic(n: nat)
    requires 0 < n < LINEARITHMIC
    ensures SortCost(n) <= n * (Log2(n) + 3)
  {
    if n < 2 * BLOCK { CheapBelow(n); } else { CheapAbove(n); }
  }

  lemma CheapBelow(n: nat)
    requires 0 < n < 2 * BLOCK
    ensures SortCost(n) <= n * (Log2(n) + 3)
  {
    hide *;
    LogAtMostTop(n);
    SumBoundUpTo(n, Log2(n));
    CostIs(n);
    MulAdd(n, Log2(n));
  }

  lemma CostIs(n: nat)
    requires n > 0
    ensures SortCost(n) == SumBound(n, TOP) + Overflow(Blocks(n)) + Pow2(MaxLev(n) + 1) + n
  {
  }

  lemma SumBoundUpTo(n: nat, log: nat)
    requires 0 < n && Log2(n) <= log
    ensures SumBound(n, TOP) <= log * n && SumBound(n, TOP) <= TOP * n
  {
    Pow2Monotone(Log2(n) + 1, log + 1);
    SumBoundLimit(n, TOP, log);
    MulMonotone(TOP, log, n);
    MulMonotone(log, TOP, n);
  }

  /** Blocks in the top slot, by count. */
  lemma BlocksBound(n: nat)
    ensures Blocks(n) * BLOCK <= n < Blocks(n) * BLOCK + BLOCK
  {
    TopBlocks(n);
    Pow2Top();
  }

  lemma CheapAbove(n: nat)
    requires 2 * BLOCK <= n < LINEARITHMIC
    ensures SortCost(n) <= n * (Log2(n) + 3)
  {
    hide SortCost, SumBound, Overflow, Log2, Pow2, MaxLev, Blocks;
    var b, log := Blocks(n), if n < 4 * BLOCK then 20 else 21;
    LogOfBlocks(n, log);
    BlocksBound(n);
    OverflowSmall();
    CostIs(n);
    SumBoundUpTo(n, log);
    FewBlocks(n, b, Overflow(b));
    MulAdd(n, log);
    MulStep(log, n);
  }

  lemma LogOfBlocks(n: nat, log: nat)
    requires 2 * BLOCK <= n < 8 * BLOCK && log == if n < 4 * BLOCK then 20 else 21
    ensures Log2(n) == log && Pow2(MaxLev(n) + 1) == 2 * BLOCK
  {
    Pow2Top();
    assert Pow2(TOP + 1) == 2 * BLOCK && Pow2(TOP + 2) == 4 * BLOCK && Pow2(TOP + 3) == 8 * BLOCK;
    Log2Unique(n, log);
  }

  lemma OverflowSmall()
    ensures Overflow(2) == 2 * BLOCK && Overflow(3) == 5 * BLOCK && Overflow(4) == 9 * BLOCK
    ensures Overflow(5) == 14 * BLOCK && Overflow(6) == 20 * BLOCK
  {
    assert Overflow(1) == 0;
    assert Overflow(2) == Overflow(1) + 2 * BLOCK;
    assert Overflow(3) == Overflow(2) + 3 * BLOCK;
    assert Overflow(4) == Overflow(3) + 4 * BLOCK;
    assert Overflow(5) == Overflow(4) + 5 * BLOCK;
  }

  lemma FewBlocks(n: nat, b: nat, o: nat)
    requires 2 * BLOCK <= n < LINEARITHMIC && b * BLOCK <= n < b * BLOCK + BLOCK
    requires o == (if b == 2 then 2 else if b == 3 then 5 else if b == 4 then 9 else if b == 5 then 14 else 20) * BLOCK
    ensures 20 * n + o + 2 * BLOCK <= (if n < 4 * BLOCK then 23 else 24) * n
  {
  }

  lemma MulAdd(n: nat, log: nat)
    ensures n * (log + 3) == log * n + 3 * n
  {}

  lemma {:induction false} OverflowLowClosed(blocks: nat)
    ensures 2 * OverflowLow(blocks) == blocks * (blocks - 1) * BLOCK
  {
    if blocks >= 2 {
      OverflowLowClosed(blocks - 1);
      assert blocks * (blocks - 1) == (blocks - 1) * (blocks - 2) + 2 * (blocks - 1);
    }
  }

  /** From here on the bound fails when all nodes compare equal. */
  const QUADRATIC: nat := 56 * BLOCK

  lemma {:induction false} Pow2Outgrows(k: nat)
    requires k >= 6
    ensures Pow2(k) >= 2 * k + 46
  {
    if k > 6 { Pow2Outgrows(k - 1); }
  }

  /** The top slot alone costs more than `c` for every node, when there are enough blocks. */
  lemma TopSlotCosts(n: nat, c: nat)
    requires Blocks(n) >= 2 * c + 2
    ensures OverflowLow(Blocks(n)) > n * c
  {
    var b := Blocks(n);
    OverflowLowClosed(b);
    BlocksBound(n);
    hide *;
    TopArithmetic(OverflowLow(b), n, b, c);
  }

  lemma TopArithmetic(o: nat, n: nat, b: nat, c: nat)
    requires 2 * o == b * (b - 1) * BLOCK && n < b * BLOCK + BLOCK && b >= 2 * c + 2
    ensures o > n * c
  {
    assert b * (b - 1) == (b + 1) * (b - 2) + 2;
    MulStep2(b + 1, b - 2, 2 * c);
    var x, y := b * (b - 1), (b + 1) * (2 * c);
    assert x > y;
    assert x * BLOCK > y * BLOCK;
    assert y * BLOCK == ((b + 1) * BLOCK) * (2 * c) by { Swap(b + 1, 2 * c, BLOCK); }
    MulMonotone(n, (b + 1) * BLOCK, 2 * c);
    assert n * (2 * c) == 2 * (n * c) by { Twice(n, c); }
  }

  lemma MulStep2(a: nat, b: nat, c: nat)
    requires b >= c
    ensures a * b >= a * c
  {
  }

  lemma Swap(a: nat, b: nat, c: nat)
    ensures a * b * c == (a * c) * b
  {
  }

  lemma Twice(n: nat, c: nat)
    ensures n * (2 * c) == 2 * (n * c)
  {
  }

  lemma {:induction false} LogSplit(n: nat, l: nat)
    requires Shr(n, l) > 0
    ensures n > 0 && Log2(n) == Log2(Shr(n, l)) + l
  {
    if l > 0 { LogSplit(n / 2, l - 1); }
  }

  /** From 56 * 2^19 nodes on the promised bound fails: when the older run always wins, the merges into the
      overflowing top slot alone cost more. */
  lemma TopSlotIsQuadratic(n: nat)
    requires n >= QUADRATIC
    ensures OverflowLow(Blocks(n)) > n * (Log2(n) + 3)
  {
    var b := Blocks(n);
    BlocksBound(n);
    assert b >= 56;
    LogSplit(n, TOP);
    ManyBlocks(b);
    TopSlotCosts(n, Log2(n) + 3);
  }

  lemma ManyBlocks(b: nat)
    requires b >= 56
    ensures b >= 2 * Log2(b) + 46
  {
    if b < 64 {
      assert Pow2(6) == 64 && Pow2(5) == 32 by { assert Pow2(3) == 8; }
      Log2Unique(b, 5);
    } else {
      LogAtLeast(b, 6);
      Pow2Outgrows(Log2(b));
    }
  }

  lemma LogAtLeast(b: nat, k: nat)
    requires b > 0 && Pow2(k) <= b
    ensures Log2(b) >= k
  {
    if Log2(b) < k { Pow2Monotone(Log2(b) + 1, k); }
  }

  lemma {:induction false} FourPow(c: nat)
    ensures Pow2(2 * c + 10) >= 4 * (c * c) + 60 * c + 2
  {
    if c <= 1 {
      assert Pow2(7) == 128;
      assert Pow2(10) >= 2 && Pow2(12) >= 66;
    } else {
      FourPow(c - 1);
      assert Pow2(2 * c + 10) == 4 * Pow2(2 * (c - 1) + 10);
      assert (c - 1) * (c - 1) == c * c - 2 * c + 1;
    }
  }

  lemma {:induction false} PowBeatsLine(c: nat, k: nat)
    requires k >= 2 * c + 10
    ensures Pow2(k) >= 2 * (c * (k + 20)) + 2
    decreases k
  {
    if k == 2 * c + 10 {
      FourPow(c);
      assert c * (k + 20) == 2 * (c * c) + 30 * c;
    } else {
      PowBeatsLine(c, k - 1);
      assert c * (k + 20) == c * (k - 1 + 20) + c;
    }
  }

  /** No constant makes the cost O(n log n). */
  lemma NoConstantFits(c: nat, n: nat)
    requires n >= Pow2(2 * c + 10) * BLOCK
    ensures OverflowLow(Blocks(n)) > c * n * (Log2(n) + 1)
  {
    var b, k := Blocks(n), 2 * c + 10;
    BlocksBound(n);
    assert b >= Pow2(k);
    LogSplit(n, TOP);
    LogAtLeast(b, k);
    PowBeatsLine(c, Log2(b));
    TopSlotCosts(n, c * (Log2(n) + 1));
    assert n * (c * (Log2(n) + 1)) == c * n * (Log2(n) + 1) by { Reorder(n, c, Log2(n) + 1); }
  }

  lemma Reorder(n: nat, c: nat, l: nat)
    ensures n * (c * l) == c * n * l
  {
  }
}
