/** Partition alignment (alignment.c). Sizes and offsets are bytes, addresses count logical sectors; sums and products
    are taken modulo 2^64. */
module Align {
  import opened Arith

  const TWO64: nat := 0x1_0000_0000_0000_0000

  function Wrap(x: int): nat { x % TWO64 }

  /** `x & m` */
  function And(x: nat, m: nat): nat {
    if x == 0 || m == 0 then 0 else 2 * And(x / 2, m / 2) + (if x % 2 == 1 && m % 2 == 1 then 1 else 0)
  }

  datatype Cxt = Cxt(sectorSize: nat, phySectorSize: nat, minIoSize: nat, grain: nat, alignmentOffset: nat,
    firstLba: nat)

  /** The physical granularity. */
  function Phy(c: Cxt): nat { if c.phySectorSize > c.minIoSize then c.phySectorSize else c.minIoSize }

  function Granularity(c: Cxt): nat { if c.grain > Phy(c) then c.grain else Phy(c) }

  /** The common test of lba_is_aligned() and lba_is_phy_aligned(). */
  predicate OnBoundary(c: Cxt, lba: nat, granularity: nat)
    requires granularity > 0
  {
    var offset := And(Wrap(lba * c.sectorSize), granularity - 1);
    And(Wrap(granularity + c.alignmentOffset - offset), granularity - 1) == 0
  }

  predicate LbaIsAligned(c: Cxt, lba: nat)
    requires Granularity(c) > 0
  {
    OnBoundary(c, lba, Granularity(c))
  }

  predicate LbaIsPhyAligned(c: Cxt, lba: nat)
    requires Phy(c) > 0
  {
    OnBoundary(c, lba, Phy(c))
  }

  datatype Direction = Up | Down | Nearest

  /** No division by zero. */
  predicate Callable(c: Cxt) {
    Phy(c) > 0 && c.sectorSize > 0 && c.grain >= c.sectorSize && c.alignmentOffset <= Phy(c)
  }

  /** The address rounded to whole grains. */
  function Grains(c: Cxt, lba: nat, direction: Direction, sects: nat): nat
    requires sects > 0
  {
    if lba < c.firstLba then c.firstLba
    else if direction.Up? then Wrap(Wrap(lba + sects) / sects * sects)
    else if direction.Down? then lba / sects * sects
    else Wrap(Wrap(lba + sects / 2) / sects * sects)
  }

  /** The alignment offset applied. */
  function Compensated(c: Cxt, lba: nat, direction: Direction, sects: nat, res: nat): nat
    requires Callable(c)
  {
    if c.alignmentOffset != 0 && !LbaIsAligned(c, res) && res > c.alignmentOffset / c.sectorSize then
      var moved := Wrap(res - (Phy(c) - c.alignmentOffset) / c.sectorSize);
      if direction.Up? && moved < lba then Wrap(moved + sects) else moved
    else res
  }

  /** fdisk_align_lba() */
  function AlignLba(c: Cxt, lba: nat, direction: Direction): nat
    requires Callable(c)
  {
    if LbaIsAligned(c, lba) then lba
    else
      var sects := Sects(c);
      Compensated(c, lba, direction, sects, Grains(c, lba, direction, sects))
  }

  /** Sectors in a grain. */
  function Sects(c: Cxt): (n: nat)
    requires Callable(c)
    ensures n > 0
  {
    c.grain / c.sectorSize
  }

  /** fdisk_align_lba_in_range() */
  function AlignInRange(c: Cxt, lba: nat, start: nat, stop: nat): nat
    requires Callable(c)
  {
    var lo, hi, at := AlignLba(c, start, Up), AlignLba(c, stop, Down), AlignLba(c, lba, Nearest);
    if at < lo then lo else if at > hi then hi else at
  }

  // ---------- masks are remainders ----------

  lemma {:induction false} AndMask(x: nat, k: nat)
    ensures And(x, Pow2(k) - 1) == x % Pow2(k)
  {
    if k > 0 {
      AndMask(x / 2, k - 1);
      var p := Pow2(k - 1);
      assert (2 * p - 1) / 2 == p - 1;
      HalfMod(x, p);
    }
  }

  lemma HalfMod(x: nat, p: nat)
    requires p > 0
    ensures x % (2 * p) == 2 * (x / 2 % p) + x % 2
  {
    var q, r := x / 2 / p, x / 2 % p;
    assert x / 2 == q * p + r;
    assert x == 2 * (q * p + r) + x % 2;
    assert 2 * (q * p) == q * (2 * p);
    DivUnique(x, 2 * p, q, 2 * r + x % 2);
  }

  /** 2^64 is a multiple of every smaller power of two. */
  lemma WrapMod(x: nat, k: nat)
    requires k <= 64
    ensures Wrap(x) % Pow2(k) == x % Pow2(k)
  {
    hide Pow2;
    Pow2Parts(k, 64 - k);
    SixtyFour();
    ModOfMultiple(x, Pow2(k), Pow2(64 - k));
  }

  lemma ModOfMultiple(x: nat, m: nat, n: nat)
    requires m > 0 && n > 0 && m * n > 0
    ensures x % (m * n) % m == x % m
  {
    var q, w := x / (m * n), x % (m * n);
    var q2, r := w / m, w % m;
    assert x == q * (m * n) + w && w == q2 * m + r;
    Distribute(q, q2, m, n);
    DivUnique(x, m, q * n + q2, r);
  }

  lemma Distribute(q: int, q2: int, m: int, n: int)
    ensures q * (m * n) + q2 * m == (q * n + q2) * m
  {
  }

  lemma SixtyFour()
    ensures Pow2(64) == TWO64
  {
    assert Pow2(8) == 0x100;
    Pow2Parts(8, 8);
    Pow2Parts(16, 16);
    Pow2Parts(32, 32);
  }

  // ---------- everything in sectors ----------

  /** Power-of-two sizes, each a multiple of the one before; a compensation of whole sectors, below one physical
      block. */
  ghost predicate Sizes(c: Cxt, i: nat, j: nat, k: nat) {
    && i + j + k < 64 && c.sectorSize == Pow2(i) && Phy(c) == Pow2(i + j) && c.grain == Pow2(i + j + k)
    && c.alignmentOffset % c.sectorSize == 0 && c.alignmentOffset < Phy(c)
  }

  /** (lba * sector) mod (s * sector) is (lba mod s) sectors. */
  lemma ScaleMod(lba: nat, s: nat, unit: nat)
    requires s > 0 && unit > 0 && s * unit > 0
    ensures lba * unit % (s * unit) == lba % s * unit
  {
    var q, r := lba / s, lba % s;
    assert lba == q * s + r;
    Scaled(q, s, r, unit);
    Below(r, s, unit);
    DivUnique(lba * unit, s * unit, q, r * unit);
  }

  lemma Scaled(q: nat, s: nat, r: nat, unit: nat)
    ensures (q * s + r) * unit == q * (s * unit) + r * unit
  {
  }

  lemma Below(r: nat, s: nat, unit: nat)
    requires r < s && unit > 0
    ensures r * unit < s * unit
  {
    AtLeast(s - r, unit);
    assert (s - r) * unit == s * unit - r * unit;
  }

  /** The masks test whether an address is at the compensation modulo the granularity. */
  lemma BoundaryIs(c: Cxt, lba: nat, m: nat, s: nat, a: nat)
    requires m < 64 && c.sectorSize > 0 && Pow2(m) == s * c.sectorSize && s > 0
      && c.alignmentOffset == a * c.sectorSize && a < s
    ensures OnBoundary(c, lba, Pow2(m)) <==> lba % s == a
  {
    hide And, Pow2;
    var g, unit := Pow2(m), c.sectorSize;
    Pow2Small(m);
    WrapMod(lba * unit, m);
    AndMask(Wrap(lba * unit), m);
    ScaleMod(lba, s, unit);
    var r := lba % s;
    Below(r, s, unit);
    Below(a, s, unit);
    var offset := r * unit;
    assert And(Wrap(lba * unit), g - 1) == offset;
    var d := g + a * unit - offset;
    AndMask(Wrap(d), m);
    WrapMod(d, m);
    assert And(Wrap(d), g - 1) == d % g;
    ZeroWhenEqual(a, r, s, unit, g, d);
  }

  lemma ZeroWhenEqual(a: nat, r: nat, s: nat, unit: nat, g: nat, d: nat)
    requires a < s && r < s && unit > 0 && g == s * unit && d == g + a * unit - r * unit && r * unit < g && a * unit < g
    ensures d % g == 0 <==> r == a
  {
    if r == a {
      DivUnique(d, g, 1, 0);
    } else if r < a {
      Below(r, a, unit);
      DivUnique(d, g, 1, a * unit - r * unit);
    } else {
      Below(a, r, unit);
      DivUnique(d, g, 0, d);
    }
  }

  lemma Pow2Small(m: nat)
    requires m <= 64
    ensures Pow2(m) <= TWO64
    decreases 64 - m
  {
    if m == 64 { SixtyFour(); } else { Pow2Small(m + 1); }
  }

  /** The numbers of the proof, in sectors: a physical block, a grain, the compensation. */
  datatype Units = Units(p: nat, s: nat, a: nat)

  ghost predicate InUnits(c: Cxt, u: Units) {
    && c.sectorSize > 0 && u.p > 0 && u.s > 0 && u.a < u.p <= u.s && u.s % u.p == 0
    && Phy(c) == u.p * c.sectorSize && c.grain == u.s * c.sectorSize && c.alignmentOffset == u.a * c.sectorSize
    && Granularity(c) == c.grain && Phy(c) > 0 && c.grain > 0
    && (forall lba: nat :: LbaIsAligned(c, lba) <==> lba % u.s == u.a)
    && (forall lba: nat :: LbaIsPhyAligned(c, lba) <==> lba % u.p == u.a)
    && c.grain / c.sectorSize == u.s && (Phy(c) - c.alignmentOffset) / c.sectorSize == u.p - u.a
      && c.alignmentOffset / c.sectorSize == u.a
  }

  lemma UnitsExist(c: Cxt, i: nat, j: nat, k: nat) returns (u: Units)
    requires Sizes(c, i, j, k)
    ensures InUnits(c, u) && u.p == Pow2(j) && u.s == Pow2(j + k)
  {
    hide *;
    SizesAre(c, i, j, k);
    var unit, p, s := Pow2(i), Pow2(j), Pow2(j + k);
    var a := c.alignmentOffset / unit;
    u := Units(p, s, a);
    DivUnique(s, p, Pow2(k), 0);
    Smaller(a, p, unit);
    Grain(c, unit, p, s);
    forall lba: nat ensures OnBoundary(c, lba, Pow2(i + j)) <==> lba % p == a { BoundaryIs(c, lba, i + j, p, a); }
    forall lba: nat ensures OnBoundary(c, lba, Pow2(i + j + k)) <==>
      lba % s == a { BoundaryIs(c, lba, i + j + k, s, a); }
    DivUnique(c.grain, unit, s, 0);
    Minus(p, a, unit);
    DivUnique(Phy(c) - c.alignmentOffset, unit, p - a, 0);
    UnitsAre(c, u, Pow2(i + j), Pow2(i + j + k));
  }

  lemma SizesAre(c: Cxt, i: nat, j: nat, k: nat)
    requires Sizes(c, i, j, k)
    ensures var unit, p, s := Pow2(i), Pow2(j), Pow2(j + k);
      && i + j + k < 64 && c.sectorSize == unit > 0 && p > 0 && s == Pow2(k) * p && p <= s && s > 0
      && Phy(c) == Pow2(i + j) == p * unit && c.grain == Pow2(i + j + k) == s * unit
      && c.alignmentOffset == c.alignmentOffset / unit * unit < p * unit
  {
    hide Pow2, Phy;
    assert i + (j + k) == i + j + k;
    Pow2Parts(i, j);
    Pow2Parts(i, j + k);
    Pow2Parts(j, k);
    var unit, p, s := Pow2(i), Pow2(j), Pow2(j + k);
    Commute(unit, p);
    Commute(unit, s);
    Commute(p, Pow2(k));
    AtLeast(Pow2(k), p);
    Quotient(c.alignmentOffset, unit);
  }

  lemma Commute(a: nat, b: nat)
    ensures a * b == b * a
  {
  }

  lemma UnitsAre(c: Cxt, u: Units, phy: nat, grain: nat)
    requires c.sectorSize > 0 && u.p > 0 && u.s > 0 && u.a < u.p <= u.s && u.s % u.p == 0
    requires Phy(c) == phy == u.p * c.sectorSize && c.grain == grain == u.s * c.sectorSize
      && c.alignmentOffset == u.a * c.sectorSize
    requires Granularity(c) == c.grain && phy > 0 && grain > 0
    requires forall lba: nat :: OnBoundary(c, lba, phy) <==> lba % u.p == u.a
    requires forall lba: nat :: OnBoundary(c, lba, grain) <==> lba % u.s == u.a
    requires c.grain / c.sectorSize == u.s && (Phy(c) - c.alignmentOffset) / c.sectorSize == u.p - u.a
      && c.alignmentOffset / c.sectorSize == u.a
    ensures InUnits(c, u)
  {
    hide OnBoundary;
  }

  lemma Minus(p: nat, a: nat, unit: nat)
    ensures p * unit - a * unit == (p - a) * unit
  {
  }

  lemma Smaller(a: nat, p: nat, unit: nat)
    requires a * unit < p * unit
    ensures a < p
  {
    MulLe(p, a, unit);
  }

  lemma MulLe(p: nat, a: nat, unit: nat)
    ensures p <= a ==> p * unit <= a * unit
  {
  }

  lemma Grain(c: Cxt, unit: nat, p: nat, s: nat)
    requires p <= s && Phy(c) == p * unit && c.grain == s * unit
    ensures Phy(c) <= c.grain && Granularity(c) == c.grain
  {
    assert (s - p) * unit == s * unit - p * unit;
  }

  // ---------- what is promised ----------

  /** An address past the first usable one, at least one grain from the beginning, one grain from the end. */
  ghost predicate Inside(c: Cxt, u: Units, lba: nat) {
    c.firstLba <= lba && u.s <= lba && lba + u.s < TWO64
  }

  /** fdisk_align_lba(), counted in sectors. */
  function Rounded(lba: nat, u: Units, direction: Direction): nat
    requires u.s > 0
  {
    if lba % u.s == u.a then lba
    else
      Shift(lba, u, direction, Times(lba, u, direction) * u.s)
  }

  lemma Quotient(lba: nat, s: nat)
    requires s > 0
    ensures lba == lba / s * s + lba % s && lba % s < s && (lba / s + 1) * s == lba / s * s + s
    ensures lba >= s ==> lba / s * s >= s
  {
    assert lba == lba / s * s + lba % s;
    assert lba / s == 0 ==> lba == lba % s;
    if lba / s >= 1 { AtLeast(lba / s, s); }
  }

  lemma UpQuotient(lba: nat, s: nat)
    requires s > 0
    ensures (lba + s) / s == lba / s + 1
  {
    Quotient(lba, s);
    DivUnique(lba + s, s, lba / s + 1, lba % s);
  }

  /** A multiple of the grain is not aligned when there is a compensation, and lies a whole number of grains apart. */
  lemma MultipleMod(q: nat, s: nat)
    requires s > 0
    ensures q * s % s == 0
  {
    DivUnique(q * s, s, q, 0);
  }

  /** Moving a multiple of the grain back by the compensation puts it on a physical block. */
  lemma MovedMod(q: nat, u: Units)
    requires u.p > 0 && u.s % u.p == 0 && 0 < u.a < u.p && q * u.s >= u.p - u.a
    ensures (q * u.s - (u.p - u.a)) % u.p == u.a
  {
    var n := u.s / u.p;
    assert u.s == n * u.p;
    var x := q * u.s - (u.p - u.a);
    Factor(q, n, u.p);
    DivUnique(x, u.p, q * n - 1, u.a);
  }

  lemma Factor(q: int, n: int, p: int)
    ensures q * (n * p) == (q * n) * p && (q * n - 1) * p == (q * n) * p - p
  {
  }

  /** The rounded address is on a physical block; rounding up stays within a grain, rounding down never goes up. */
  lemma RoundedIs(lba: nat, u: Units, direction: Direction)
    requires u.p > 0 && u.a < u.p <= u.s && u.s % u.p == 0 && lba >= u.s
    ensures var r := Rounded(lba, u, direction);
      && r % u.p == u.a
      && (direction.Up? ==> lba <= r < lba + u.s) && (direction.Down? ==> r <= lba) && r <= lba + u.s
  {
    Quotient(lba, u.s);
    if lba % u.s == u.a {
      AlignedTwice(lba, u);
    } else {
      var q := Times(lba, u, direction);
      TimesIs(lba, u, direction, q);
      OnBlock(q, u);
      OnBlock(q + 1, u);
      assert (q + 1) * u.s == q * u.s + u.s;
      assert Rounded(lba, u, direction) == Shift(lba, u, direction, q * u.s);
    }
  }

  /** How many grains the rounding leaves. */
  function Times(lba: nat, u: Units, direction: Direction): nat
    requires u.s > 0
  {
    if direction.Up? then lba / u.s + 1 else if direction.Down? then lba / u.s else (lba + u.s / 2) / u.s
  }

  /** The compensation applied to a whole number of grains. */
  function Shift(lba: nat, u: Units, direction: Direction, res: nat): nat {
    if u.a == 0 || res < u.p - u.a then res
    else
      var moved := res - (u.p - u.a);
      if direction.Up? && moved < lba then moved + u.s else moved
  }

  lemma TimesIs(lba: nat, u: Units, direction: Direction, q: nat)
    requires u.s > 0 && lba >= u.s && q == Times(lba, u, direction)
    ensures q * u.s >= u.s && q * u.s <= lba + u.s
    ensures direction.Up? ==> lba < q * u.s
    ensures direction.Down? ==> q * u.s <= lba
  {
    Quotient(lba, u.s);
    Quotient(lba + u.s / 2, u.s);
  }

  lemma AlignedTwice(lba: nat, u: Units)
    requires u.p > 0 && u.s > 0 && u.s % u.p == 0 && u.a < u.p && lba % u.s == u.a
    ensures lba % u.p == u.a
  {
    var n, q := u.s / u.p, lba / u.s;
    Quotient(lba, u.s);
    assert u.s == n * u.p;
    Factor(q, n, u.p);
    DivUnique(lba, u.p, q * n, u.a);
  }

  lemma OnBlock(q: nat, u: Units)
    requires u.p > 0 && u.s >= u.p > u.a && u.s % u.p == 0 && q * u.s >= u.s
    ensures u.a == 0 ==> q * u.s % u.p == 0
    ensures u.a > 0 ==> (q * u.s - (u.p - u.a)) % u.p == u.a
  {
    if u.a > 0 {
      MovedMod(q, u);
    } else {
      var n := u.s / u.p;
      assert u.s == n * u.p;
      Factor(q, n, u.p);
      DivUnique(q * u.s, u.p, q * n, 0);
    }
  }

  /** Away from both ends fdisk_align_lba() computes just that: no sum wraps around, and the compensation applies. */
  lemma AlignIsRounded(c: Cxt, u: Units, lba: nat, direction: Direction)
    requires InUnits(c, u) && Inside(c, u, lba)
    ensures Callable(c) && AlignLba(c, lba, direction) == Rounded(lba, u, direction)
  {
    assert lba >= u.s;
    hide *;
    InUnitsCallable(c, u);
    if lba % u.s != u.a {
      var q := Times(lba, u, direction);
      TimesIs(lba, u, direction, q);
      GrainsIs(c, u, lba, direction);
      CompensatedIs(c, u, lba, direction, q);
    }
    PiecesAre(c, u, lba, direction);
  }

  lemma InUnitsCallable(c: Cxt, u: Units)
    requires InUnits(c, u)
    ensures Callable(c) && Sects(c) == u.s > 0
  {
    hide LbaIsAligned, LbaIsPhyAligned;
    AtLeast(u.s, c.sectorSize);
    OffsetFits(c, u);
  }

  lemma PiecesAre(c: Cxt, u: Units, lba: nat, direction: Direction)
    requires InUnits(c, u) && Callable(c) && Sects(c) == u.s > 0
    ensures AlignLba(c, lba, direction) ==
      if lba % u.s == u.a then lba else Compensated(c, lba, direction, u.s, Grains(c, lba, direction, u.s))
    ensures Rounded(lba, u, direction) == if lba % u.s == u.a then lba
      else Shift(lba, u, direction, Times(lba, u, direction) * u.s)
  {
    hide LbaIsAligned, LbaIsPhyAligned, Compensated, Grains, Shift, Times, Callable;
  }

  lemma GrainsIs(c: Cxt, u: Units, lba: nat, direction: Direction)
    requires Inside(c, u, lba) && u.s > 0
    ensures Grains(c, lba, direction, u.s) == Times(lba, u, direction) * u.s
  {
    hide Wrap;
    UpQuotient(lba, u.s);
    var q := Times(lba, u, direction);
    TimesIs(lba, u, direction, q);
    WrapSmall(lba + u.s);
    WrapSmall(lba + u.s / 2);
    WrapSmall(q * u.s);
  }

  lemma WrapSmall(x: nat)
    ensures x < TWO64 ==> Wrap(x) == x
  {
  }

  lemma CompensatedIs(c: Cxt, u: Units, lba: nat, direction: Direction, q: nat)
    requires InUnits(c, u) && Callable(c) && Inside(c, u, lba) && u.s <= q * u.s <= lba + u.s
    ensures Compensated(c, lba, direction, u.s, q * u.s) == Shift(lba, u, direction, q * u.s)
  {
    hide *;
    var res := q * u.s;
    OffsetFacts(c, u, q, lba);
    if u.a > 0 {
      WrapSmall(res - (u.p - u.a));
      WrapSmall(res - (u.p - u.a) + u.s);
    }
    Applied(c, u, lba, direction, res);
  }

  lemma OffsetFacts(c: Cxt, u: Units, q: nat, lba: nat)
    requires InUnits(c, u) && Callable(c) && Inside(c, u, lba) && u.s <= q * u.s <= lba + u.s
    ensures (c.alignmentOffset == 0 <==> u.a == 0) && (LbaIsAligned(c, q * u.s) <==> u.a == 0) && c.sectorSize > 0
    ensures c.alignmentOffset / c.sectorSize == u.a && (Phy(c) - c.alignmentOffset) / c.sectorSize == u.p - u.a
    ensures u.a < u.p <= u.s && q * u.s < TWO64
    ensures u.a > 0 ==> q * u.s - (u.p - u.a) >= 0 && (q * u.s - (u.p - u.a) < lba ==>
      q * u.s - (u.p - u.a) + u.s < TWO64)
  {
    hide LbaIsPhyAligned, LbaIsAligned, Phy, Granularity, Callable;
    MultipleMod(q, u.s);
    OffsetFits(c, u);
  }

  lemma Applied(c: Cxt, u: Units, lba: nat, direction: Direction, res: nat)
    requires Callable(c) && c.sectorSize > 0 && u.a < u.p <= u.s <= res
    requires (c.alignmentOffset == 0 <==> u.a == 0) && (LbaIsAligned(c, res) <==> u.a == 0)
    requires c.alignmentOffset / c.sectorSize == u.a && (Phy(c) - c.alignmentOffset) / c.sectorSize == u.p - u.a
    requires u.a > 0 ==> var moved := res - (u.p - u.a);
      Wrap(moved) == moved && (moved < lba ==> Wrap(moved + u.s) == moved + u.s)
    ensures Compensated(c, lba, direction, u.s, res) == Shift(lba, u, direction, res)
  {
    hide LbaIsAligned, Wrap, Phy, Callable;
  }

  lemma OffsetFits(c: Cxt, u: Units)
    requires InUnits(c, u)
    ensures c.alignmentOffset <= Phy(c) && (c.alignmentOffset == 0 <==> u.a == 0)
  {
    MulLe(u.a, u.p, c.sectorSize);
    if u.a > 0 { AtLeast(u.a, c.sectorSize); }
  }

  /** The conditions on an address, in bytes. */
  ghost predicate Usable(c: Cxt, lba: nat)
    requires c.sectorSize > 0
  {
    c.firstLba <= lba && c.grain / c.sectorSize <= lba && lba + c.grain / c.sectorSize < TWO64
  }

  /** fdisk_align_lba(): always on a physical block; rounded up less than a grain, rounded down never up. */
  lemma AlignPromises(c: Cxt, lba: nat, direction: Direction, i: nat, j: nat, k: nat)
    requires Sizes(c, i, j, k) && c.sectorSize > 0 && Usable(c, lba)
    ensures Callable(c)
    ensures var r := AlignLba(c, lba, direction);
      && LbaIsPhyAligned(c, r)
      && (direction.Up? ==> lba <= r < lba + c.grain / c.sectorSize)
      && (direction.Down? ==> r <= lba)
  {
    hide *;
    var u := UnitsExist(c, i, j, k);
    UnitsInside(c, u, lba);
    AlignIsRounded(c, u, lba, direction);
    RoundedIs(lba, u, direction);
    PhyAligned(c, u, Rounded(lba, u, direction));
  }

  lemma UnitsInside(c: Cxt, u: Units, lba: nat)
    requires InUnits(c, u) && c.sectorSize > 0 && Usable(c, lba)
    ensures Inside(c, u, lba) && u.s == c.grain / c.sectorSize && u.p > 0 && u.a < u.p <= u.s && u.s % u.p == 0
      && lba >= u.s
  {
  }

  lemma PhyAligned(c: Cxt, u: Units, r: nat)
    requires InUnits(c, u) && u.p > 0 && r % u.p == u.a
    ensures Phy(c) > 0 && LbaIsPhyAligned(c, r)
  {
    hide LbaIsPhyAligned, LbaIsAligned;
  }

  /** fdisk_align_lba_in_range(): on a physical block and inside the given range, whenever the aligned range is not
      empty. */
  lemma InRangePromises(c: Cxt, lba: nat, start: nat, stop: nat, i: nat, j: nat, k: nat)
    requires Sizes(c, i, j, k) && c.sectorSize > 0 && Usable(c, lba) && Usable(c, start) && Usable(c, stop)
    ensures Callable(c)
    ensures var r := AlignInRange(c, lba, start, stop);
      && LbaIsPhyAligned(c, r)
      && (AlignLba(c, start, Up) <= AlignLba(c, stop, Down) ==> start <= r <= stop)
  {
    hide Sizes, Usable, AlignLba, LbaIsPhyAligned;
    AlignPromises(c, start, Up, i, j, k);
    AlignPromises(c, stop, Down, i, j, k);
    AlignPromises(c, lba, Nearest, i, j, k);
  }

  /** Below an aligned first usable address, every unaligned address goes there. */
  lemma BelowFirst(c: Cxt, lba: nat, direction: Direction)
    requires Callable(c) && lba < c.firstLba && !LbaIsAligned(c, lba) && LbaIsAligned(c, c.firstLba)
    ensures AlignLba(c, lba, direction) == c.firstLba
  {
    hide LbaIsAligned;
  }
}
