/** The marking loop of cpulist_parse() (cpuset.c): `while (a <= b) { ...; a += s; }` with unsigned ints, which wrap. */
module CpuRange {
  import opened Arith
  import opened CNumber

  /** `a` after `k` rounds. */
  function Walk(a: nat, s: nat, k: nat): (r: nat)
    ensures r < TWO32
  {
    (a + k * s) % TWO32
  }

  /** The first round, from `k` on, whose number is above `b`; 2^32 if there is none before the walk repeats. */
  ghost function FirstAbove(a: nat, b: int, s: nat, k: nat): (n: nat)
    requires k <= TWO32
    ensures k <= n <= TWO32 && (n < TWO32 ==> Walk(a, s, n) > b) && forall j :: k <= j < n ==> Walk(a, s, j) <= b
    decreases TWO32 - k
  {
    if k == TWO32 || Walk(a, s, k) > b then k else FirstAbove(a, b, s, k + 1)
  }

  /** The numbers of the first `n` rounds. */
  ghost function Walked(a: nat, s: nat, n: nat): set<nat> { set k: nat | k < n :: Walk(a, s, k) }

  /** What a range up to `b` marks. */
  ghost function Visited(a: nat, b: int, s: nat): set<nat> { Walked(a, s, FirstAbove(a, b, s, 0)) }

  ghost predicate Leaves(a: nat, b: nat, s: nat) { exists k: nat :: Walk(a, s, k) > b }

  /** The greatest power of two that divides `s`: its greatest common divisor with 2^32. */
  function TwoPart(s: nat): (g: nat)
    requires s > 0
    ensures g > 0
  {
    if s % 2 == 1 then 1 else 2 * TwoPart(s / 2)
  }

  // ---------- arithmetic ----------

  lemma Twice(a: nat, b: nat)
    ensures 2 * (a * b) == (2 * a) * b
  {
  }

  lemma Pow32()
    ensures Pow2(32) == TWO32
  {
    assert Pow2(4) == 16 && Pow2(8) == 256;
    Pow2Parts(8, 8);
    Pow2Parts(16, 16);
  }

  /** `s` is its power of two times an odd number. */
  lemma {:induction false} TwoPartIs(s: nat) returns (v: nat, o: nat)
    requires s > 0
    ensures TwoPart(s) == Pow2(v) && s == Pow2(v) * o && o % 2 == 1
  {
    if s % 2 == 1 {
      v, o := 0, s;
    } else {
      v, o := TwoPartIs(s / 2);
      Twice(Pow2(v), o);
      v := v + 1;
    }
  }

  /** An odd number has an inverse modulo every power of two. */
  lemma {:induction false} Inverse(o: nat, m: nat) returns (i: nat, q: nat)
    requires o % 2 == 1
    ensures o * i == 1 + q * Pow2(m)
  {
    if m == 0 {
      i, q := 1, o - 1;
    } else {
      i, q := Inverse(o, m - 1);
      if q % 2 == 1 {
        Moved(o, i, q, Pow2(m - 1));
        i, q := i + Pow2(m - 1), q + o;
      }
      Halved(q, Pow2(m - 1));
      q := q / 2;
    }
  }

  lemma Moved(o: nat, i: nat, q: nat, p: nat)
    requires o * i == 1 + q * p
    ensures o * (i + p) == 1 + (q + o) * p
  {
  }

  lemma Halved(q: nat, p: nat)
    requires q % 2 == 0
    ensures q * p == q / 2 * (2 * p)
  {
  }

  // ---------- where the walk goes ----------

  /** `s` and 2^32 by their common power of two. */
  lemma Parts(s: nat) returns (g: nat, o: nat, m: nat, w: nat)
    requires 0 < s < TWO32
    ensures g == TwoPart(s) && s == g * o && TWO32 == g * m && m == Pow2(w) && o % 2 == 1
  {
    var v;
    v, o := TwoPartIs(s);
    Pow32();
    AtLeastOne(Pow2(v), o);
    Pow2Below(v, s, 32);
    g, w := Pow2(v), 32 - v;
    m := Pow2(w);
    Pow2Parts(v, w);
  }

  lemma AtLeastOne(g: nat, o: nat)
    requires o > 0
    ensures g <= g * o
  {
  }

  /** Every number of the walk is `a` modulo the common power of two, so none is above the last such number. */
  lemma StaysBelow(a: nat, s: nat, k: nat)
    requires 0 < s < TWO32
    ensures var g := TwoPart(s); Walk(a, s, k) % g == a % g && Walk(a, s, k) <= TWO32 - g + a % g
  {
    var g, o, m, w := Parts(s);
    var x, q := Turned(a, s, k);
    Residue(x, a, k, o, q, m, g);
    LastBlock(x, g, m);
  }

  lemma Turned(a: nat, s: nat, k: nat) returns (x: nat, q: nat)
    ensures x == Walk(a, s, k) < TWO32 && a + k * s == q * TWO32 + x
  {
    x, q := Walk(a, s, k), (a + k * s) / TWO32;
  }

  lemma Residue(x: nat, a: nat, k: nat, o: nat, q: nat, m: nat, g: nat)
    requires g > 0 && a + k * (g * o) == q * (g * m) + x
    ensures x % g == a % g
  {
    var b, r := a / g, a % g;
    assert a == b * g + r;
    Grouped(b, k, o, q, m, g);
    DivUnique(x, g, b + k * o - q * m, r);
  }

  lemma Grouped(b: nat, k: nat, o: nat, q: nat, m: nat, g: nat)
    ensures b * g + k * (g * o) - q * (g * m) == (b + k * o - q * m) * g
  {
    assert k * (g * o) == k * o * g;
    assert q * (g * m) == q * m * g;
  }

  lemma LastBlock(x: nat, g: nat, m: nat)
    requires g > 0 && x < g * m
    ensures x <= g * m - g + x % g
  {
    MulMonotone(m, x / g, g);
    MulMonotone(x / g, m - 1, g);
  }

  /** The walk does reach that number. */
  lemma Reaches(a: nat, s: nat) returns (k: nat)
    requires 0 < s < TWO32 && a < TWO32
    ensures var g := TwoPart(s); Walk(a, s, k) == TWO32 - g + a % g
  {
    var g, o, m, w := Parts(s);
    LastBlock(a, g, m);
    var i, q := Inverse(o, w);
    BlockBelow(a, g, m);
    var d := m - 1 - a / g;
    k := i * d;
    Rounds(a, g, o, m, i, q, d);
    DivUnique(a + k * s, TWO32, d * q, TWO32 - g + a % g);
  }

  lemma BlockBelow(a: nat, g: nat, m: nat)
    requires g > 0 && a < g * m
    ensures a / g <= m - 1
  {
    MulMonotone(m, a / g, g);
  }

  lemma Rounds(a: nat, g: nat, o: nat, m: nat, i: nat, q: nat, d: int)
    requires g > 0 && o * i == 1 + q * m && d == m - 1 - a / g
    ensures a + i * d * (g * o) == d * q * (g * m) + g * m - g + a % g
  {
    assert i * d * (g * o) == g * d * (o * i);
    assert g * d * (1 + q * m) == g * d + g * d * (q * m);
    assert g * d * (q * m) == d * q * (g * m);
    assert g * d == g * m - g - g * (a / g);
  }

  /** Exactly when the loop leaves the range, whatever is marked. */
  lemma EndsIff(a: nat, b: nat, s: nat)
    requires 0 < s < TWO32 && a < TWO32
    ensures var g := TwoPart(s); Leaves(a, b, s) <==> TWO32 - g + a % g > b
  {
    var g := TwoPart(s);
    if k: nat :| Walk(a, s, k) > b { StaysBelow(a, s, k); }
    var k := Reaches(a, s);
  }

  /** With stride one, only a range up to the last number there is never ends. */
  lemma SingleSteps(a: nat, b: nat)
    requires a < TWO32
    ensures Leaves(a, b, 1) <==> b < TWO32 - 1
  {
    EndsIff(a, b, 1);
  }

  /** After 2^32 rounds the walk repeats: it leaves the range before that or never. */
  lemma EndsSoon(a: nat, b: nat, s: nat)
    ensures Leaves(a, b, s) <==> FirstAbove(a, b, s, 0) < TWO32
  {
    if k: nat :| Walk(a, s, k) > b {
      Repeats(a, s, k);
      assert Walk(a, s, k % TWO32) > b;
    }
  }

  lemma Repeats(a: nat, s: nat, k: nat)
    ensures Walk(a, s, k) == Walk(a, s, k % TWO32)
  {
    var r, q := k % TWO32, k / TWO32;
    var x, p := (a + r * s) % TWO32, (a + r * s) / TWO32;
    assert k * s == r * s + q * s * TWO32 by { Spread(r, q, s); }
    DivUnique(a + k * s, TWO32, p + q * s, x);
  }

  lemma Spread(r: nat, q: nat, s: nat)
    ensures (r + q * TWO32) * s == r * s + q * s * TWO32
  {
  }

  /** One more round. */
  lemma WalkNext(a: nat, s: nat, k: nat)
    ensures Walk(a, s, k + 1) == (Walk(a, s, k) + s) % TWO32
    ensures Walked(a, s, k + 1) == Walked(a, s, k) + {Walk(a, s, k)}
  {
    assert (k + 1) * s == k * s + s;
    var q, x := (a + k * s) / TWO32, Walk(a, s, k);
    var p, y := (x + s) / TWO32, (x + s) % TWO32;
    DivUnique(a + k * s + s, TWO32, q + p, y);
  }

  lemma WalkStart(a: nat, s: nat)
    requires a < TWO32
    ensures Walk(a, s, 0) == a && Walked(a, s, 0) == {}
  {
  }

  /** The numbers from `a` to `b`. */
  ghost function Between(a: nat, b: int): (r: set<nat>)
    requires -1 <= b
    ensures forall x: nat :: x in r <==> a <= x <= b
    decreases b + 1 - a
  {
    if a > b then {} else Between(a, b - 1) + {b}
  }

  /** Stride one marks the whole range. */
  lemma VisitedAll(a: nat, b: int)
    requires a < TWO32 && -1 <= b < TWO32 - 1
    ensures (b >= 0 ==> Leaves(a, b, 1)) && Visited(a, b, 1) == Between(a, b)
  {
    var n := if a <= b then b + 1 - a else 0;
    forall k: nat | k <= n ensures Walk(a, 1, k) == a + k { }
    assert Walk(a, 1, n) > b;
    var f := FirstAbove(a, b, 1, 0);
    assert f == n;
    forall x: nat | a <= x <= b ensures x in Walked(a, 1, n) { assert Walk(a, 1, x - a) == x; }
  }
}
