/** Lists of numbers with ranges, such as 0,1,3-9: what they say, and how cpulist_parse() (cpuset.c) reads them. */
module CpuText {
  import opened Wrappers
  import opened CNumber
  import opened CacheText
  import opened CpuRange

  // ---------- runs ----------

  /** `first`, and how many numbers follow without a gap. */
  datatype Group = Group(first: nat, run: nat)

  /** The number that would continue a run. */
  function Next(g: Group): nat { g.first + g.run + 1 }

  /** One more number: it continues the last run or begins another. */
  function Extend(gs: seq<Group>, n: nat): (r: seq<Group>)
    ensures r != [] && r[|r| - 1].first + r[|r| - 1].run == n
  {
    if gs != [] && Next(gs[|gs| - 1]) == n then gs[..|gs| - 1] + [Group(gs[|gs| - 1].first, gs[|gs| - 1].run + 1)]
    else gs + [Group(n, 0)]
  }

  /** The runs of a sequence of numbers: maximal when the numbers increase. */
  function Groups(ns: seq<nat>): (gs: seq<Group>)
    ensures ns == [] <==> gs == []
  {
    if ns == [] then [] else Extend(Groups(ns[..|ns| - 1]), ns[|ns| - 1])
  }

  lemma GroupsSnoc(ns: seq<nat>, n: nat)
    ensures Groups(ns + [n]) == Extend(Groups(ns), n)
  {
    hide Extend;
    assert (ns + [n])[..|ns|] == ns;
  }

  lemma ExtendNew(gs: seq<Group>, n: nat)
    requires gs != [] ==> Next(gs[|gs| - 1]) != n
    ensures Extend(gs, n) == gs + [Group(n, 0)]
  {
  }

  lemma ExtendLast(gs: seq<Group>, g: Group)
    ensures Extend(gs + [g], Next(g)) == gs + [Group(g.first, g.run + 1)]
  {
    assert (gs + [g])[..|gs|] == gs;
  }

  // ---------- text ----------

  function Number(n: nat): string { Digits(n, 10) }

  /** The three snprintf() formats: one number, a pair, a range; each with its comma. */
  function GroupText(g: Group): string {
    if g.run == 0 then Number(g.first) + ","
    else if g.run == 1 then Number(g.first) + "," + Number(g.first + 1) + ","
    else Number(g.first) + "-" + Number(g.first + g.run) + ","
  }

  function GroupsText(gs: seq<Group>): string {
    if gs == [] then "" else GroupsText(gs[..|gs| - 1]) + GroupText(gs[|gs| - 1])
  }

  lemma GroupsTextSnoc(gs: seq<Group>, g: Group)
    ensures GroupsText(gs + [g]) == GroupsText(gs) + GroupText(g)
  {
    hide GroupText;
    assert (gs + [g])[..|gs|] == gs;
  }

  /** Without the last comma. */
  function DropComma(t: string): string { if t == "" then "" else t[..|t| - 1] }

  // ---------- cpulist_parse(), on values ----------

  /** sscanf("%u%c"): the number, capped at 2^64 - 1 and then taken modulo 2^32, and whether a character follows it. */
  function ScanU(s: string): Option<(nat, bool)> {
    var t := SkipBlank(s);
    var neg := t != "" && t[0] == '-';
    var u := if t != "" && (t[0] == '-' || t[0] == '+') then t[1..] else t;
    if u == "" || DigitVal(u[0]) >= 10 then None
    else
      var (v, rest) := Scan(u, 10, 0);
      Some(((if v >= TWO64 then TWO64 - 1 else if neg then TWO64 - v else v) % TWO32, rest != ""))
  }

  /** nexttoken(): the place behind the first separator, from place `i` on. */
  function NextToken(s: string, i: nat, sep: char): Option<nat>
    requires i <= |s|
  {
    var k := First(s[i..], sep);
    if i + k < |s| then Some(i + k + 1) else None
  }

  predicate Earlier(c1: Option<nat>, c2: Option<nat>) { c1.Some? && (c2.None? || c1.value < c2.value) }

  /** One list entry: begin, end and stride of a range, and whether the last number read was followed by a character. */
  datatype Range = BadRange | Range(a: nat, b: nat, s: nat, more: bool)

  function RangeAt(p: string): Range {
    match ScanU(p)
    case None => BadRange
    case Some((a, more)) =>
      var c1, c2 := NextToken(p, 0, '-'), NextToken(p, 0, ',');
      if !Earlier(c1, c2) then Range(a, a, 1, more)
      else match ScanU(p[c1.value..])
        case None => BadRange
        case Some((b, more2)) =>
          var c3 := NextToken(p, c1.value, ':');
          if !Earlier(c3, c2) then Range(a, b, 1, more2)
          else match ScanU(p[c3.value..])
            case None => BadRange
            case Some((s, more3)) => if s == 0 then BadRange else Range(a, b, s, more3)
  }

  /** Done: a return code, with the numbers set so far; Endless: a range whose loop never leaves it. */
  datatype Outcome = Done(rc: int, cpus: set<nat>) | Endless

  /** One round of the loop: the end, or the list from place `k` on with the numbers set so far. */
  datatype Round = Stop(out: Outcome) | Continue(k: nat, cpus: set<nat>)

  ghost function RoundAt(p: string, acc: set<nat>, max: nat, fail: bool): (r: Round)
    ensures r.Continue? ==> 0 < r.k <= |p|
  {
    match RangeAt(p)
    case BadRange => Stop(Done(1, acc))
    case Range(a, b, s, more) =>
      if a > b || s == 0 then Stop(Done(1, acc))
      else if fail && exists x :: x in Visited(a, b, s) && x >= max then Stop(Done(2, acc + Visited(a, max - 1, s)))
      else if !Leaves(a, b, s) then Stop(Endless)
      else
        var now := acc + Visited(a, b, s);
        match NextToken(p, 0, ',')
        case Some(k) => Continue(k, now)
        case None => Stop(Done(if more then 1 else 0, now))
  }

  ghost function ParseFrom(p: string, acc: set<nat>, max: nat, fail: bool): Outcome
    decreases |p|
  {
    match RoundAt(p, acc, max, fail)
    case Stop(out) => out
    case Continue(k, now) => ParseFrom(p[k..], now, max, fail)
  }

  // ---------- what is printed reads back ----------

  /** One number or one range. */
  datatype Item = Item(a: nat, b: nat)

  function ItemText(i: Item): string { if i.a == i.b then Number(i.a) else Number(i.a) + "-" + Number(i.b) }

  function ItemsText(its: seq<Item>): string {
    if its == [] then "" else ItemText(its[0]) + (if |its| == 1 then "" else "," + ItemsText(its[1..]))
  }

  function ItemsOf(gs: seq<Group>): seq<Item> {
    if gs == [] then [] else ItemsOf(gs[..|gs| - 1]) + GroupItems(gs[|gs| - 1])
  }

  function GroupItems(g: Group): seq<Item> {
    if g.run == 1 then [Item(g.first, g.first), Item(g.first + 1, g.first + 1)] else [Item(g.first, g.first + g.run)]
  }

  ghost predicate Items32(its: seq<Item>) { forall i :: 0 <= i < |its| ==> its[i].a <= its[i].b < TWO32 - 1 }

  lemma {:induction false} NumberPlain(n: nat)
    ensures forall i :: 0 <= i < |Number(n)| ==> '0' <= Number(n)[i] <= '9'
  {
    if n >= 10 {
      NumberPlain(n / 10);
      assert Number(n) == Number(n / 10) + [DigitChar(n - 10 * (n / 10))];
    }
  }

  lemma NumberReads(n: nat, t: string)
    requires n < TWO32 && (t == "" || DigitVal(t[0]) >= 10)
    ensures ScanU(Number(n) + t) == Some((n, t != ""))
  {
    hide Scan, Digits;
    FirstDigit(n, 10);
    ScanDigits(n, 10, t);
    ScanStops(10, n, t);
    var u := Number(n) + t;
    assert u[0] == Digits(n, 10)[0];
    assert SkipBlank(u) == u;
  }

  lemma {:induction false} FirstNone(s: string, c: char)
    requires NoChar(s, c)
    ensures First(s, c) == |s|
  {
  }

  lemma {:induction false} FirstAfter(s: string, c: char, t: string)
    requires NoChar(s, c)
    ensures First(s + t, c) == |s| + First(t, c)
  {
    if s == "" {
      assert s + t == t;
    } else {
      assert s[0] != c && NoChar(s[1..], c) by { assert forall i :: 0 <= i < |s| - 1 ==> s[1..][i] == s[i + 1]; }
      FirstAfter(s[1..], c, t);
      assert (s + t)[1..] == s[1..] + t && (s + t)[0] == s[0];
    }
  }

  /** A single number at the head of a list. */
  lemma SingleReads(n: nat, t: string)
    requires n < TWO32 && (t == "" || t[0] == ',')
    ensures RangeAt(Number(n) + t) == Range(n, n, 1, t != "")
    ensures NextToken(Number(n) + t, 0, ',') == if t == "" then None else Some(|Number(n)| + 1)
  {
    hide ScanU, Number;
    var p := Number(n) + t;
    CommaReads(n, t);
    NumberPlain(n);
    FirstAfter(Number(n), ',', t);
    FirstAfter(Number(n), '-', t);
    assert p[0..] == p;
    if t != "" {
      assert First(t, ',') == 0;
    }
  }

  /** A range at the head of a list without a colon. */
  lemma RangeReads(a: nat, b: nat, t: string)
    requires a < TWO32 && b < TWO32 && (t == "" || t[0] == ',') && NoChar(t, ':')
    ensures var p := Number(a) + "-" + Number(b) + t;
      RangeAt(p) == Range(a, b, 1, t != "") && NextToken(p, 0, ',') == if t == "" then None
        else Some(|Number(a)| + 1 + |Number(b)| + 1)
  {
    hide *;
    NumberPlain(a);
    NumberPlain(b);
    DashReads(a, Number(b) + t);
    CommaReads(b, t);
    RangeSplit(Number(a), Number(b), t);
    var x, y := Number(a), Number(b);
    RangeAtIs(x + "-" + y + t, |x| + 1, a, b, t != "");
  }

  /** A range with a stride at the head of a list; a stride of zero is an error. */
  lemma StrideReads(a: nat, b: nat, s: nat, t: string)
    requires a < TWO32 && b < TWO32 && s < TWO32 && (t == "" || t[0] == ',')
    ensures var p := StrideText(Number(a), Number(b), Number(s), t);
      && RangeAt(p) == (if s == 0 then BadRange else Range(a, b, s, t != ""))
      && NextToken(p, 0, ',') == (if t == "" then None else Some(|Number(a)| + |Number(b)| + |Number(s)| + 3))
  {
    hide *;
    var x, y, z := Number(a), Number(b), Number(s);
    var p := StrideText(x, y, z, t);
    NumberPlain(a);
    NumberPlain(b);
    NumberPlain(s);
    StrideSplit(x, y, z, t);
    DashReads(a, y + (":" + (z + t)));
    ColonReads(b, z + t);
    CommaReads(s, t);
    StrideAtIs(p, |x| + 1, |x| + |y| + 2, a, b, s, t != "");
  }

  /** x-y:z and the rest of the list */
  function StrideText(x: string, y: string, z: string, t: string): string {
    x + ("-" + (y + (":" + (z + t))))
  }

  lemma ColonReads(b: nat, t: string)
    requires b < TWO32
    ensures ScanU(Number(b) + (":" + t)) == Some((b, true))
  {
    assert DigitVal(':') >= 10 && (":" + t)[0] == ':';
    hide ScanU, Number, DigitVal;
    NumberReads(b, ":" + t);
  }

  lemma StrideAtIs(p: string, k: nat, l: nat, a: nat, b: nat, s: nat, more: bool)
    requires k <= l <= |p| && ScanU(p) == Some((a, true)) && NextToken(p, 0, '-') == Some(k)
    requires ScanU(p[k..]) == Some((b, true)) && NextToken(p, k, ':') == Some(l) && ScanU(p[l..]) == Some((s, more))
    requires Earlier(Some(k), NextToken(p, 0, ',')) && Earlier(Some(l), NextToken(p, 0, ','))
    ensures RangeAt(p) == if s == 0 then BadRange else Range(a, b, s, more)
  {
    hide ScanU, NextToken;
  }

  /** The separators of a range with a stride. */
  lemma StrideSplit(x: string, y: string, z: string, t: string)
    requires t == "" || t[0] == ','
    requires forall i :: 0 <= i < |x| ==> '0' <= x[i] <= '9'
    requires forall i :: 0 <= i < |y| ==> '0' <= y[i] <= '9'
    requires forall i :: 0 <= i < |z| ==> '0' <= z[i] <= '9'
    ensures var p, k, l := StrideText(x, y, z, t), |x| + 1, |x| + |y| + 2;
      && l <= |p| && p == x + ("-" + (y + (":" + (z + t)))) && p[k..] == y + (":" + (z + t)) && p[l..] == z + t
      && NextToken(p, 0, '-') == Some(k) && NextToken(p, k, ':') == Some(l)
      && NextToken(p, 0, ',') == (if t == "" then None else Some(l + |z| + 1))
      && Earlier(Some(k), NextToken(p, 0, ',')) && Earlier(Some(l), NextToken(p, 0, ','))
  {
    hide *;
    var p, k, l := StrideText(x, y, z, t), |x| + 1, |x| + |y| + 2;
    StrideClear(x, y, z);
    StrideTails(x, y, z, t);
    Separated(x, '-', y + (":" + (z + t)));
    Separated(y, ':', z + t);
    FirstAfter(x + "-" + y + ":" + z, ',', t);
    FirstComma(t);
    assert p[0..] == p;
    TokenIs(p, 0, '-');
    TokenIs(p, k, ':');
    TokenIs(p, 0, ',');
  }

  lemma StrideClear(x: string, y: string, z: string)
    requires forall i :: 0 <= i < |x| ==> '0' <= x[i] <= '9'
    requires forall i :: 0 <= i < |y| ==> '0' <= y[i] <= '9'
    requires forall i :: 0 <= i < |z| ==> '0' <= z[i] <= '9'
    ensures NoChar(x, '-') && NoChar(y, ':') && NoChar(x + "-" + y + ":" + z, ',')
  {
  }

  lemma StrideTails(x: string, y: string, z: string, t: string)
    ensures var p, k, l := StrideText(x, y, z, t), |x| + 1, |x| + |y| + 2;
      && l <= |p| && p[k..] == y + (":" + (z + t)) && p[l..] == z + t
      && p == (x + "-" + y + ":" + z) + t && p == x + ("-" + (y + (":" + (z + t))))
      && |x + "-" + y + ":" + z| == l + |z| && |p| == l + |z| + |t|
  {
  }

  /** One entry with a stride sets exactly what its walk visits, before the rest of the list is read. */
  lemma StrideEntry(a: nat, b: nat, s: nat, t: string, acc: set<nat>, max: nat, fail: bool)
    requires a <= b < TWO32 && 0 < s < TWO32 && (t == "" || t[0] == ',') && Leaves(a, b, s)
    requires fail ==> forall x :: x in Visited(a, b, s) ==> x < max
    ensures RoundAt(StrideText(Number(a), Number(b), Number(s), t), acc, max, fail) ==
      if t == "" then Stop(Done(0, acc + Visited(a, b, s)))
      else Continue(|Number(a)| + |Number(b)| + |Number(s)| + 3, acc + Visited(a, b, s))
  {
    hide RangeAt, NextToken, Visited, Leaves, StrideText, Number;
    StrideReads(a, b, s, t);
  }

  lemma DashReads(a: nat, t: string)
    requires a < TWO32
    ensures ScanU(Number(a) + ("-" + t)) == Some((a, true))
  {
    assert DigitVal('-') >= 10 && ("-" + t)[0] == '-';
    hide ScanU, Number, DigitVal;
    NumberReads(a, "-" + t);
  }

  lemma CommaReads(b: nat, t: string)
    requires b < TWO32 && (t == "" || t[0] == ',')
    ensures ScanU(Number(b) + t) == Some((b, t != ""))
  {
    assert DigitVal(',') >= 10;
    hide ScanU, Number, DigitVal;
    NumberReads(b, t);
  }

  lemma RangeAtIs(p: string, k: nat, a: nat, b: nat, more: bool)
    requires k <= |p| && ScanU(p) == Some((a, true)) && NextToken(p, 0, '-') == Some(k)
      && ScanU(p[k..]) == Some((b, more))
    requires NextToken(p, k, ':') == None && Earlier(Some(k), NextToken(p, 0, ','))
    ensures RangeAt(p) == Range(a, b, 1, more)
  {
    hide ScanU, NextToken;
  }

  /** The separators of a range. */
  lemma RangeSplit(x: string, y: string, t: string)
    requires (t == "" || t[0] == ',') && NoChar(t, ':')
    requires forall i :: 0 <= i < |x| ==> '0' <= x[i] <= '9'
    requires forall i :: 0 <= i < |y| ==> '0' <= y[i] <= '9'
    ensures var p := x + "-" + y + t;
      && p == x + ("-" + (y + t)) && |p| > |x| && p[|x| + 1..] == y + t
      && NextToken(p, 0, '-') == Some(|x| + 1) && NextToken(p, |x| + 1, ':') == None
      && NextToken(p, 0, ',') == (if t == "" then None else Some(|x| + 1 + |y| + 1))
        && Earlier(Some(|x| + 1), NextToken(p, 0, ','))
  {
    hide *;
    var p := x + ("-" + (y + t));
    assert x + "-" + y + t == p && (x + "-" + y) + t == p && p[0..] == p && p[|x| + 1..] == y + t;
    NoSeparators(x, y, t);
    Separated(x, '-', y + t);
    FirstAfter(x + "-" + y, ',', t);
    FirstComma(t);
    FirstNone(y + t, ':');
    TokenIs(p, 0, '-');
    TokenIs(p, 0, ',');
    TokenIs(p, |x| + 1, ':');
  }

  lemma NoSeparators(x: string, y: string, t: string)
    requires NoChar(t, ':')
    requires forall i :: 0 <= i < |x| ==> '0' <= x[i] <= '9'
    requires forall i :: 0 <= i < |y| ==> '0' <= y[i] <= '9'
    ensures NoChar(x, '-') && NoChar(x + "-" + y, ',') && NoChar(y + t, ':')
  {
  }

  lemma Separated(x: string, c: char, t: string)
    requires NoChar(x, c)
    ensures First(x + ([c] + t), c) == |x|
  {
    FirstAfter(x, c, [c] + t);
  }

  lemma FirstComma(t: string)
    requires t == "" || t[0] == ','
    ensures First(t, ',') == 0
  {
  }

  lemma TokenIs(p: string, i: nat, sep: char)
    requires i <= |p|
    ensures NextToken(p, i, sep) == var k := First(p[i..], sep); if i + k < |p| then Some(i + k + 1) else None
    ensures forall c1, c2 :: Earlier(c1, c2) <==> c1.Some? && (c2.None? || c1.value < c2.value)
  {
    hide First;
  }

  ghost function ItemSet(its: seq<Item>): set<nat> {
    if its == [] then {} else Between(its[0].a, its[0].b) + ItemSet(its[1..])
  }

  lemma {:induction false} ItemsPlain(its: seq<Item>)
    ensures NoChar(ItemsText(its), ':')
  {
    if its != [] {
      NumberPlain(its[0].a);
      NumberPlain(its[0].b);
      ItemsPlain(its[1..]);
      hide Number;
    }
  }

  /** The numbers stay inside a set of `max` CPUs. */
  ghost predicate ItemsFit(its: seq<Item>, max: nat) { forall i :: 0 <= i < |its| ==> its[i].b < max }

  /** cpulist_parse() reads back every list of numbers and ranges. */
  lemma {:induction false} ItemsRead(its: seq<Item>, acc: set<nat>, max: nat, fail: bool)
    requires its != [] && Items32(its) && (fail ==> ItemsFit(its, max))
    ensures ParseFrom(ItemsText(its), acc, max, fail) == Done(0, acc + ItemSet(its))
    decreases |its|
  {
    hide RoundAt, ItemText, Between;
    var i, rest := its[0], its[1..];
    var t := if |its| == 1 then "" else "," + ItemsText(rest);
    var p := ItemText(i) + t;
    EntryRead(i, rest, t, acc, max, fail);
    var now := acc + Between(i.a, i.b);
    if |its| == 1 {
      assert now == acc + (Between(i.a, i.b) + {});
    } else {
      assert forall k :: 0 <= k < |rest| ==> rest[k] == its[k + 1];
      ItemsRead(rest, now, max, fail);
      TextAfter(i, t, ItemsText(rest), p);
      assert now + ItemSet(rest) == acc + (Between(i.a, i.b) + ItemSet(rest));
    }
  }

  lemma ItemReads(i: Item, rest: seq<Item>, t: string)
    requires i.a <= i.b < TWO32 - 1 && (t == "" || t == "," + ItemsText(rest))
    ensures var p := ItemText(i) + t;
      RangeAt(p) == Range(i.a, i.b, 1, t != "") && NextToken(p, 0, ',') == if t == "" then None
        else Some(|ItemText(i)| + 1)
  {
    ItemsPlain(rest);
    hide ItemsText, RangeAt;
    if i.a == i.b { SingleReads(i.a, t); } else { RangeReads(i.a, i.b, t); }
  }

  /** One entry of the list. */
  lemma EntryRead(i: Item, rest: seq<Item>, t: string, acc: set<nat>, max: nat, fail: bool)
    requires i.a <= i.b < TWO32 - 1 && (t == "" || t == "," + ItemsText(rest)) && (fail ==> i.b < max)
    ensures var now := acc + Between(i.a, i.b);
      RoundAt(ItemText(i) + t, acc, max, fail) == if t == "" then Stop(Done(0, now))
        else Continue(|ItemText(i)| + 1, now)
  {
    hide RangeAt, NextToken, Visited, Leaves, ItemText, Between;
    ItemReads(i, rest, t);
    VisitedAll(i.a, i.b);
  }

  lemma TextAfter(i: Item, t: string, rest: string, p: string)
    requires t == "," + rest && p == ItemText(i) + t
    ensures p[|ItemText(i)| + 1..] == rest
  {
    hide ItemText;
  }

  // ---------- groups and items ----------

  lemma {:induction false} ItemsTextParts(a: seq<Item>, b: seq<Item>)
    requires a != [] && b != []
    ensures ItemsText(a + b) == ItemsText(a) + ("," + ItemsText(b))
    decreases |a|
  {
    hide ItemText;
    if |a| == 1 {
      assert (a + b)[1..] == b;
    } else {
      assert (a + b)[1..] == a[1..] + b;
      ItemsTextParts(a[1..], b);
    }
  }

  /** The printed groups are the items with a comma behind each. */
  lemma {:induction false} GroupsTextItems(gs: seq<Group>)
    requires gs != []
    ensures ItemsOf(gs) != [] && GroupsText(gs) == ItemsText(ItemsOf(gs)) + ","
  {
    hide GroupText, GroupItems, ItemText;
    var k := |gs| - 1;
    var g := gs[k];
    GroupTextItems(g);
    var y := ItemsText(GroupItems(g));
    if k > 0 {
      GroupsTextItems(gs[..k]);
      var x := ItemsText(ItemsOf(gs[..k]));
      ItemsTextParts(ItemsOf(gs[..k]), GroupItems(g));
      Commas(x, y);
      hide ItemsText;
    } else {
      assert gs[..0] == [];
      assert [] + GroupItems(g) == GroupItems(g) && "" + (y + ",") == y + ",";
    }
  }

  lemma Commas(x: string, y: string)
    ensures (x + ",") + (y + ",") == (x + ("," + y)) + ","
  {
  }

  lemma GroupTextItems(g: Group)
    ensures GroupItems(g) != [] && GroupText(g) == ItemsText(GroupItems(g)) + ","
  {
    hide Number;
    if g.run == 1 {
      var its := GroupItems(g);
      assert its[1..] == [Item(g.first + 1, g.first + 1)];
    }
  }

  lemma ListTextItems(ns: seq<nat>)
    requires ns != []
    ensures DropComma(GroupsText(Groups(ns))) == ItemsText(ItemsOf(Groups(ns))) && ItemsOf(Groups(ns)) != []
  {
    GroupsTextItems(Groups(ns));
  }

  lemma {:induction false} ItemSetParts(a: seq<Item>, b: seq<Item>)
    ensures ItemSet(a + b) == ItemSet(a) + ItemSet(b)
    decreases |a|
  {
    if a == [] {
      assert a + b == b;
    } else {
      assert (a + b)[1..] == a[1..] + b;
      ItemSetParts(a[1..], b);
    }
  }

  lemma BetweenOne(a: nat)
    ensures Between(a, a) == {a}
  {
  }

  lemma BetweenMore(a: nat, b: nat)
    requires a <= b
    ensures Between(a, b + 1) == Between(a, b) + {b + 1}
  {
  }

  lemma ItemSetOne(i: Item)
    ensures ItemSet([i]) == Between(i.a, i.b)
  {
    hide Between;
    assert [i][1..] == [];
  }

  lemma GroupItemsSet(g: Group)
    ensures ItemSet(GroupItems(g)) == Between(g.first, g.first + g.run)
  {
    hide Between;
    if g.run == 1 {
      var i, j := Item(g.first, g.first), Item(g.first + 1, g.first + 1);
      assert GroupItems(g) == [i] + [j];
      ItemSetParts([i], [j]);
      ItemSetOne(i);
      ItemSetOne(j);
      BetweenOne(g.first);
      BetweenOne(g.first + 1);
      BetweenMore(g.first, g.first);
    } else {
      ItemSetOne(Item(g.first, g.first + g.run));
    }
  }

  ghost function GroupsSet(gs: seq<Group>): set<nat> {
    if gs == [] then {} else GroupsSet(gs[..|gs| - 1]) + Between(gs[|gs| - 1].first,
      gs[|gs| - 1].first + gs[|gs| - 1].run)
  }

  lemma {:induction false} ItemsOfSet(gs: seq<Group>)
    ensures ItemSet(ItemsOf(gs)) == GroupsSet(gs)
  {
    hide GroupItems, Between;
    if gs != [] {
      var k := |gs| - 1;
      ItemsOfSet(gs[..k]);
      ItemSetParts(ItemsOf(gs[..k]), GroupItems(gs[k]));
      GroupItemsSet(gs[k]);
    }
  }

  lemma GroupsSetSnoc(gs: seq<Group>, g: Group)
    ensures GroupsSet(gs + [g]) == GroupsSet(gs) + Between(g.first, g.first + g.run)
  {
    hide Between;
    assert (gs + [g])[..|gs|] == gs;
  }

  function Elements(ns: seq<nat>): set<nat> {
    if ns == [] then {} else Elements(ns[..|ns| - 1]) + {ns[|ns| - 1]}
  }

  /** The runs hold exactly the numbers. */
  lemma {:induction false} GroupsCover(ns: seq<nat>)
    ensures GroupsSet(Groups(ns)) == Elements(ns)
  {
    hide Between, GroupsSet, Extend;
    if ns == [] {
      NoGroups();
    } else {
      GroupsCover(ns[..|ns| - 1]);
      Cover(Groups(ns[..|ns| - 1]), ns[|ns| - 1]);
    }
  }

  lemma NoGroups()
    ensures GroupsSet([]) == {}
  {
  }

  lemma Cover(gs: seq<Group>, n: nat)
    ensures GroupsSet(Extend(gs, n)) == GroupsSet(gs) + {n}
  {
    hide GroupsSet, Between, Extend;
    BetweenOne(n);
    if gs != [] && Next(gs[|gs| - 1]) == n {
      var l := |gs| - 1;
      var g := gs[l];
      assert gs[..l] + [g] == gs;
      ExtendLast(gs[..l], g);
      GroupsSetSnoc(gs[..l], g);
      GroupsSetSnoc(gs[..l], Group(g.first, g.run + 1));
      BetweenMore(g.first, g.first + g.run);
    } else {
      ExtendNew(gs, n);
      GroupsSetSnoc(gs, Group(n, 0));
    }
  }

  /** Items stay below a bound that all the numbers stay below. */
  lemma {:induction false} ItemsBounded(gs: seq<Group>, max: nat)
    requires GroupsFit(gs, max)
    ensures ItemsFit(ItemsOf(gs), max) && forall i :: 0 <= i < |ItemsOf(gs)| ==> ItemsOf(gs)[i].a <= ItemsOf(gs)[i].b
  {
    if gs != [] {
      var k := |gs| - 1;
      ItemsBounded(gs[..k], max);
      var a, b := ItemsOf(gs[..k]), GroupItems(gs[k]);
      assert forall i :: 0 <= i < |a + b| ==> (a + b)[i] == if i < |a| then a[i] else b[i - |a|];
    }
  }

  lemma {:induction false} GroupsBounded(ns: seq<nat>, max: nat)
    requires forall i :: 0 <= i < |ns| ==> ns[i] < max
    ensures GroupsFit(Groups(ns), max)
  {
    if ns != [] {
      GroupsBounded(ns[..|ns| - 1], max);
      ExtendBounded(Groups(ns[..|ns| - 1]), ns[|ns| - 1], max);
      hide Extend, GroupsFit;
    }
  }

  ghost predicate GroupsFit(gs: seq<Group>, max: nat) { forall i :: 0 <= i < |gs| ==> gs[i].first + gs[i].run < max }

  lemma ExtendBounded(gs: seq<Group>, n: nat, max: nat)
    requires GroupsFit(gs, max) && n < max
    ensures GroupsFit(Extend(gs, n), max)
  {
  }

  /** The text for an increasing sequence. */
  function ListText(ns: seq<nat>): string { DropComma(GroupsText(Groups(ns))) }

  /** cpulist_parse() inverts cpulist_create() on every set of CPUs that is not empty. */
  lemma ListRoundTrip(ns: seq<nat>, max: nat, fail: bool)
    requires ns != [] && max < TWO32 && forall i :: 0 <= i < |ns| ==> ns[i] < max
    ensures ParseFrom(ListText(ns), {}, max, fail) == Done(0, Elements(ns))
  {
    hide *;
    var gs := Groups(ns);
    ListTextItems(ns);
    GroupsBounded(ns, max);
    ItemsBounded(gs, max);
    ItemsOfSet(gs);
    GroupsCover(ns);
    ItemsUsable(ItemsOf(gs), max);
    ItemsRead(ItemsOf(gs), {}, max, fail);
    ListTextIs(ns);
    assert {} + ItemSet(ItemsOf(gs)) == Elements(ns);
  }

  lemma ListTextIs(ns: seq<nat>)
    ensures ListText(ns) == DropComma(GroupsText(Groups(ns)))
  {
    hide DropComma, GroupsText, Groups;
  }

  lemma ItemsUsable(its: seq<Item>, max: nat)
    requires ItemsFit(its, max) && max < TWO32 && forall i :: 0 <= i < |its| ==> its[i].a <= its[i].b
    ensures Items32(its)
  {
  }

  /** The empty set prints as the empty text, which is refused. */
  lemma EmptyListRefused(max: nat, fail: bool)
    ensures ListText([]) == "" && ParseFrom("", {}, max, fail) == Done(1, {})
  {
  }

  /** A list whose only range reaches the largest unsigned int: the loop never ends, or stops at a number that does
      not fit. */
  lemma TopRangeEndless(a: nat, max: nat, fail: bool)
    requires a < TWO32 - 1
    ensures ParseFrom(Number(a) + "-" + Number(TWO32 - 1), {}, max, fail) == 
      if fail && max < TWO32 then Done(2, Between(a, max - 1)) else Endless
  {
    hide Number, RangeAt, Visited, Leaves;
    var p := Number(a) + "-" + Number(TWO32 - 1);
    RangeReads(a, TWO32 - 1, "");
    assert p + "" == p;
    SingleSteps(a, TWO32 - 1);
    VisitedTop(a);
    if max < TWO32 {
      VisitedAll(a, max - 1);
      assert {} + Between(a, max - 1) == Between(a, max - 1);
    }
  }

  lemma VisitedTop(a: nat)
    requires a < TWO32
    ensures var v := Visited(a, TWO32 - 1, 1); TWO32 - 1 in v && forall x :: x in v ==> x < TWO32
  {
    var k := Reaches(a, 1);
    Repeats(a, 1, k);
    SingleSteps(a, TWO32 - 1);
    EndsSoon(a, TWO32 - 1, 1);
    assert Walk(a, 1, k % TWO32) == TWO32 - 1;
  }

  /** A stride that wraps around inside the range ends all the same when it meets a number above it: here 5, 2,
      4294967295. */
  lemma WrappingRangeEnds()
    ensures Leaves(5, 4294967294, 4294967293) && Visited(5, 4294967294, 4294967293) == {5, 2}
  {
    var a, b, s := 5, 4294967294, 4294967293;
    assert Walk(a, s, 0) == 5 && Walk(a, s, 1) == 2 && Walk(a, s, 2) == 4294967295;
    assert FirstAbove(a, b, s, 2) == 2;
    assert FirstAbove(a, b, s, 1) == 2;
    assert FirstAbove(a, b, s, 0) == 2;
    WalkNext(a, s, 0);
    WalkNext(a, s, 1);
    WalkStart(a, s);
    assert Walked(a, s, 2) == {5} + {2};
  }
}
