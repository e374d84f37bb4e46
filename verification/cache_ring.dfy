/** What reading a cache file does to the devices of a cache, as a function of their names and fields. */
module CacheRing {
  import opened Wrappers
  import opened TagIndex
  import opened CacheText
  import opened CacheFile
  import opened CacheReadWrite

  /** The place of a name, behind the last device when it is not there. */
  function PlaceOf(es: seq<Entry>, name: string): (i: nat)
    ensures i <= |es| && (i < |es| ==> es[i].0 == name)
    ensures forall j :: 0 <= j < i ==> es[j].0 != name
  {
    if es == [] || es[0].0 == name then 0
    else
      var i := PlaceOf(es[1..], name);
      assert forall j :: 1 <= j < i + 1 ==> es[j] == es[1..][j - 1];
      i + 1
  }

  /** What the attributes of a line are read onto: the device's fields, or those of a new device. */
  function Onto(es: seq<Entry>, name: string): Fields {
    var i := PlaceOf(es, name);
    if i < |es| then es[i].1 else NEW
  }

  /** The line names a device that is in the cache or can be made. */
  predicate Names(es: seq<Entry>, line: string, accessible: string -> bool) {
    LineOf(line).Line? && (PlaceOf(es, LineOf(line).name) < |es| || accessible(LineOf(line).name))
  }

  /** The devices after a line: the one it names has its fields and tags, or is gone when that leaves it without a
      TYPE. */
  function AfterLine(es: seq<Entry>, line: string, accessible: string -> bool): seq<Entry> {
    if !Names(es, line, accessible) then es
    else
      var l := LineOf(line);
      var i, f := PlaceOf(es, l.name), ReadAttrs(l.attrs, Onto(es, l.name)).f;
      es[..i] + (if HasType(f.pairs) then [(l.name, f)] else []) + if i < |es| then es[i + 1..] else []
  }

  /** On this line parse_token() leaves its buffer. */
  predicate LineOver(es: seq<Entry>, line: string, accessible: string -> bool) {
    Names(es, line, accessible) && ReadAttrs(LineOf(line).attrs, Onto(es, LineOf(line).name)).end.Overrun?
  }

  /** The devices after all lines. */
  function AfterLines(es: seq<Entry>, lines: seq<string>, accessible: string -> bool): seq<Entry> {
    if lines == [] then es
    else AfterLine(AfterLines(es, lines[..|lines| - 1], accessible), lines[|lines| - 1], accessible)
  }

  /** The n-th line is the first on which the buffer is left. */
  predicate OverAt(es: seq<Entry>, lines: seq<string>, accessible: string -> bool, n: nat) {
    n < |lines| && LineOver(AfterLines(es, lines[..n], accessible), lines[n], accessible)
  }

  lemma LinesNext(es: seq<Entry>, lines: seq<string>, accessible: string -> bool, n: nat)
    requires n < |lines|
    ensures AfterLines(es, lines[..n + 1], accessible)
      == AfterLine(AfterLines(es, lines[..n], accessible), lines[n], accessible)
  {
    hide AfterLine;
    assert lines[..n + 1][..n] == lines[..n];
  }

  // ---------- the devices of a ring ----------

  ghost function Ring(ds: seq<Dev>): seq<Entry>
    reads ds`devno, ds`time, ds`utime, ds`pri, ds`tags, TagsOf(ds)`val
  {
    RingOf(ds, Contents(ds))
  }

  /** By a copy of what the devices held. */
  ghost function RingOf(ds: seq<Dev>, was: map<Dev, Fields>): (es: seq<Entry>)
    ensures |es| == |ds|
    ensures forall i :: 0 <= i < |ds| ==> es[i] == (ds[i].name, if ds[i] in was then was[ds[i]] else NEW)
  {
    if ds == [] then []
    else [(ds[0].name, if ds[0] in was then was[ds[0]] else NEW)] + RingOf(ds[1..], was)
  }

  lemma RingIs(ds: seq<Dev>)
    ensures |Ring(ds)| == |ds| && forall i :: 0 <= i < |ds| ==> Ring(ds)[i] == (ds[i].name, FieldsOf(ds[i]))
    ensures Ring(ds) == RingOf(ds, Contents(ds))
  {
    ContentsAre(ds);
    hide FieldsOf, Contents;
  }

  ghost predicate NamesApart(ds: seq<Dev>) {
    forall i, j :: 0 <= i < j < |ds| ==> ds[i].name != ds[j].name
  }

  lemma PlaceKnown(ds: seq<Dev>, was: map<Dev, Fields>, name: string)
    ensures PlaceOf(RingOf(ds, was), name) < |ds| <==> Known(ds, name)
  {
    var es := RingOf(ds, was);
    var i := PlaceOf(es, name);
    if i < |ds| { assert ds[i] in ds && ds[i].name == name; }
    if Known(ds, name) {
      var d :| d in ds && d.name == name;
      var j :| 0 <= j < |ds| && ds[j] == d;
      assert es[j].0 == name;
    }
  }

  lemma PlaceIn(ds: seq<Dev>, was: map<Dev, Fields>, dev: Dev) returns (i: nat)
    requires NamesApart(ds) && dev in ds && dev in was
    ensures i < |ds| && ds[i] == dev && PlaceOf(RingOf(ds, was), dev.name) == i && RingOf(ds, was)[i].1 == was[dev]
    ensures forall j :: 0 <= j < |ds| && j != i ==> ds[j] != dev
  {
    i :| 0 <= i < |ds| && ds[i] == dev;
    var es := RingOf(ds, was);
    var p := PlaceOf(es, dev.name);
    assert es[i].0 == dev.name;
    assert !(p < i);
  }

  /** One line read. */
  lemma RingNext(ds: seq<Dev>, was: map<Dev, Fields>, now: seq<Dev>, line: string, accessible: string -> bool,
      over: bool, dev: Dev?, held: Fields)
    requires NamesApart(ds) && Distinct(ds) && (forall d: Dev :: d in ds ==> d in was) && Untouched(ds, dev, was)
    requires LineExact(ds, was, now, line, accessible, over, dev, held) && (dev != null ==> held == FieldsOf(dev))
    ensures over <==> LineOver(RingOf(ds, was), line, accessible)
    ensures !over ==> Ring(now) == AfterLine(RingOf(ds, was), line, accessible)
  {
    hide *;
    LineExactIs(ds, was, now, line, accessible, over, dev, held);
    var es := RingOf(ds, was);
    if LineOf(line).Line? { PlaceKnown(ds, was, LineOf(line).name); }
    LineIs(es, line, accessible);
    Nothing(es);
    if dev == null {
      SameRing(ds, was);
    } else if dev in ds {
      var i := PlaceIn(ds, was, dev);
      RingWith(ds, was, i, held);
    } else {
      RingMore(ds, was, dev, held);
      Nothing(es + []);
      Nothing(es + [(dev.name, held)]);
    }
  }

  lemma LineIs(es: seq<Entry>, line: string, accessible: string -> bool)
    ensures var l := LineOf(line);
      if !l.Line? || (PlaceOf(es, l.name) == |es| && !accessible(l.name)) then
        !LineOver(es, line, accessible) && AfterLine(es, line, accessible) == es
      else
        var i := PlaceOf(es, l.name);
        var r := ReadAttrs(l.attrs, if i < |es| then es[i].1 else NEW);
        && (LineOver(es, line, accessible) <==> r.end.Overrun?)
        && AfterLine(es, line, accessible) ==
          (if i < |es| then es[..i] else es) + (if HasType(r.f.pairs) then [(l.name, r.f)] else [])
            + if i < |es| then es[i + 1..] else []
  {
    hide LineOf, ReadAttrs, HasType, PlaceOf;
    if LineOf(line).Line? {
      var i := PlaceOf(es, LineOf(line).name);
      assert i == |es| ==> es[..i] == es;
    }
  }

  lemma Nothing<T>(s: seq<T>)
    ensures s + [] == s
  {
  }

  lemma SameRing(ds: seq<Dev>, was: map<Dev, Fields>)
    requires Untouched(ds, null, was)
    ensures Ring(ds) == RingOf(ds, was)
  {
    RingIs(ds);
    hide FieldsOf, Ring;
    assert forall i :: 0 <= i < |ds| ==> ds[i] in ds;
  }

  lemma RingWith(ds: seq<Dev>, was: map<Dev, Fields>, i: nat, held: Fields)
    requires i < |ds| && Untouched(ds, ds[i], was) && held == FieldsOf(ds[i]) && Distinct(ds)
    requires forall j :: 0 <= j < |ds| && j != i ==> ds[j] != ds[i]
    ensures var es := RingOf(ds, was);
      && Ring(ds) == es[..i] + [(ds[i].name, held)] + es[i + 1..]
      && Ring(Without<Dev>(ds, ds[i])) == es[..i] + [] + es[i + 1..]
  {
    hide *;
    RingPut(ds, was, i, held);
    RingDrop(ds, was, i);
    WithoutAt(ds, i);
  }

  lemma WithoutAt(ds: seq<Dev>, i: nat)
    requires i < |ds| && Distinct(ds)
    ensures Without<Dev>(ds, ds[i]) == ds[..i] + ds[i + 1..]
  {
    assert IndexOf(ds, ds[i]) == i;
  }

  lemma RingPut(ds: seq<Dev>, was: map<Dev, Fields>, i: nat, held: Fields)
    requires i < |ds| && Untouched(ds, ds[i], was) && held == FieldsOf(ds[i])
    requires forall j :: 0 <= j < |ds| && j != i ==> ds[j] != ds[i]
    ensures Ring(ds) == RingOf(ds, was)[..i] + [(ds[i].name, held)] + RingOf(ds, was)[i + 1..]
  {
    hide *;
    OthersHeld(ds, was, i);
    RingIs(ds);
    SeqPut(Ring(ds), RingOf(ds, was), i, (ds[i].name, held));
  }

  lemma SeqPut<T>(r: seq<T>, es: seq<T>, i: nat, x: T)
    requires |r| == |es| && i < |es| && r[i] == x && forall j :: 0 <= j < |es| && j != i ==> r[j] == es[j]
    ensures r == es[..i] + [x] + es[i + 1..]
  {
  }

  lemma SeqDrop<T>(r: seq<T>, es: seq<T>, i: nat)
    requires |r| == |es| - 1 && i < |es| && forall j :: 0 <= j < |r| ==> r[j] == es[if j < i then j else j + 1]
    ensures r == es[..i] + [] + es[i + 1..]
  {
  }

  lemma OthersHeld(ds: seq<Dev>, was: map<Dev, Fields>, i: nat)
    requires i < |ds| && Untouched(ds, ds[i], was) && forall j :: 0 <= j < |ds| && j != i ==> ds[j] != ds[i]
    ensures |RingOf(ds, was)| == |ds|
    ensures forall j :: 0 <= j < |ds| && j != i ==> RingOf(ds, was)[j] == (ds[j].name, FieldsOf(ds[j]))
  {
    hide FieldsOf;
    assert forall j :: 0 <= j < |ds| ==> ds[j] in ds;
  }

  lemma RingDrop(ds: seq<Dev>, was: map<Dev, Fields>, i: nat)
    requires i < |ds| && Untouched(ds, ds[i], was) && forall j :: 0 <= j < |ds| && j != i ==> ds[j] != ds[i]
    ensures Ring(ds[..i] + ds[i + 1..]) == RingOf(ds, was)[..i] + [] + RingOf(ds, was)[i + 1..]
  {
    hide *;
    RestRing(ds, was, i, ds[..i] + ds[i + 1..]);
  }

  lemma RestRing(ds: seq<Dev>, was: map<Dev, Fields>, i: nat, rest: seq<Dev>)
    requires i < |ds| && Untouched(ds, ds[i], was) && forall j :: 0 <= j < |ds| && j != i ==> ds[j] != ds[i]
    requires |rest| == |ds| - 1 && forall j :: 0 <= j < |rest| ==> rest[j] == ds[if j < i then j else j + 1]
    ensures Ring(rest) == RingOf(ds, was)[..i] + [] + RingOf(ds, was)[i + 1..]
  {
    hide *;
    OthersHeld(ds, was, i);
    RingIs(rest);
    var r, es := Ring(rest), RingOf(ds, was);
    forall j | 0 <= j < |rest| ensures r[j] == es[if j < i then j else j + 1] {
      var m := if j < i then j else j + 1;
      assert m != i && rest[j] == ds[m];
    }
    SeqDrop(r, es, i);
  }

  lemma RingMore(ds: seq<Dev>, was: map<Dev, Fields>, dev: Dev, held: Fields)
    requires dev !in ds && Untouched(ds, dev, was) && held == FieldsOf(dev)
    ensures Ring(ds) == RingOf(ds, was) + [] && Ring(ds + [dev]) == RingOf(ds, was) + [(dev.name, held)]
    ensures Without<Dev>(ds + [dev], dev) == ds
  {
    hide *;
    LastWithout(ds, dev);
    AllHeld(ds, dev, was);
    RingIs(ds);
    RingIs(ds + [dev]);
    SeqAppend(Ring(ds), Ring(ds + [dev]), RingOf(ds, was), (dev.name, held));
  }

  lemma SeqAppend<T>(a: seq<T>, b: seq<T>, es: seq<T>, x: T)
    requires |a| == |es| && |b| == |es| + 1 && b[|es|] == x
    requires forall j :: 0 <= j < |es| ==> a[j] == es[j] && b[j] == es[j]
    ensures a == es + [] && b == es + [x]
  {
  }

  lemma AllHeld(ds: seq<Dev>, dev: Dev, was: map<Dev, Fields>)
    requires dev !in ds && Untouched(ds, dev, was)
    ensures |RingOf(ds, was)| == |ds|
    ensures forall j :: 0 <= j < |ds| ==> RingOf(ds, was)[j] == (ds[j].name, FieldsOf(ds[j]))
  {
    hide FieldsOf;
    assert forall j :: 0 <= j < |ds| ==> ds[j] in ds;
  }
}
