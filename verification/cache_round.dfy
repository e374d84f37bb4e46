/** The whole cache file: written from one cache and read into another. */
module CacheRoundTrip {
  import opened Wrappers
  import opened TagIndex
  import opened TagCache
  import opened DevCache
  import opened DevGet
  import opened CacheRun
  import opened CNumber
  import opened CacheText
  import opened CacheFile
  import opened CacheParse
  import opened CacheReadWrite
  import opened CacheExact
  import CacheRing

  // ---------- the whole file ----------

  /** The ring holds exactly these devices, in order. */
  ghost predicate Holds(ds: seq<Dev>, es: seq<Entry>)
    reads ds`devno, ds`time, ds`utime, ds`pri, ds`tags, TagsOf(ds)`val
  {
    |ds| == |es| && forall i :: 0 <= i < |ds| ==> ds[i].name == es[i].0 && FieldsOf(ds[i]) == es[i].1
  }

  /** Those whose file is there. */
  ghost function Present(es: seq<Entry>, accessible: string -> bool): seq<Entry> {
    if es == [] then [] else Present(es[..|es| - 1], accessible) + if accessible(es[|es| - 1].0) then [es[|es| - 1]]
      else []
  }

  /** Devices that a cache file can carry: each on one line, and no name twice. */
  ghost predicate Saveable(es: seq<Entry>) {
    && (forall i :: 0 <= i < |es| ==>
      OneLine(es[i]) && UniqueNames(es[i].1.pairs) && NoChar(SaveText(es[i].0, es[i].1), '\0'))
    && forall i, j :: 0 <= i < j < |es| ==> es[i].0 != es[j].0
  }

  /** Half-way through a file of saved devices. */
  ghost predicate ReadSoFar(saved: bool, ds: seq<Dev>, lines: seq<string>, es: seq<Entry>, n: nat,
      accessible: string -> bool)
    reads ds`devno, ds`time, ds`utime, ds`pri, ds`tags, TagsOf(ds)`val
  {
    saved ==> Saveable(es) && lines == LinesOf(FileText(es)) && n <= |es| && Holds(ds, Present(es[..n], accessible))
  }

  lemma {:induction false} FileLines(es: seq<Entry>)
    requires Saveable(es)
    ensures var ls := LinesOf(FileText(es)); |ls| == |es| && forall i :: 0 <= i < |es| ==>
      ls[i] == SaveText(es[i].0, es[i].1)
  {
    hide *;
    if es == [] {
      NoLines();
    } else {
      SaveableRest(es);
      FileLines(es[1..]);
      EntryBack(es[0], FileText(es[1..]));
      FileTextStep(es);
    }
  }

  lemma NoLines()
    ensures LinesOf(FileText([])) == []
  {
  }

  lemma SaveableRest(es: seq<Entry>)
    requires Saveable(es) && es != []
    ensures OneLine(es[0]) && UniqueNames(es[0].1.pairs) && Saveable(es[1..])
  {
    hide OneLine, UniqueNames, SaveText, NoChar;
    assert forall i :: 0 <= i < |es| - 1 ==> es[1..][i] == es[i + 1];
  }

  /** The line at `n` is the next saved device's, and the cache does not hold that device. */
  lemma NextSaved(ds: seq<Dev>, lines: seq<string>, es: seq<Entry>, n: nat, accessible: string -> bool)
    requires ReadSoFar(true, ds, lines, es, n, accessible) && n < |lines|
    ensures n < |es| && SavedLine(lines[n], es[n]) && '\0' !in lines[n] && !Known(ds, es[n].0)
  {
    FileLines(es);
    hide OneLine, UniqueNames, LinesOf, SaveText, FieldsOf, Present;
    assert OneLine(es[n]);
    CarriesType(es[n]);
    PresentAmong(es[..n], accessible);
  }

  lemma CarriesType(e: Entry)
    requires OneLine(e)
    ensures Printable(e.0, e.1) && HasType(e.1.pairs)
  {
    hide Printable, HasType;
  }

  lemma {:induction false} PresentAmong(es: seq<Entry>, accessible: string -> bool)
    ensures forall i :: 0 <= i < |Present(es, accessible)| ==>
      exists j :: 0 <= j < |es| && es[j] == Present(es, accessible)[i]
  {
    if es == [] {
      assert Present(es, accessible) == [];
    } else {
      var r := es[..|es| - 1];
      PresentAmong(r, accessible);
      forall i | 0 <= i < |Present(es, accessible)|
        ensures exists j :: 0 <= j < |es| && es[j] == Present(es, accessible)[i]
      {
        if i < |Present(r, accessible)| {
          var j :| 0 <= j < |r| && r[j] == Present(r, accessible)[i];
          assert es[j] == r[j];
        } else {
          assert es[|es| - 1] == Present(es, accessible)[i];
        }
      }
    }
  }

  lemma SavedRead(ds: seq<Dev>, now: seq<Dev>, dev: Dev?, was: map<Dev, Fields>, lines: seq<string>, es: seq<Entry>,
      n: nat, accessible: string -> bool)
    requires Saveable(es) && lines == LinesOf(FileText(es)) && n < |es|
    requires HeldThen(ds, was, Present(es[..n], accessible)) && Untouched(ds, dev, was) && dev !in ds
    requires if dev == null then now == ds && !accessible(es[n].0)
      else accessible(es[n].0) && now == ds + [dev] && dev.name == es[n].0 && FieldsOf(dev) == es[n].1
    ensures ReadSoFar(true, now, lines, es, n + 1, accessible)
  {
    hide Saveable, LinesOf, FileText, FieldsOf;
    assert es[..n + 1][..n] == es[..n] && es[..n + 1][n] == es[n];
    assert Present(es[..n + 1], accessible) == Present(es[..n], accessible) + if accessible(es[n].0) then [es[n]]
      else [];
  }

  /** What the ring held, by a copy of its contents. */
  ghost predicate HeldThen(ds: seq<Dev>, was: map<Dev, Fields>, es: seq<Entry>) {
    |ds| == |es| && forall i :: 0 <= i < |ds| ==> ds[i].name == es[i].0 && ds[i] in was && was[ds[i]] == es[i].1
  }

  lemma HeldNow(ds: seq<Dev>, es: seq<Entry>)
    requires Holds(ds, es)
    ensures HeldThen(ds, Contents(ds), es)
  {
    hide FieldsOf;
  }

  /** The C string of a line in a buffer of its own. */
  method LineBuffer(line: string) returns (buf: array<char>)
    ensures fresh(buf) && CStr(buf[..], 0, CLine(line))
  {
    hide StrNDup;
    var s := StrNDup(line, |line|);
    buf := new char[|s| + 1](i => '\0');
    for i := 0 to |s|
      invariant forall j :: 0 <= j < |s| + 1 ==> buf[j] == if j < i then s[j] else '\0'
    {
      buf[i] := s[i];
    }
    assert buf[0..|s|] == s;
  }

  /** The C strings of the lines. */
  function CLines(lines: seq<string>): (cs: seq<string>)
    ensures |cs| == |lines| && forall i :: 0 <= i < |lines| ==> cs[i] == CLine(lines[i])
  {
    seq(|lines|, i requires 0 <= i < |lines| => CLine(lines[i]))
  }

  /** blkid_read_cache(): nothing for a file that has been read or a cache that has been changed; otherwise line after
      line, each with its effect on the devices that are there, up to the first on which parse_token() leaves its
      buffer. Reading the text of a file of saved devices into an empty cache puts exactly the devices whose file is
      there into the ring, in order, each with its numbers and tags. */
  method ReadCache(cache: Cache, newer: bool, text: string, accessible: string -> bool, ghost k0: set<object>,
      ghost es: seq<Entry>)
    returns (over: bool, ghost k: set<object>)
    requires cache.Valid() && Within(cache, k0)
    modifies k0
    ensures cache.Valid() && Within(cache, k) && k0 <= k && fresh(k - k0)
    ensures !newer || old(cache.changed) ==>
      cache.devs == old(cache.devs) && !over && cache.changed == old(cache.changed)
    ensures newer && !old(cache.changed) && !over ==> !cache.changed
    ensures newer && !old(cache.changed) ==>
      var es0, lines := old(CacheRing.Ring(cache.devs)), CLines(LinesOf(text));
      && (over <==> exists n: nat :: CacheRing.OverAt(es0, lines, accessible, n))
      && (!over ==> CacheRing.Ring(cache.devs) == CacheRing.AfterLines(es0, lines, accessible))
    ensures newer && !old(cache.changed) && old(cache.devs) == [] ==>
      && (Saveable(es) && text == FileText(es) ==> !over && Holds(cache.devs, Present(es, accessible)))
      && (!over ==> Traced(cache.devs, LinesOf(text), |LinesOf(text)|))
  {
    hide *;
    WithinSelf(cache, k0);
    k, over := k0, false;
    if !newer || cache.changed {
      return;
    }
    ghost var empty := cache.devs == [];
    ghost var saved := empty && Saveable(es) && text == FileText(es);
    var lines := LinesOf(text);
    LinesEnded(text);
    NothingRead(saved, cache.devs, text, es, accessible);
    NothingTraced(cache.devs, lines);
    ghost var es0 := CacheRing.Ring(cache.devs);
    RingStarts(es0, lines, accessible);
    for n := 0 to |lines|
      invariant cache.Valid() && Within(cache, k) && k0 <= k && fresh(k - k0) && !over
      invariant RingSoFar(es0, CacheRing.Ring(cache.devs), CLines(lines), accessible, n)
      invariant ReadSoFar(saved, cache.devs, lines, es, n, accessible) && (empty ==> Traced(cache.devs, lines, n))
    {
      ghost var more;
      ghost var now := CacheRing.Ring(cache.devs);
      over, more := ReadOne(cache, lines[n], accessible, k, saved, lines, es, n);
      RingGoesOn(es0, now, lines, accessible, n);
      k := k + more;
      if over {
        return;
      }
    }
    RingEnds(es0, CacheRing.Ring(cache.devs), lines, accessible);
    AllRead(saved, cache.devs, text, es, accessible);
    cache.changed := false;
  }

  /** `n` lines have been read, none of which left its buffer. */
  ghost predicate RingSoFar(es0: seq<Entry>, now: seq<Entry>, lines: seq<string>, accessible: string -> bool, n: nat) {
    && n <= |lines| && now == CacheRing.AfterLines(es0, lines[..n], accessible)
    && forall m: nat :: m < n ==> !CacheRing.OverAt(es0, lines, accessible, m)
  }

  lemma RingStarts(es0: seq<Entry>, lines: seq<string>, accessible: string -> bool)
    ensures RingSoFar(es0, es0, CLines(lines), accessible, 0)
  {
    hide CacheRing.OverAt;
    assert CLines(lines)[..0] == [];
  }

  lemma RingGoesOn(es0: seq<Entry>, now: seq<Entry>, lines: seq<string>, accessible: string -> bool, n: nat)
    requires n < |lines| && RingSoFar(es0, now, CLines(lines), accessible, n)
    ensures CacheRing.LineOver(now, CLine(lines[n]), accessible) ==> CacheRing.OverAt(es0, CLines(lines), accessible, n)
    ensures !CacheRing.LineOver(now, CLine(lines[n]), accessible) ==>
      RingSoFar(es0, CacheRing.AfterLine(now, CLine(lines[n]), accessible), CLines(lines), accessible, n + 1)
  {
    hide CacheRing.AfterLine, CacheRing.LineOver, CacheRing.AfterLines;
    CacheRing.LinesNext(es0, CLines(lines), accessible, n);
  }

  lemma RingEnds(es0: seq<Entry>, now: seq<Entry>, lines: seq<string>, accessible: string -> bool)
    requires RingSoFar(es0, now, CLines(lines), accessible, |lines|)
    ensures now == CacheRing.AfterLines(es0, CLines(lines), accessible)
    ensures forall n: nat :: !CacheRing.OverAt(es0, CLines(lines), accessible, n)
  {
    hide CacheRing.AfterLines, CacheRing.LineOver;
    assert CLines(lines)[..|lines|] == CLines(lines);
  }

  lemma NothingRead(saved: bool, ds: seq<Dev>, text: string, es: seq<Entry>, accessible: string -> bool)
    requires saved ==> ds == [] && Saveable(es) && text == FileText(es)
    ensures ReadSoFar(saved, ds, LinesOf(text), es, 0, accessible)
  {
    hide Saveable, FileText, LinesOf;
  }

  lemma AllRead(saved: bool, ds: seq<Dev>, text: string, es: seq<Entry>, accessible: string -> bool)
    requires ReadSoFar(saved, ds, LinesOf(text), es, |LinesOf(text)|, accessible) && (saved ==> text == FileText(es))
    ensures saved ==> Holds(ds, Present(es, accessible))
  {
    if saved {
      FileLines(es);
      assert es[..|es|] == es;
    }
    hide Saveable, FileText, LinesOf, Holds;
  }

  /** One line of the file. */
  method ReadOne(cache: Cache, line: string, accessible: string -> bool, ghost k: set<object>, ghost saved: bool,
      ghost lines: seq<string>,
      ghost es: seq<Entry>, ghost n: nat)
    returns (over: bool, ghost more: set<object>)
    requires cache.Valid() && Within(cache, k)
    requires n < |lines| && line == lines[n] && ReadSoFar(saved, cache.devs, lines, es, n, accessible)
    requires EndedLine(line)
    modifies k
    ensures cache.Valid() && fresh(more) && Within(cache, k + more)
    ensures saved ==> !over
    ensures ReadSoFar(saved, cache.devs, lines, es, n + 1, accessible)
    ensures old(Traced(cache.devs, lines, n)) ==> Traced(cache.devs, lines, n + 1)
    ensures over <==> CacheRing.LineOver(old(CacheRing.Ring(cache.devs)), CLine(line), accessible)
    ensures !over ==>
      CacheRing.Ring(cache.devs) == CacheRing.AfterLine(old(CacheRing.Ring(cache.devs)), CLine(line), accessible)
  {
    hide *;
    ghost var traced := Traced(cache.devs, lines, n);
    ghost var ds, was := cache.devs, Contents(cache.devs);
    ghost var e := if n < |es| then es[n] else ("", NEW);
    if saved {
      NextSaved(ds, lines, es, n, accessible);
      SoFarHeld(ds, lines, es, n, accessible);
      CLineWhole(line);
    }
    assert allocated(TagsOf(ds)) && allocated(MembersOf(cache.heads)) && allocated(ds) && allocated(cache.heads);
    var buf := LineBuffer(line);
    var dev;
    if traced { TracedWas(ds, lines, n); }
    DevsDistinct(cache);
    DevNamesApart(cache);
    CacheRing.RingIs(ds);
    ContentsAre(ds);
    over, dev, more := ReadSaved(cache, buf, CLine(line), e, accessible, k);
    HeldIs(dev);
    RingRead(ds, was, cache.devs, CLine(line), accessible, over, dev, Held(dev));
    if traced { TracedNext(ds, was, cache.devs, lines, n, dev, Held(dev)); }
    if saved {
      LastIsNew(cache, ds, dev);
      SavedRead(ds, cache.devs, dev, was, lines, es, n, accessible);
    } else {
      NotSaved(cache.devs, lines, es, n + 1, accessible);
    }
  }

  lemma RingRead(ds: seq<Dev>, was: map<Dev, Fields>, now: seq<Dev>, line: string, accessible: string -> bool,
      over: bool, dev: Dev?, held: Fields)
    requires Distinct(ds) && (forall i, j :: 0 <= i < j < |ds| ==> ds[i].name != ds[j].name)
    requires (forall d: Dev :: d in ds ==> d in was) && Untouched(ds, dev, was)
    requires LineExact(ds, was, now, line, accessible, over, dev, held) && (dev != null ==> held == FieldsOf(dev))
    ensures over <==> CacheRing.LineOver(CacheRing.RingOf(ds, was), line, accessible)
    ensures !over ==> CacheRing.Ring(now) == CacheRing.AfterLine(CacheRing.RingOf(ds, was), line, accessible)
  {
    assert CacheRing.NamesApart(ds);
    hide *;
    CacheRing.RingNext(ds, was, now, line, accessible, over, dev, held);
  }

  // ---------- where the devices come from ----------

  /** No newline and no NUL. */
  ghost predicate Spotless(e: Entry) { Clean(e, '\n') && Clean(e, '\0') }

  /** What a line holds, read into a new device. */
  ghost function RawEntry(line: string): Entry {
    if LineOf(line).Line? then (LineOf(line).name, ReadAttrs(LineOf(line).attrs, NEW).f) else ("", NEW)
  }

  function CLine(line: string): string { StrNDup(line, |line|) }

  /** The ring after `n` lines: at most one device for each, none with a newline, and when there is one for every line,
      each holds just what its own line says. */
  ghost predicate Traced(ds: seq<Dev>, lines: seq<string>, n: nat)
    reads ds`devno, ds`time, ds`utime, ds`pri, ds`tags, TagsOf(ds)`val
  {
    TracedBy(ds, Contents(ds), lines, n)
  }

  /** The same, by a copy of what the devices held. */
  ghost predicate TracedBy(ds: seq<Dev>, was: map<Dev, Fields>, lines: seq<string>, n: nat) {
    && |ds| <= n <= |lines|
    && (forall j :: 0 <= j < |ds| ==> ds[j] in was && Spotless((ds[j].name, was[ds[j]])))
    && (|ds| == n ==> forall j :: 0 <= j < n ==> (ds[j].name, was[ds[j]]) == RawEntry(CLine(lines[j])))
  }

  lemma TracedWas(ds: seq<Dev>, lines: seq<string>, n: nat)
    requires Traced(ds, lines, n)
    ensures TracedBy(ds, Contents(ds), lines, n)
  {
    hide TracedBy;
  }

  lemma NothingTraced(ds: seq<Dev>, lines: seq<string>)
    ensures ds == [] ==> Traced(ds, lines, 0)
  {
  }

  lemma CLineWhole(line: string)
    requires '\0' !in line
    ensures CLine(line) == line
  {
    WholeValue(line);
  }

  /** A line as a C string: cut at a NUL, and with no newline but the last character. */
  lemma CLineEnded(l: string)
    requires EndedLine(l)
    ensures EndedLine(CLine(l)) && NoChar(CLine(l), '\0')
  {
    var t := CLine(l);
    hide StrNDup;
    assert forall i :: 0 <= i < |t| ==> t[i] in t;
    if |t| < |l| {
      assert forall i :: 0 <= i < |t| ==> t[i] == l[..|l| - 1][i] == l[i];
    } else {
      assert t == l;
    }
  }

  /** What a line adds to a device without newlines leaves it without. */
  lemma LineSpotless(l: string, f: Fields)
    requires EndedLine(l) && LineOf(CLine(l)).Line? && NoCharIn(f.pairs, '\n') && NoCharIn(f.pairs, '\0')
    ensures var e := LineOf(CLine(l)); Spotless((e.name, ReadAttrs(e.attrs, f).f))
  {
    hide *;
    CLineEnded(l);
    StrippedLine(CLine(l));
    StripIs(CLine(l), '\0');
    LineNoChar(CLine(l), '\n');
    LineNoChar(CLine(l), '\0');
    ReadNoChar(LineOf(CLine(l)).attrs, f, '\n');
    ReadNoChar(LineOf(CLine(l)).attrs, f, '\0');
    SpotlessIs(LineOf(CLine(l)).name, ReadAttrs(LineOf(CLine(l)).attrs, f).f);
  }

  lemma SpotlessIs(name: string, f: Fields)
    ensures Spotless((name, f)) <==>
      NoChar(name, '\n') && NoChar(name, '\0') && NoCharIn(f.pairs, '\n') && NoCharIn(f.pairs, '\0')
  {
    hide NoChar, NoCharIn;
  }

  /** One more line. */
  lemma TracedNext(ds: seq<Dev>, was: map<Dev, Fields>, now: seq<Dev>, lines: seq<string>, n: nat, dev: Dev?,
      held: Fields)
    requires TracedBy(ds, was, lines, n) && n < |lines| && EndedLine(lines[n]) && Distinct(ds)
    requires LineStep(ds, was, now, CLine(lines[n]), dev, held) && Untouched(ds, dev, was)
    requires dev != null ==> held == FieldsOf(dev)
    ensures Traced(now, lines, n + 1)
  {
    hide *;
    TracedSpotless(ds, was, lines, n);
    KeptFields(ds, dev, was);
    ContentsAre(now);
    var l := CLine(lines[n]);
    StepCases(ds, was, now, l, dev, held);
    if dev == null {
      TracedAgain(ds, was, now, lines, n);
    } else if dev in ds {
      SpotlessIs(dev.name, was[dev]);
      LineSpotless(lines[n], was[dev]);
      WithoutFewer(ds, dev);
      TracedAgain(ds, was, now, lines, n);
    } else {
      NothingIn();
      LineSpotless(lines[n], NEW);
      RawIs(l);
      if now == ds { TracedAgain(ds, was, now, lines, n); } else { TracedMore(ds, was, dev, lines, n); }
    }
  }

  lemma TracedSpotless(ds: seq<Dev>, was: map<Dev, Fields>, lines: seq<string>, n: nat)
    requires TracedBy(ds, was, lines, n)
    ensures |ds| <= n <= |lines| && forall d: Dev :: d in ds ==> d in was && Spotless((d.name, was[d]))
  {
    hide Spotless, RawEntry, CLine;
  }

  lemma StepCases(ds: seq<Dev>, was: map<Dev, Fields>, now: seq<Dev>, line: string, dev: Dev?, held: Fields)
    requires LineStep(ds, was, now, line, dev, held)
    ensures dev == null ==> now == ds
    ensures dev != null ==> LineOf(line).Line? && dev.name == LineOf(line).name
    ensures dev != null && dev in ds ==>
      now == Without<Dev>(ds, dev) || (now == ds && dev in was && held == ReadAttrs(LineOf(line).attrs, was[dev]).f)
    ensures dev != null && dev !in ds ==>
      now == ds || (now == ds + [dev] && held == ReadAttrs(LineOf(line).attrs, NEW).f)
  {
    hide LineOf, ReadAttrs, Without;
  }

  /** No more devices than before. */
  lemma TracedAgain(ds: seq<Dev>, was: map<Dev, Fields>, now: seq<Dev>, lines: seq<string>, n: nat)
    requires |now| <= |ds| <= n < |lines|
    requires forall d: Dev :: d in now ==> Spotless((d.name, FieldsOf(d)))
    ensures Traced(now, lines, n + 1)
  {
    hide Spotless, RawEntry, CLine, FieldsOf;
    ContentsAre(now);
  }

  /** The line's own device, last in the ring. */
  lemma TracedMore(ds: seq<Dev>, was: map<Dev, Fields>, dev: Dev, lines: seq<string>, n: nat)
    requires TracedBy(ds, was, lines, n) && n < |lines| && dev !in ds
    requires forall d: Dev :: d in ds ==> d in was && was[d] == FieldsOf(d)
    requires (dev.name, FieldsOf(dev)) == RawEntry(CLine(lines[n])) && Spotless((dev.name, FieldsOf(dev)))
    ensures Traced(ds + [dev], lines, n + 1)
  {
    hide Spotless, RawEntry, CLine, FieldsOf;
    ContentsAre(ds + [dev]);
  }

  lemma KeptFields(ds: seq<Dev>, dev: Dev?, was: map<Dev, Fields>)
    requires Untouched(ds, dev, was)
    ensures forall d: Dev :: d in ds && d != dev ==> d in was && was[d] == FieldsOf(d)
  {
    hide FieldsOf;
  }

  lemma RawIs(line: string)
    requires LineOf(line).Line?
    ensures RawEntry(line) == (LineOf(line).name, ReadAttrs(LineOf(line).attrs, NEW).f)
  {
    hide LineOf, ReadAttrs;
  }

  lemma WithoutFewer(ds: seq<Dev>, dev: Dev)
    requires dev in ds && Distinct(ds)
    ensures |Without(ds, dev)| < |ds| && forall d: Dev :: d in Without(ds, dev) ==> d in ds && d != dev
  {
    WithoutMembers(ds, dev);
    hide Distinct;
  }

  // ---------- only printable devices come back ----------

  /** A device without a NUL is written without one. */
  lemma TextClean(e: Entry)
    requires Clean(e, '\0')
    ensures NoChar(SaveText(e.0, e.1), '\0')
  {
    hide *;
    HeadClean(e.1, '\0');
    CleanParts(e, '\0');
    AttrsNoChar(HeadAttrs(e.1) + e.1.pairs, '\0');
    TextParts(e);
  }

  lemma TextParts(e: Entry)
    requires NoChar(e.0, '\0') && NoChar(AttrsText(HeadAttrs(e.1) + e.1.pairs), '\0')
    ensures NoChar(SaveText(e.0, e.1), '\0')
  {
    hide AttrsText, HeadAttrs;
  }

  lemma {:induction false} AllSlashed(es: seq<Entry>)
    ensures |SavedLines(es)| == |es| ==>
      forall j :: 0 <= j < |es| ==> Slashed(es[j].0) && SavedLines(es)[j] == SaveText(es[j].0, es[j].1)
  {
    hide Slashed, SaveText;
    if es != [] {
      AllSlashed(es[1..]);
      if |SavedLines(es)| == |es| {
        var r := SavedLines(es[1..]);
        forall j | 0 <= j < |es| ensures Slashed(es[j].0) && SavedLines(es)[j] == SaveText(es[j].0, es[j].1) {
          if j > 0 { assert es[j] == es[1..][j - 1] && SavedLines(es)[j] == r[j - 1]; }
        }
      }
    }
  }

  /** A ring read from the text of the devices it holds: each of them can be carried. */
  lemma TracedCarried(ds: seq<Dev>, es: seq<Entry>)
    requires Holds(ds, es) && Traced(ds, LinesOf(FileText(es)), |LinesOf(FileText(es))|)
    ensures forall i :: 0 <= i < |es| ==> Carried(es[i])
  {
    hide *;
    var lines := LinesOf(FileText(es));
    HeldSpotless(ds, lines, es);
    CleanLines(es);
    AllSlashed(es);
    forall i | 0 <= i < |es| ensures Carried(es[i]) {
      OneCarried(es[i]);
    }
  }

  lemma HeldSpotless(ds: seq<Dev>, lines: seq<string>, es: seq<Entry>)
    requires Holds(ds, es) && Traced(ds, lines, |lines|)
    ensures |es| <= |lines| && forall i :: 0 <= i < |es| ==> Spotless(es[i]) && Clean(es[i], '\n')
    ensures |es| == |lines| ==> forall i :: 0 <= i < |es| ==> es[i] == RawEntry(CLine(lines[i]))
  {
    hide Clean, RawEntry, CLine, FieldsOf;
    ContentsAre(ds);
    forall i | 0 <= i < |es| ensures es[i] == (ds[i].name, Contents(ds)[ds[i]]) { }
  }

  lemma OneCarried(e: Entry)
    requires Spotless(e) && Slashed(e.0) && e == RawEntry(CLine(SaveText(e.0, e.1)))
    ensures Carried(e)
  {
    hide *;
    SpotlessIs(e.0, e.1);
    SpotlessParts(e);
    TextClean(e);
    WholeLine(SaveText(e.0, e.1));
    RawBack(e);
    ReadsBackIff(e.0, e.1);
    CarriedIs(e);
  }

  lemma SpotlessParts(e: Entry)
    requires Spotless(e)
    ensures Clean(e, '\n') && Clean(e, '\0') && NoChar(e.0, '\n') && NoCharIn(e.1.pairs, '\n')
  {
    hide NoChar, NoCharIn;
  }

  lemma WholeLine(l: string)
    requires NoChar(l, '\0')
    ensures CLine(l) == l
  {
    WholeValue(l);
  }

  lemma RawBack(e: Entry)
    requires Slashed(e.0) && e == RawEntry(SaveText(e.0, e.1))
    ensures ReadsBack(e.0, e.1)
  {
    hide LineOf, ReadAttrs, SaveText;
  }

  lemma CarriedIs(e: Entry)
    requires Printable(e.0, e.1) && NoChar(e.0, '\n') && NoChar(SaveText(e.0, e.1), '\0') && NoCharIn(e.1.pairs, '\n')
    ensures Carried(e)
  {
    hide Printable, NoChar, SaveText;
  }

  // ---------- reading, continued ----------

  lemma SoFarHeld(ds: seq<Dev>, lines: seq<string>, es: seq<Entry>, n: nat, accessible: string -> bool)
    requires ReadSoFar(true, ds, lines, es, n, accessible)
    ensures Saveable(es) && lines == LinesOf(FileText(es)) && n <= |es|
      && HeldThen(ds, Contents(ds), Present(es[..n], accessible))
  {
    hide Saveable, LinesOf, FileText, FieldsOf, Present;
    HeldNow(ds, Present(es[..n], accessible));
  }

  lemma NotSaved(ds: seq<Dev>, lines: seq<string>, es: seq<Entry>, n: nat, accessible: string -> bool)
    ensures ReadSoFar(false, ds, lines, es, n, accessible)
  {
  }

  lemma LastIsNew(cache: Cache, ds: seq<Dev>, dev: Dev?)
    requires cache.Valid() && (dev != null ==> cache.devs == ds + [dev])
    ensures dev !in ds
  {
    assert Distinct(cache.devs);
    hide Cache.Valid;
    if dev != null {
      assert forall i :: 0 <= i < |ds| ==> cache.devs[i] == ds[i];
      assert cache.devs[|ds|] == dev;
    }
  }

  // ---------- flushed, then read ----------

  /** The devices that are written. */
  ghost function Written(ds: seq<Dev>): seq<Entry>
    reads ds, TagsOf(ds)`val
  {
    if ds == [] then []
    else (if ds[0].bidType.Some? && !ds[0].removable then [(ds[0].name, FieldsOf(ds[0]))] else []) + Written(ds[1..])
  }

  lemma {:induction false} FlushIsFileText(ds: seq<Dev>)
    ensures FlushText(ds) == FileText(Written(ds))
  {
    if ds != [] {
      hide SaveText, FieldsOf;
      FlushIsFileText(ds[1..]);
      if ds[0].bidType.Some? && !ds[0].removable {
        assert ([(ds[0].name, FieldsOf(ds[0]))] + Written(ds[1..]))[1..] == Written(ds[1..]);
      } else {
        assert [] + Written(ds[1..]) == Written(ds[1..]);
      }
    }
  }

  /** What a line of the file can carry of a device with a TYPE. */
  ghost predicate Carried(e: Entry) {
    && Printable(e.0, e.1) && NoChar(e.0, '\n') && NoChar(SaveText(e.0, e.1), '\0')
    && NoCharIn(e.1.pairs, '\n')
  }

  lemma {:induction false} WrittenFrom(ds: seq<Dev>)
    ensures forall i :: 0 <= i < |Written(ds)| ==>
      exists j :: 0 <= j < |ds| && ds[j].bidType.Some? && Written(ds)[i] == (ds[j].name, FieldsOf(ds[j]))
  {
    hide FieldsOf;
    if ds == [] {
      assert Written(ds) == [];
    } else {
      var r, w := Written(ds[1..]), Written(ds);
      WrittenFrom(ds[1..]);
      forall i | 0 <= i < |w|
        ensures exists j :: 0 <= j < |ds| && ds[j].bidType.Some? && w[i] == (ds[j].name, FieldsOf(ds[j]))
      {
        if |w| == |r| || i > 0 {
          var m := if |w| == |r| then i else i - 1;
          assert w[i] == r[m];
          var j :| 0 <= j < |ds[1..]| && ds[1..][j].bidType.Some? && r[m] == (ds[1..][j].name, FieldsOf(ds[1..][j]));
          assert ds[j + 1] == ds[1..][j];
        } else {
          assert w[i] == (ds[0].name, FieldsOf(ds[0])) && ds[0].bidType.Some?;
        }
      }
    }
  }

  lemma {:induction false} WrittenApart(ds: seq<Dev>)
    requires forall i, j :: 0 <= i < j < |ds| ==> ds[i].name != ds[j].name
    ensures forall i, j :: 0 <= i < j < |Written(ds)| ==> Written(ds)[i].0 != Written(ds)[j].0
  {
    hide FieldsOf;
    if ds != [] {
      assert forall i, j :: 0 <= i < j < |ds[1..]| ==> ds[1..][i] == ds[i + 1] && ds[1..][j] == ds[j + 1];
      WrittenApart(ds[1..]);
      WrittenFrom(ds[1..]);
      assert forall j :: 0 <= j < |ds[1..]| ==> ds[1..][j] == ds[j + 1];
    }
  }

  /** In a valid cache only the text of names and values can stand in the way of being saved. */
  lemma SaveableIff(cache: Cache)
    requires cache.Valid()
    ensures var es := Written(cache.devs); Saveable(es) <==> forall i :: 0 <= i < |es| ==> Carried(es[i])
  {
    var ds, es := cache.devs, Written(cache.devs);
    DevNamesApart(cache);
    WrittenApart(ds);
    WrittenFrom(ds);
    forall i | 0 <= i < |es| ensures HasType(es[i].1.pairs) && UniqueNames(es[i].1.pairs) {
      var j :| 0 <= j < |ds| && ds[j].bidType.Some? && es[i] == (ds[j].name, FieldsOf(ds[j]));
      WrittenWhole(cache, ds[j]);
    }
    hide Printable, HasType, UniqueNames, NoChar, SaveText, Written;
  }

  lemma DevNamesApart(cache: Cache)
    requires cache.Valid()
    ensures forall i, j :: 0 <= i < j < |cache.devs| ==> cache.devs[i].name != cache.devs[j].name
  {
    assert Distinct(cache.devs) && cache.OneDevPerName();
    hide Cache.Valid;
  }

  lemma WrittenWhole(cache: Cache, d: Dev)
    requires cache.Valid() && d in cache.devs && d.bidType.Some?
    ensures HasType(FieldsOf(d).pairs) && UniqueNames(FieldsOf(d).pairs)
  {
    FlushedHaveType(cache, d);
    assert d.Ok();
    d.PairsUnique();
    hide HasType, Cache.Valid, UniqueNames;
  }

  /** blkid_flush_cache(), then blkid_get_cache() on the file that was written: the new cache holds the written devices
      whose file is still there, in order, with the same names, numbers and tags. When all their files are there, that
      is so if and only if a line can carry each of them. */
  method FlushAndRead(cache: Cache, accessible: string -> bool) returns (written: bool, again: Cache, over: bool)
    requires cache.Valid()
    modifies cache`changed
    ensures again.Valid() && fresh(again) && (!over ==> !again.changed)
    ensures written <==> cache.devs != [] && old(cache.changed)
    ensures var es := old(Written(cache.devs));
      && (written && (forall i :: 0 <= i < |es| ==> Carried(es[i])) ==>
        !over && Holds(again.devs, Present(es, accessible)))
      && (written && (forall i :: 0 <= i < |es| ==> accessible(es[i].0)) ==>
        (!over && Holds(again.devs, es) <==> forall i :: 0 <= i < |es| ==> Carried(es[i])))
  {
    hide *;
    ghost var es := Written(cache.devs);
    SaveableIff(cache);
    FlushIsFileText(cache.devs);
    var file;
    written, file := FlushCache(cache);
    again := new Cache();
    over := false;
    if written {
      ReachWithin(again);
      ReachNew(again);
      ghost var k;
      over, k := ReadCache(again, true, file, accessible, Reach(again), es);
      AllPresent(es, accessible);
      if !over && Holds(again.devs, es) { TracedCarried(again.devs, es); }
    }
  }

  lemma {:induction false} AllPresent(es: seq<Entry>, accessible: string -> bool)
    ensures (forall i :: 0 <= i < |es| ==> accessible(es[i].0)) ==> Present(es, accessible) == es
  {
    if es != [] {
      AllPresent(es[..|es| - 1], accessible);
      assert es[..|es| - 1] + [es[|es| - 1]] == es;
    }
  }

  lemma ReachNew(c: Cache)
    requires c.devs == [] && c.heads == []
    ensures Reach(c) == {c}
  {
  }
}
