/** Saved devices: the line save_dev() prints for one, and what reading a line makes of a new device. */
module CacheFile {
  import opened Wrappers
  import opened TagIndex
  import opened CNumber
  import opened CacheText

  /** The fields of a device that the file keeps. */
  datatype Fields = Fields(devno: nat, time: int, utime: int, pri: int, pairs: seq<Pair>)

  /** What blkid_new_dev() and blkid_get_dev() leave in a new device. */
  const NEW: Fields := Fields(0, INT_MIN, 0, 0, [])

  // ---------- printing ----------

  function Quoted(v: string): string { "\"" + Escape(v) + "\"" }

  function AttrText(p: Pair): string { " " + p.0 + "=" + Quoted(p.1) }

  function AttrsText(ps: seq<Pair>): string {
    if ps == [] then "" else AttrText(ps[0]) + AttrsText(ps[1..])
  }

  /** The attributes before the tags. */
  function HeadAttrs(f: Fields): seq<Pair>
  {
    [("DEVNO", Hex4(f.devno)), ("TIME", Dec(f.time) + "." + Dec(f.utime))]
      + (if f.pri != 0 then [("PRI", Dec(f.pri))] else [])
  }

  /** save_dev() */
  function SaveText(name: string, f: Fields): string
  {
    if name == "" || name[0] != '/' then ""
    else DEVICE + AttrsText(HeadAttrs(f) + f.pairs) + ">" + name + TRAILER + "\n"
  }

  // ---------- reading ----------

  /** parse_tag() on one token. */
  function Apply(f: Fields, name: string, value: string): Fields {
    if name == "DEVNO" then f.(devno := StrToULL(value).0)
    else if name == "PRI" then f.(pri := Signed32(StrToL(value)))
    else if name == "TIME" then
      var (time, end) := StrToULL(value);
      if end != "" && end[0] == '.' then f.(time := Signed64(time), utime := Signed64(StrToULL(end[1..]).0))
      else f.(time := Signed64(time))
    else f.(pairs := SetValue(f.pairs, name, value))
  }

  /** blkid_set_tag() with a value, as `SetPair` states it. */
  function SetValue(ps: seq<Pair>, name: string, value: string): seq<Pair> {
    if ps == [] then [(name, value)]
    else if ps[0].0 == name then [(name, value)] + ps[1..]
    else [ps[0]] + SetValue(ps[1..], name, value)
  }

  lemma {:induction false} SetValueIsSetPair(ps: seq<Pair>, name: string, value: string)
    ensures SetValue(ps, name, value) == SetPair(ps, name, Some(value))
  {
    if ps != [] { SetValueIsSetPair(ps[1..], name, value); }
  }

  function ApplyAll(f: Fields, ps: seq<Pair>): Fields
    decreases |ps|
  {
    if ps == [] then f else ApplyAll(Apply(f, ps[0].0, ps[0].1), ps[1..])
  }

  datatype Attrs = Attrs(f: Fields, end: Token)

  /** The parse_tag() loop: it ends without a further token, on an error, or beyond the line. */
  function ReadAttrs(s: string, f: Fields): Attrs
    decreases |s|
  {
    match TokenOf(s)
    case Token(name, value, rest) => ReadAttrs(rest, Apply(f, name, value))
    case end => Attrs(f, end)
  }

  // ---------- reading undoes printing ----------

  /** A name that survives: without '=', '>' and outer blanks. */
  predicate PlainName(n: string) {
    && NoChar(n, '=') && NoChar(n, '>')
    && (n != "" ==> !IsSpace(n[0]) && !IsSpace(n[|n| - 1]))
  }

  predicate Special(n: string) { n == "DEVNO" || n == "PRI" || n == "TIME" }

  /** No tag bears a field's name. */
  predicate Ordinary(ps: seq<Pair>) { forall i :: 0 <= i < |ps| ==> !Special(ps[i].0) }

  lemma OrdinaryCons(p: Pair, ps: seq<Pair>)
    ensures Ordinary([p] + ps) <==> !Special(p.0) && Ordinary(ps)
  {
    var c := [p] + ps;
    assert c[0] == p && forall i :: 0 <= i < |ps| ==> c[i + 1] == ps[i];
  }

  lemma {:induction false} FirstIs(s: string, c: char, t: string)
    requires NoChar(s, c)
    ensures First(s + [c] + t, c) == |s|
  {
    if s == "" {
      assert (s + [c] + t)[0] == c;
    } else {
      var u := s[1..];
      assert NoChar(u, c) by { forall i | 0 <= i < |u| ensures u[i] != c { assert u[i] == s[i + 1]; } }
      FirstIs(u, c, t);
      assert (s + [c] + t)[1..] == u + [c] + t && (s + [c] + t)[0] == s[0];
    }
  }

  lemma StripName(n: string)
    requires PlainName(n)
    ensures Strip(n) == n && Strip(" " + n) == n
  {
    assert SkipBlank(n) == n;
    assert (" " + n)[1..] == n;
    assert SkipBlank(" " + n) == n;
    assert StripEnd(n) == n;
  }

  /** One printed attribute reads as itself; the space before it makes no difference. */
  lemma TokenBack(sp: string, n: string, v: string, rest: string)
    requires PlainName(n) && (sp == "" || sp == " ")
    ensures TokenOf((sp + n) + ['='] + (['"'] + (Escape(v) + ("\"" + rest)))) == Token(n, v, rest)
  {
    var q := Escape(v) + ("\"" + rest);
    var t := ['"'] + q;
    var a := sp + n;
    var s := a + ['='] + t;
    assert NoChar(a, '=');
    FirstIs(a, '=', t);
    StripName(n);
    assert sp + n == if sp == "" then n else " " + n;
    UnquoteEscape(v, rest);
    hide *;
    TokenParts(s, a, t, q, n, v, rest);
  }

  lemma TokenParts(s: string, a: string, t: string, q: string, n: string, v: string, rest: string)
    requires s == a + ['='] + t && First(s, '=') == |a| && Strip(a) == n && t == ['"'] + q
      && Unquote(q) == Closed(v, rest)
    ensures TokenOf(s) == Token(n, v, rest)
  {
    hide First, Strip, Unquote;
    assert s[..|a|] == a && s[|a| + 1..] == t && t[1..] == q;
    assert SkipBlank(t) == t;
  }

  lemma AttrShape(p: Pair, t: string)
    ensures AttrText(p) + t == (" " + p.0) + ['='] + (['"'] + (Escape(p.1) + ("\"" + t)))
  {
  }

  predicate PlainNames(ps: seq<Pair>) { forall i :: 0 <= i < |ps| ==> PlainName(ps[i].0) }

  /** The attributes of a line, with or without the leading space, are read one by one. */
  lemma {:induction false} AttrsBack(ps: seq<Pair>, f: Fields)
    requires PlainNames(ps)
    ensures ReadAttrs(AttrsText(ps), f) == Attrs(ApplyAll(f, ps), NoToken)
    ensures ps != [] ==> AttrsText(ps) != "" && ReadAttrs(AttrsText(ps)[1..], f) == Attrs(ApplyAll(f, ps), NoToken)
  {
    if ps == [] {
      assert First("", '=') == 0;
    } else {
      var n, v, rest := ps[0].0, ps[0].1, AttrsText(ps[1..]);
      assert PlainNames(ps[1..]) by {
        forall i | 0 <= i < |ps| - 1 ensures PlainName(ps[1..][i].0) { assert ps[1..][i] == ps[i + 1]; }
      }
      var f' := Apply(f, n, v);
      AttrsBack(ps[1..], f');
      AttrShape(ps[0], rest);
      TokenBack(" ", n, v, rest);
      TokenBack("", n, v, rest);
      NoSpace(n, ['"'] + (Escape(v) + ("\"" + rest)));
      hide TokenOf, PlainName, Apply, AttrText;
      assert AttrsText(ps) == AttrText(ps[0]) + rest;
    }
  }

  lemma NoSpace(n: string, t: string)
    ensures ((" " + n) + ['='] + t) != "" && ((" " + n) + ['='] + t)[1..] == ("" + n) + ['='] + t
  {
  }

  lemma {:induction false} ApplyParts(f: Fields, a: seq<Pair>, b: seq<Pair>)
    ensures ApplyAll(f, a + b) == ApplyAll(ApplyAll(f, a), b)
    decreases |a|
  {
    if a == [] {
      assert a + b == b;
    } else {
      assert (a + b)[1..] == a[1..] + b;
      ApplyParts(Apply(f, a[0].0, a[0].1), a[1..], b);
    }
  }

  /** The numbers a device can hold: an unsigned 64-bit device number, 64-bit times, a 32-bit priority. */
  predicate InRange(f: Fields) {
    f.devno < TWO64 && -TWO63 <= f.time < TWO63 && -TWO63 <= f.utime < TWO63 && -TWO31 <= f.pri < TWO31
  }

  lemma HeadBack(f: Fields)
    requires InRange(f)
    ensures ApplyAll(NEW, HeadAttrs(f)) == f.(pairs := [])
  {
    hide *;
    var devno, time, pri := ("DEVNO", Hex4(f.devno)), ("TIME", Dec(f.time) + "." + Dec(f.utime)), ("PRI", Dec(f.pri));
    var g := NEW.(devno := f.devno);
    var h := g.(time := f.time, utime := f.utime);
    RangeParts(f);
    DevnoBack(NEW, f.devno);
    TimeBack(g, f.time, f.utime);
    PriBack(h, f.pri);
    ApplyOne(NEW, devno);
    ApplyOne(g, time);
    ApplyOne(h, pri);
    ApplyParts(NEW, [devno], [time]);
    ApplyParts(NEW, [devno] + [time], [pri]);
    HeadAttrsAre(f, devno, time, pri);
  }

  lemma RangeParts(f: Fields)
    requires InRange(f)
    ensures f.devno < TWO64 && -TWO63 <= f.time < TWO63 && -TWO63 <= f.utime < TWO63 && -TWO31 <= f.pri < TWO31
    ensures NEW.pairs == [] && NEW.pri == 0
  {
  }

  lemma HeadAttrsAre(f: Fields, devno: Pair, time: Pair, pri: Pair)
    requires devno == ("DEVNO", Hex4(f.devno)) && time == ("TIME", Dec(f.time) + "." + Dec(f.utime))
      && pri == ("PRI", Dec(f.pri))
    ensures HeadAttrs(f) == if f.pri != 0 then [devno] + [time] + [pri] else [devno] + [time]
  {
    hide Dec, Hex4;
  }

  lemma ApplyOne(f: Fields, p: Pair)
    ensures ApplyAll(f, [p]) == Apply(f, p.0, p.1)
  {
    hide Apply;
    assert [p][1..] == [];
  }

  lemma DevnoBack(f: Fields, devno: nat)
    requires devno < TWO64
    ensures Apply(f, "DEVNO", Hex4(devno)) == f.(devno := devno)
  {
    hide Hex4, StrToULL;
    HexBack(devno);
  }

  lemma PriBack(f: Fields, pri: int)
    requires -TWO31 <= pri < TWO31
    ensures Apply(f, "PRI", Dec(pri)) == f.(pri := pri)
  {
    hide Dec, StrToL, Signed32;
    IntBack(pri);
  }

  lemma TimeBack(f: Fields, time: int, utime: int)
    requires -TWO63 <= time < TWO63 && -TWO63 <= utime < TWO63
    ensures Apply(f, "TIME", Dec(time) + "." + Dec(utime)) == f.(time := time, utime := utime)
  {
    hide *;
    var end := "." + Dec(utime);
    DecBack(time, end);
    DecBack(utime, "");
    Assoc(Dec(time), ".", Dec(utime));
    assert Dec(utime) + "" == Dec(utime) && end[1..] == Dec(utime);
    ApplyTime(f, Dec(time) + end, end);
  }

  lemma ApplyTime(f: Fields, value: string, end: string)
    requires StrToULL(value).1 == end && end != "" && end[0] == '.'
    ensures Apply(f, "TIME", value) == f.(time := Signed64(StrToULL(value).0), utime := Signed64(StrToULL(end[1..]).0))
  {
    hide StrToULL, Signed64;
  }

  /** Tags with new names are appended in order. */
  lemma {:induction false} TagsBack(f: Fields, ps: seq<Pair>)
    requires UniqueNames(f.pairs + ps) && Ordinary(ps)
    ensures ApplyAll(f, ps) == f.(pairs := f.pairs + ps)
    decreases |ps|
  {
    if ps == [] {
      assert f.pairs + ps == f.pairs;
    } else {
      assert [ps[0]] + ps[1..] == ps;
      OrdinaryCons(ps[0], ps[1..]);
      var all := f.pairs + ps;
      forall i | 0 <= i < |f.pairs| ensures f.pairs[i].0 != ps[0].0 {
        assert all[i].0 != all[|f.pairs|].0;
      }
      SetAbsent(f.pairs, ps[0].0, Some(ps[0].1));
      SetValueIsSetPair(f.pairs, ps[0].0, ps[0].1);
      var g := Apply(f, ps[0].0, ps[0].1);
      assert g.pairs + ps[1..] == all;
      TagsBack(g, ps[1..]);
    }
  }

  // ---------- the whole line ----------

  /** skip_over_word() takes all of it: no bare blank or angle bracket, no lone backslash at the end. */
  predicate WholeWord(s: string) {
    s == "" || (if s[0] == '\\' then |s| > 1 && WholeWord(s[2..])
      else !IsSpace(s[0]) && s[0] != '<' && s[0] != '>' && WholeWord(s[1..]))
  }

  lemma {:induction false} WordIs(s: string, t: string)
    requires WholeWord(s) && t != "" && t[0] == '<'
    ensures WordLen(s + t) == |s|
  {
    if s == "" {
      assert s + t == t;
    } else {
      var k := if s[0] == '\\' then 2 else 1;
      WordIs(s[k..], t);
      assert (s + t)[k..] == s[k..] + t && (s + t)[0] == s[0];
    }
  }

  /** A device whose name and tags the line format can carry. */
  predicate Printable(name: string, f: Fields) {
    && InRange(f)
    && |name| >= 2 && name[0] == '/' && WholeWord(name)
    && PlainNames(f.pairs)
    && Ordinary(f.pairs) && (forall i :: 0 <= i < |f.pairs| ==> NoChar(f.pairs[i].1, '>'))
  }

  lemma {:induction false} EscapeNoChar(s: string, c: char)
    requires NoChar(s, c) && c != '\\'
    ensures NoChar(Escape(s), c)
  {
    if s != "" {
      assert NoChar(s[1..], c) by { forall i | 0 <= i < |s| - 1 ensures s[1..][i] != c { assert s[1..][i] == s[i + 1];
        } }
      EscapeNoChar(s[1..], c);
    }
  }

  predicate NoCharIn(ps: seq<Pair>, c: char) { forall i :: 0 <= i < |ps| ==> NoChar(ps[i].0, c) && NoChar(ps[i].1, c) }

  lemma {:induction false} AttrsNoChar(ps: seq<Pair>, c: char)
    requires NoCharIn(ps, c) && c != '\\' && c != '"' && c != ' ' && c != '='
    ensures NoChar(AttrsText(ps), c)
  {
    if ps != [] {
      assert NoCharIn(ps[1..], c) by { forall i | 0 <= i < |ps| - 1 ensures ps[1..][i] == ps[i + 1] { } }
      AttrsNoChar(ps[1..], c);
      EscapeNoChar(ps[0].1, c);
      hide Escape;
      assert NoChar(AttrText(ps[0]), c);
    }
  }

  lemma HeadPlain(f: Fields)
    ensures PlainNames(HeadAttrs(f)) && NoCharIn(HeadAttrs(f), '>') && HeadAttrs(f) != []
  {
    hide Dec, Hex4;
    NumbersPlain(f.time, f.devno);
    NumbersPlain(f.utime, 0);
    NumbersPlain(f.pri, 0);
  }

  /** The line of a device is cut into its name and its attributes. */
  lemma LineBack(a: string, name: string)
    requires a != "" && NoChar(a, '>') && |name| >= 2 && name[0] == '/' && WholeWord(name)
    ensures LineOf(DEVICE + a + ">" + name + TRAILER + "\n") == Line(name, a[1..])
  {
    var start := name + TRAILER;
    var s := a + ['>'] + start;
    FirstIs(a, '>', start);
    WordIs(name, TRAILER);
    assert SkipBlank(start) == start;
    hide *;
    LineShape(a, name, start, s);
    StripLine(DEVICE + s);
    LineParts(DEVICE + s + "\n", s, start, |a|, |name|);
  }

  lemma LineShape(a: string, name: string, start: string, s: string)
    requires a != "" && start == name + TRAILER && s == a + ['>'] + start
    ensures DEVICE + a + ">" + name + TRAILER + "\n" == DEVICE + s + "\n"
    ensures s[|a| + 1..] == start && s[1..|a|] == a[1..] && start[..|name|] == name && |s| > |a|
    ensures !IsSpace((DEVICE + s)[0]) && !IsSpace((DEVICE + s)[|DEVICE + s| - 1])
  {
    assert (DEVICE + s)[|DEVICE + s| - 1] == TRAILER[8];
  }

  lemma LineParts(line: string, s: string, start: string, gt: nat, n: nat)
    requires Strip(line) == DEVICE + s && First(s, '>') == gt && 0 < gt < |s|
    requires SkipBlank(s[gt + 1..]) == start && WordLen(start) == n > 1
    ensures LineOf(line) == Line(start[..n], s[1..gt])
  {
    hide First, Strip, WordLen, SkipBlank, CutTrailer;
    var p := DEVICE + s;
    assert p[|DEVICE|..] == s && p[0] == '<' && DEVICE <= p;
  }

  lemma StripLine(body: string)
    requires body != "" && !IsSpace(body[0]) && !IsSpace(body[|body| - 1])
    ensures Strip(body + "\n") == body
  {
    var line := body + "\n";
    assert SkipBlank(line) == line && line[..|line| - 1] == body && line[|line| - 1] == '\n';
    assert StripEnd(body) == body;
  }

  /** Reading what save_dev() printed gives back the name and every saved field, tags in order. */
  lemma SaveReadsBack(name: string, f: Fields)
    requires Printable(name, f) && UniqueNames(f.pairs)
    ensures LineOf(SaveText(name, f)).Line?
    ensures var l := LineOf(SaveText(name, f)); l.name == name && ReadAttrs(l.attrs, NEW) == Attrs(f, NoToken)
  {
    var ps := HeadAttrs(f) + f.pairs;
    HeadPlain(f);
    AttrsNoChar(ps, '>');
    AttrsBack(ps, NEW);
    LineBack(AttrsText(ps), name);
    HeadBack(f);
    ApplyParts(NEW, HeadAttrs(f), f.pairs);
    assert [] + f.pairs == f.pairs;
    TagsBack(f.(pairs := []), f.pairs);
  }

  /** Once the attributes are cut as they were printed, only those named DEVNO, PRI and TIME do not come back as
      tags. */
  lemma TagsComeBackIff(f: Fields)
    requires InRange(f) && UniqueNames(f.pairs)
    ensures ApplyAll(NEW, HeadAttrs(f) + f.pairs).pairs == f.pairs <==> Ordinary(f.pairs)
  {
    if Ordinary(f.pairs) {
      HeadBack(f);
      ApplyParts(NEW, HeadAttrs(f), f.pairs);
      assert [] + f.pairs == f.pairs;
      TagsBack(f.(pairs := []), f.pairs);
    }
    NoSpecial(NEW, HeadAttrs(f) + f.pairs);
  }

  lemma {:induction false} NoSpecial(f: Fields, ps: seq<Pair>)
    requires Ordinary(f.pairs)
    ensures var r := ApplyAll(f, ps).pairs; Ordinary(r)
    decreases |ps|
  {
    if ps != [] {
      if !Special(ps[0].0) { SetNoSpecial(f.pairs, ps[0].0, ps[0].1); }
      hide SetValue, StrToULL, StrToL, Ordinary;
      NoSpecial(Apply(f, ps[0].0, ps[0].1), ps[1..]);
    }
  }

  lemma {:induction false} SetNoSpecial(ps: seq<Pair>, name: string, value: string)
    requires !Special(name) && Ordinary(ps)
    ensures var r := SetValue(ps, name, value); Ordinary(r)
  {
    if ps == [] {
      OrdinaryCons((name, value), []);
      assert [(name, value)] + [] == [(name, value)];
    } else {
      assert [ps[0]] + ps[1..] == ps;
      OrdinaryCons(ps[0], ps[1..]);
      if ps[0].0 == name {
        OrdinaryCons((name, value), ps[1..]);
      } else {
        SetNoSpecial(ps[1..], name, value);
        OrdinaryCons(ps[0], SetValue(ps[1..], name, value));
      }
    }
  }

  // ---------- the whole file ----------

  type Entry = (string, Fields)

  /** The lines fgets() delivers. */
  function LinesOf(text: string): seq<string> {
    if text == "" then []
    else
      var k := First(text, '\n');
      if k == |text| then [text] else [text[..k + 1]] + LinesOf(text[k + 1..])
  }

  /** The device of a line, if the line holds one with a TYPE. */
  function EntryOf(line: string): seq<Entry> {
    match LineOf(line)
    case Line(name, attrs) =>
      var f := ReadAttrs(attrs, NEW).f;
      if HasType(f.pairs) then [(name, f)] else []
    case _ => []
  }

  predicate HasType(ps: seq<Pair>) { exists i :: 0 <= i < |ps| && ps[i].0 == "TYPE" }

  function EntriesOf(lines: seq<string>): seq<Entry> {
    if lines == [] then [] else EntryOf(lines[0]) + EntriesOf(lines[1..])
  }

  function FileText(es: seq<Entry>): string
  {
    if es == [] then "" else SaveText(es[0].0, es[0].1) + FileText(es[1..])
  }

  /** What one line of the file can carry. */
  predicate OneLine(e: Entry) {
    && Printable(e.0, e.1) && NoChar(e.0, '\n') && HasType(e.1.pairs)
    && NoCharIn(e.1.pairs, '\n')
  }

  /** A saved device is one line: no newline but the last character. */
  lemma SavedIsALine(e: Entry)
    requires OneLine(e)
    ensures exists b :: SaveText(e.0, e.1) == b + ['\n'] && NoChar(b, '\n')
  {
    hide Dec, Hex4;
    var ps := HeadAttrs(e.1) + e.1.pairs;
    NumbersPlain(e.1.time, e.1.devno);
    NumbersPlain(e.1.utime, 0);
    NumbersPlain(e.1.pri, 0);
    AttrsNoChar(ps, '\n');
    hide AttrsText, HeadAttrs;
    assert SaveText(e.0, e.1) == DEVICE + AttrsText(ps) + ">" + e.0 + TRAILER + ['\n'];
  }

  /** Reading the file gives back every saved device, in order. */
  lemma {:induction false} FileReadsBack(es: seq<Entry>)
    requires forall i :: 0 <= i < |es| ==> OneLine(es[i]) && UniqueNames(es[i].1.pairs)
    ensures EntriesOf(LinesOf(FileText(es))) == es
  {
    if es != [] {
      hide OneLine, UniqueNames, LinesOf, EntryOf, SaveText;
      assert OneLine(es[0]) && UniqueNames(es[0].1.pairs);
      assert forall i :: 0 <= i < |es| - 1 ==> es[1..][i] == es[i + 1];
      FileReadsBack(es[1..]);
      hide *;
      EntryBack(es[0], FileText(es[1..]));
      EntriesStep(SaveText(es[0].0, es[0].1), LinesOf(FileText(es[1..])));
      FileTextStep(es);
    }
  }

  lemma FileTextStep(es: seq<Entry>)
    requires es != []
    ensures FileText(es) == SaveText(es[0].0, es[0].1) + FileText(es[1..]) && es == [es[0]] + es[1..]
  {
    hide SaveText;
  }

  lemma EntryBack(e: Entry, rest: string)
    requires OneLine(e) && UniqueNames(e.1.pairs)
    ensures EntryOf(SaveText(e.0, e.1)) == [e]
    ensures LinesOf(SaveText(e.0, e.1) + rest) == [SaveText(e.0, e.1)] + LinesOf(rest)
  {
    hide LineOf, SaveText, UniqueNames, Printable, First, LinesOf, ReadAttrs;
    var line := SaveText(e.0, e.1);
    SavedIsALine(e);
    SaveReadsBack(e.0, e.1);
    var b :| line == b + ['\n'] && NoChar(b, '\n');
    FirstIs(b, '\n', rest);
    FirstLine(line, rest, b);
  }

  lemma FirstLine(line: string, rest: string, b: string)
    requires line == b + ['\n'] && First(b + ['\n'] + rest, '\n') == |b|
    ensures LinesOf(line + rest) == [line] + LinesOf(rest)
  {
    hide First;
    assert (line + rest)[..|b| + 1] == line && (line + rest)[|b| + 1..] == rest;
  }

  lemma EntriesStep(line: string, lines: seq<string>)
    ensures EntriesOf([line] + lines) == EntryOf(line) + EntriesOf(lines)
  {
    hide EntryOf;
    assert ([line] + lines)[1..] == lines;
  }
}
