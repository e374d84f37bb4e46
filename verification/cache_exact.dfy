/** Exactly which devices the cache file can carry: what reading produces, and so what has to be written to come
    back. */
module CacheExact {
  import opened Wrappers
  import opened TagIndex
  import opened CNumber
  import opened CacheText
  import opened CacheFile

  // ---------- characters ----------

  lemma NoCharPart(s: string, c: char, i: nat, j: nat)
    requires NoChar(s, c) && i <= j <= |s|
    ensures NoChar(s[i..j], c)
  {
  }

  lemma NoCharRest(s: string, c: char, i: nat)
    requires NoChar(s, c) && i <= |s|
    ensures NoChar(s[i..], c) && NoChar(s[..i], c)
  {
  }

  lemma {:induction false} SkipBlankIs(s: string) returns (k: nat)
    ensures k <= |s| && SkipBlank(s) == s[k..] && (SkipBlank(s) != "" ==> !IsSpace(SkipBlank(s)[0]))
  {
    if s != "" && IsSpace(s[0]) {
      k := SkipBlankIs(s[1..]);
      k := k + 1;
    } else {
      k := 0;
    }
  }

  lemma {:induction false} StripEndIs(s: string)
    ensures StripEnd(s) == s[..|StripEnd(s)|]
    ensures StripEnd(s) != "" ==> !IsSpace(StripEnd(s)[|StripEnd(s)| - 1])
  {
    if s != "" && IsSpace(s[|s| - 1]) { StripEndIs(s[..|s| - 1]); }
  }

  /** A stripped text has no outer blanks, and no characters of its own. */
  lemma StripIs(s: string, c: char)
    ensures NoChar(s, c) ==> NoChar(Strip(s), c)
    ensures var r := Strip(s); r != "" ==> !IsSpace(r[0]) && !IsSpace(r[|r| - 1])
  {
    var k := SkipBlankIs(s);
    StripEndIs(SkipBlank(s));
    hide SkipBlank, StripEnd;
  }

  lemma SkipBlankNoChar(s: string, c: char)
    requires NoChar(s, c)
    ensures NoChar(SkipBlank(s), c)
  {
    var k := SkipBlankIs(s);
    hide SkipBlank;
  }

  lemma NoCharCons(a: char, s: string, c: char)
    ensures NoChar([a] + s, c) <==> a != c && NoChar(s, c)
  {
    var t := [a] + s;
    assert t[0] == a && forall i :: 0 <= i < |s| ==> t[i + 1] == s[i];
  }

  lemma {:induction false} UnquoteNoChar(t: string, c: char)
    requires NoChar(t, c)
    ensures var q := Unquote(t);
      (q.Closed? ==> NoChar(q.text, c) && NoChar(q.rest, c)) && (q.Open? ==> NoChar(q.text, c))
    decreases |t|
  {
    if t != "" {
      if t[0] == '\\' {
        if |t| > 1 {
          NoCharRest(t, c, 2);
          UnquoteNoChar(t[2..], c);
          PutNoChar(t[1], Unquote(t[2..]), c);
        }
      } else {
        NoCharRest(t, c, 1);
        UnquoteNoChar(t[1..], c);
        PutNoChar(t[0], Unquote(t[1..]), c);
      }
    }
  }

  lemma PutNoChar(a: char, q: Quote, c: char)
    requires a != c && (q.Closed? ==> NoChar(q.text, c) && NoChar(q.rest, c)) && (q.Open? ==> NoChar(q.text, c))
    ensures var r := Put(a, q);
      (r.Closed? ==> NoChar(r.text, c) && NoChar(r.rest, c)) && (r.Open? ==> NoChar(r.text, c))
  {
    if q.Closed? { NoCharCons(a, q.text, c); }
    if q.Open? { NoCharCons(a, q.text, c); }
  }

  // ---------- tokens ----------

  /** Nothing in a token that is not in the text; its name is cut at the first '=' and stripped. */
  lemma TokenNoChar(s: string, c: char)
    requires NoChar(s, c) && TokenOf(s).Token?
    ensures var t := TokenOf(s); NoChar(t.name, c) && NoChar(t.value, c) && NoChar(t.rest, c)
  {
    var k := First(s, '=');
    NoCharRest(s, c, k);
    NoCharRest(s, c, k + 1);
    StripIs(s[..k], c);
    SkipBlankNoChar(s[k + 1..], c);
    var v := SkipBlank(s[k + 1..]);
    hide SkipBlank, Strip, First, WordLen, Unquote;
    if v != "" && v[0] == '"' {
      NoCharRest(v, c, 1);
      UnquoteNoChar(v[1..], c);
    } else {
      var n := WordLen(v);
      NoCharRest(v, c, n);
      if n < |v| { NoCharRest(v, c, n + 1); }
    }
  }

  lemma TokenName(s: string)
    requires NoChar(s, '>') && TokenOf(s).Token?
    ensures PlainName(TokenOf(s).name)
  {
    TokenNoChar(s, '>');
    var k := First(s, '=');
    assert NoChar(s[..k], '=');
    StripIs(s[..k], '=');
    hide SkipBlank, Strip, First, WordLen, Unquote;
    assert TokenOf(s).name == Strip(s[..k]);
  }

  // ---------- what reading produces ----------

  /** Numbers in range, plain names, each once and none that is a field's, no value with a bracket. */
  ghost predicate Readable(f: Fields) {
    InRange(f) && UniqueNames(f.pairs) && Ordinary(f.pairs) && PlainNames(f.pairs) && NoCharIn(f.pairs, '>')
  }

  lemma {:induction false} SetNoCharIn(ps: seq<Pair>, name: string, value: string, c: char)
    requires NoCharIn(ps, c) && NoChar(name, c) && NoChar(value, c)
    ensures NoCharIn(SetValue(ps, name, value), c)
  {
    if ps != [] && ps[0].0 != name {
      assert NoCharIn(ps[1..], c) by { forall i | 0 <= i < |ps| - 1 ensures ps[1..][i] == ps[i + 1] { } }
      SetNoCharIn(ps[1..], name, value, c);
      var r := SetValue(ps[1..], name, value);
      forall i | 0 <= i < 1 + |r| ensures ([ps[0]] + r)[i] == if i == 0 then ps[0] else r[i - 1] { }
    }
  }

  lemma {:induction false} SetPlainNames(ps: seq<Pair>, name: string, value: string)
    requires PlainNames(ps) && PlainName(name)
    ensures PlainNames(SetValue(ps, name, value))
  {
    hide PlainName;
    if ps != [] && ps[0].0 != name {
      assert PlainNames(ps[1..]) by { forall i | 0 <= i < |ps| - 1 ensures ps[1..][i] == ps[i + 1] { } }
      SetPlainNames(ps[1..], name, value);
      var r := SetValue(ps[1..], name, value);
      forall i | 0 <= i < 1 + |r| ensures ([ps[0]] + r)[i] == if i == 0 then ps[0] else r[i - 1] { }
    }
  }

  lemma SetReadable(ps: seq<Pair>, name: string, value: string)
    requires UniqueNames(ps) && Ordinary(ps) && PlainNames(ps) && NoCharIn(ps, '>')
    requires PlainName(name) && !Special(name) && NoChar(value, '>')
    ensures var r := SetValue(ps, name, value); UniqueNames(r) && Ordinary(r) && PlainNames(r) && NoCharIn(r, '>')
  {
    SetValueIsSetPair(ps, name, value);
    SetKeepsUnique(ps, name, Some(value));
    SetNoSpecial(ps, name, value);
    SetPlainNames(ps, name, value);
    SetNoCharIn(ps, name, value, '>');
  }

  lemma ApplyReadable(f: Fields, name: string, value: string)
    requires Readable(f) && PlainName(name) && NoChar(value, '>')
    ensures Readable(Apply(f, name, value))
  {
    hide PlainName, StrToULL, StrToL, SetValue, UniqueNames, Ordinary, PlainNames, NoCharIn;
    if !Special(name) { SetReadable(f.pairs, name, value); }
  }

  /** Whatever is read from a text without a bracket is readable. */
  lemma {:induction false} ReadReadable(s: string, f: Fields)
    requires Readable(f) && NoChar(s, '>')
    ensures Readable(ReadAttrs(s, f).f)
    decreases |s|
  {
    hide Readable, TokenOf, Apply, PlainName;
    if TokenOf(s).Token? {
      var t := TokenOf(s);
      TokenNoChar(s, '>');
      TokenName(s);
      ApplyReadable(f, t.name, t.value);
      ReadReadable(t.rest, Apply(f, t.name, t.value));
    }
  }

  lemma NewReadable()
    ensures Readable(NEW)
  {
  }

  // ---------- the line of a device ----------

  /** Reading the line that save_dev() printed finds the same name and fields. */
  ghost predicate ReadsBack(name: string, f: Fields) {
    var l := LineOf(SaveText(name, f));
    l.Line? && l.name == name && ReadAttrs(l.attrs, NEW).f == f
  }

  lemma {:induction false} WholeIfWord(s: string, t: string)
    requires t != "" && t[0] == '<'
    ensures WordLen(s + t) == |s| <==> WholeWord(s)
  {
    if s == "" {
      assert s + t == t;
    } else if s[0] == '\\' && |s| == 1 {
      assert (s + t)[0] == '\\' && |s + t| > 1;
    } else {
      var k := if s[0] == '\\' then 2 else 1;
      WholeIfWord(s[k..], t);
      assert (s + t)[k..] == s[k..] + t && (s + t)[0] == s[0];
    }
  }

  /** The attributes end before the first bracket. */
  lemma AttrsEnd(a: string, name: string)
    requires a != "" && a[0] == ' '
    ensures var l := LineOf(DEVICE + a + ">" + name + TRAILER + "\n"); l.Line? ==> NoChar(l.attrs, '>')
  {
    hide *;
    var s := a + ['>'] + (name + TRAILER);
    LineShape(a, name, name + TRAILER, s);
    StripLine(DEVICE + s);
    FirstBracket(DEVICE + s + "\n", s);
  }

  lemma FirstBracket(line: string, s: string)
    requires Strip(line) == DEVICE + s && s != "" && s[0] == ' '
    ensures LineOf(line).Line? ==> NoChar(LineOf(line).attrs, '>')
  {
    hide Strip, First, WordLen, SkipBlank;
    assert (DEVICE + s)[|DEVICE|..] == s && (DEVICE + s)[0] == '<';
    var gt := First(s, '>');
    assert gt > 0 && NoChar(s[1..gt], '>');
  }

  /** Without a bracket in the attributes, the name comes back exactly when it is one word of more than a slash. */
  lemma NameBackIff(a: string, name: string)
    requires a != "" && NoChar(a, '>') && name != "" && name[0] == '/'
    ensures var l := LineOf(DEVICE + a + ">" + name + TRAILER + "\n");
      l.Line? && l.name == name ==> |name| >= 2 && WholeWord(name)
  {
    var start := name + TRAILER;
    var s := a + ['>'] + start;
    FirstIs(a, '>', start);
    WholeIfWord(name, TRAILER);
    assert SkipBlank(start) == start;
    LineShape(a, name, start, s);
    StripLine(DEVICE + s);
    var p := Strip(DEVICE + s + "\n");
    hide *;
    NameCase(DEVICE + s + "\n", s, start, |a|, name);
  }

  lemma NameCase(line: string, s: string, start: string, gt: nat, name: string)
    requires Strip(line) == DEVICE + s && First(s, '>') == gt && 0 < gt < |s| && SkipBlank(s[gt + 1..]) == start
    ensures LineOf(line).Line? && LineOf(line).name == name ==> WordLen(start) == |name| && |name| >= 2
  {
    hide First, Strip, WordLen, SkipBlank;
    assert (DEVICE + s)[|DEVICE|..] == s && (DEVICE + s)[0] == '<';
  }

  lemma AttrsFront(f: Fields)
    ensures var a := AttrsText(HeadAttrs(f) + f.pairs); a != "" && a[0] == ' '
  {
    var ps := HeadAttrs(f) + f.pairs;
    hide Dec, Hex4, Escape;
    assert ps[0] == ("DEVNO", Hex4(f.devno));
    assert AttrsText(ps) == AttrText(ps[0]) + AttrsText(ps[1..]);
  }

  /** A saved line reads back to the same device if and only if the device is printable, with every name once. */
  lemma ReadsBackIff(name: string, f: Fields)
    ensures ReadsBack(name, f) <==> Printable(name, f) && UniqueNames(f.pairs)
  {
    if Printable(name, f) && UniqueNames(f.pairs) {
      SaveReadsBack(name, f);
    }
    if ReadsBack(name, f) {
      BackIsPrintable(name, f);
    }
  }

  lemma BackIsPrintable(name: string, f: Fields)
    requires ReadsBack(name, f)
    ensures Printable(name, f) && UniqueNames(f.pairs)
  {
    hide *;
    BackParts(name, f);
    SavedShape(name, f);
    var a := AttrsText(HeadAttrs(f) + f.pairs);
    AttrsFront(f);
    AttrsEnd(a, name);
    NewReadable();
    ReadReadable(LineOf(SaveText(name, f)).attrs, NEW);
    ReadableParts(f);
    AttrsNoChar(HeadAttrs(f) + f.pairs, '>');
    NameBackIff(a, name);
    PrintableIs(name, f);
  }

  lemma SavedShape(name: string, f: Fields)
    ensures LineOf(SaveText(name, f)).Line? ==>
      name != "" && name[0] == '/'
      && SaveText(name, f) == DEVICE + AttrsText(HeadAttrs(f) + f.pairs) + ">" + name + TRAILER + "\n"
  {
    hide AttrsText, HeadAttrs;
    if name == "" || name[0] != '/' {
      assert Strip("") == "";
    }
  }

  lemma BackParts(name: string, f: Fields)
    requires ReadsBack(name, f)
    ensures var l := LineOf(SaveText(name, f)); l.Line? && l.name == name && ReadAttrs(l.attrs, NEW).f == f
  {
    hide LineOf, SaveText, ReadAttrs;
  }

  lemma ReadableParts(f: Fields)
    requires Readable(f)
    ensures InRange(f) && UniqueNames(f.pairs) && Ordinary(f.pairs) && PlainNames(f.pairs) && NoCharIn(f.pairs, '>')
    ensures NoCharIn(HeadAttrs(f) + f.pairs, '>')
  {
    hide HeadAttrs, InRange, UniqueNames, Ordinary, PlainNames;
    HeadPlain(f);
  }

  lemma PrintableIs(name: string, f: Fields)
    requires InRange(f) && Ordinary(f.pairs) && PlainNames(f.pairs) && NoCharIn(f.pairs, '>')
    requires |name| >= 2 && name[0] == '/' && WholeWord(name)
    ensures Printable(name, f)
  {
    hide InRange, Ordinary, PlainNames, WholeWord;
  }

  /** A bracket in a value loses the device: here a label. */
  lemma BracketLost()
    ensures var f := Fields(0x801, 1, 0, 0, [("TYPE", "ext4"), ("LABEL", "a>b")]);
      InRange(f) && UniqueNames(f.pairs) && Ordinary(f.pairs) && PlainNames(f.pairs) && !ReadsBack("/dev/sda1", f)
  {
    hide ReadsBack, Printable;
    var f := Fields(0x801, 1, 0, 0, [("TYPE", "ext4"), ("LABEL", "a>b")]);
    ReadsBackIff("/dev/sda1", f);
    assert f.pairs[1].1[1] == '>';
    BracketUnprintable("/dev/sda1", f, 1);
  }

  lemma BracketUnprintable(name: string, f: Fields, i: nat)
    requires i < |f.pairs| && !NoChar(f.pairs[i].1, '>')
    ensures !Printable(name, f)
  {
    hide InRange, PlainNames, Ordinary, WholeWord, NoChar;
  }

  // ---------- the whole file ----------

  lemma {:induction false} ReadNoChar(s: string, f: Fields, c: char)
    requires NoChar(s, c) && NoCharIn(f.pairs, c)
    ensures NoCharIn(ReadAttrs(s, f).f.pairs, c)
    decreases |s|
  {
    hide TokenOf, NoCharIn, SetValue;
    if TokenOf(s).Token? {
      var t := TokenOf(s);
      TokenNoChar(s, c);
      if !Special(t.name) { SetNoCharIn(f.pairs, t.name, t.value, c); }
      ApplyPairs(f, t.name, t.value);
      ReadNoChar(t.rest, Apply(f, t.name, t.value), c);
    }
  }

  lemma ApplyPairs(f: Fields, name: string, value: string)
    ensures Apply(f, name, value).pairs == if Special(name) then f.pairs else SetValue(f.pairs, name, value)
  {
    hide StrToULL, StrToL, SetValue;
  }

  /** Nothing in a line's name and attributes that is not in the stripped line. */
  lemma LineNoChar(line: string, c: char)
    requires NoChar(Strip(line), c) && LineOf(line).Line?
    ensures NoChar(LineOf(line).name, c) && NoChar(LineOf(line).attrs, c)
  {
    hide Strip, First, SkipBlank, WordLen, CutTrailer;
    var p := Strip(line);
    var s := p[|DEVICE|..];
    NoCharRest(p, c, |DEVICE|);
    var gt := First(s, '>');
    NoCharRest(s, c, gt + 1);
    SkipBlankNoChar(s[gt + 1..], c);
    var start := SkipBlank(s[gt + 1..]);
    NoCharRest(start, c, WordLen(start));
    if gt == 0 {
      CutNoChar(start[WordLen(start)..], c);
    } else {
      NoCharPart(s, c, 1, gt);
    }
  }

  lemma CutNoChar(e: string, c: char)
    requires NoChar(e, c)
    ensures NoChar(CutTrailer(e), c)
  {
    hide Last;
  }

  /** A newline ends a line, and stripping takes it away. */
  ghost predicate EndedLine(l: string) { NoChar(l, '\n') || (l != "" && NoChar(l[..|l| - 1], '\n')) }

  lemma {:induction false} LinesEnded(text: string)
    ensures forall i :: 0 <= i < |LinesOf(text)| ==> EndedLine(LinesOf(text)[i])
    decreases |text|
  {
    hide EndedLine;
    if text != "" {
      var k := First(text, '\n');
      if k == |text| {
        LineEnded(text, k);
      } else {
        LineEnded(text[..k + 1], k);
        LinesEnded(text[k + 1..]);
        var r := LinesOf(text[k + 1..]);
        assert LinesOf(text) == [text[..k + 1]] + r;
      }
    }
  }

  lemma LineEnded(l: string, k: nat)
    requires (k == |l| || k == |l| - 1) && forall j :: 0 <= j < k ==> l[j] != '\n'
    ensures EndedLine(l)
  {
  }

  lemma StrippedLine(l: string)
    requires EndedLine(l)
    ensures NoChar(Strip(l), '\n')
  {
    var k := SkipBlankIs(l);
    var t := SkipBlank(l);
    StripEndIs(t);
    hide SkipBlank, StripEnd;
    if !NoChar(l, '\n') {
      forall i | 0 <= i < |StripEnd(t)| ensures StripEnd(t)[i] != '\n' {
        assert StripEnd(t)[i] == l[k + i];
        if k + i == |l| - 1 { assert StripEnd(t)[|StripEnd(t)| - 1] == l[|l| - 1]; }
      }
    }
  }

  ghost predicate Clean(e: Entry, c: char) { NoChar(e.0, c) && NoCharIn(e.1.pairs, c) }

  /** A device read from a line holds no newline. */
  lemma EntryClean(line: string)
    requires EndedLine(line)
    ensures |EntryOf(line)| <= 1 && forall i :: 0 <= i < |EntryOf(line)| ==> Clean(EntryOf(line)[i], '\n')
  {
    StrippedLine(line);
    hide Strip, ReadAttrs, HasType, LineOf, NoChar, NoCharIn, EndedLine;
    if LineOf(line).Line? {
      LineNoChar(line, '\n');
      NothingIn();
      ReadNoChar(LineOf(line).attrs, NEW, '\n');
    }
  }

  lemma NothingIn()
    ensures forall c :: NoCharIn(NEW.pairs, c)
  {
  }

  lemma {:induction false} EntriesClean(lines: seq<string>)
    requires forall i :: 0 <= i < |lines| ==> EndedLine(lines[i])
    ensures |EntriesOf(lines)| <= |lines|
    ensures forall i :: 0 <= i < |EntriesOf(lines)| ==> Clean(EntriesOf(lines)[i], '\n')
  {
    hide Clean, EndedLine, EntryOf;
    if lines != [] {
      assert EndedLine(lines[0]);
      EntryClean(lines[0]);
      EntriesClean(lines[1..]);
      var a, b := EntryOf(lines[0]), EntriesOf(lines[1..]);
      assert EntriesOf(lines) == a + b;
    }
  }

  predicate Slashed(name: string) { name != "" && name[0] == '/' }

  /** The lines of the devices that are written at all. */
  function SavedLines(es: seq<Entry>): (r: seq<string>)
    ensures |r| <= |es|
  {
    if es == [] then []
    else (if Slashed(es[0].0) then [SaveText(es[0].0, es[0].1)] else []) + SavedLines(es[1..])
  }

  lemma CleanLine(e: Entry)
    requires Clean(e, '\n') && Slashed(e.0)
    ensures exists b :: SaveText(e.0, e.1) == b + ['\n'] && NoChar(b, '\n')
  {
    hide *;
    var ps := HeadAttrs(e.1) + e.1.pairs;
    HeadClean(e.1, '\n');
    CleanParts(e, '\n');
    AttrsNoChar(ps, '\n');
    CleanText(e, AttrsText(ps));
  }

  lemma CleanParts(e: Entry, c: char)
    requires Clean(e, c) && NoCharIn(HeadAttrs(e.1), c)
    ensures NoChar(e.0, c)
    ensures var ps := HeadAttrs(e.1) + e.1.pairs;
      NoCharIn(ps, c) && forall i :: 0 <= i < |ps| ==> NoChar(ps[i].0, c) && NoChar(ps[i].1, c)
  {
    hide HeadAttrs, NoChar;
  }

  lemma CleanText(e: Entry, a: string)
    requires NoChar(a, '\n') && NoChar(e.0, '\n') && Slashed(e.0) && a == AttrsText(HeadAttrs(e.1) + e.1.pairs)
    ensures exists b :: SaveText(e.0, e.1) == b + ['\n'] && NoChar(b, '\n')
  {
    hide AttrsText, HeadAttrs;
    var b := DEVICE + a + ">" + e.0 + TRAILER;
    assert SaveText(e.0, e.1) == b + ['\n'];
  }

  lemma HeadClean(f: Fields, c: char)
    requires c == '\n' || c == '\0'
    ensures NoCharIn(HeadAttrs(f), c)
  {
    hide Dec, Hex4;
    NumbersPlain(f.time, f.devno);
    NumbersPlain(f.utime, 0);
    NumbersPlain(f.pri, 0);
  }

  /** Without newlines in the devices, the file holds one line for each that is written. */
  lemma {:induction false} CleanLines(es: seq<Entry>)
    requires forall i :: 0 <= i < |es| ==> Clean(es[i], '\n')
    ensures LinesOf(FileText(es)) == SavedLines(es)
  {
    hide Clean, LinesOf, SaveText, FileText, Slashed;
    if es == [] {
      NoText();
    } else {
      assert Clean(es[0], '\n');
      CleanLines(es[1..]);
      FileTextStep(es);
      if Slashed(es[0].0) {
        CleanLine(es[0]);
        OneMoreLine(SaveText(es[0].0, es[0].1), FileText(es[1..]));
      } else {
        NotSaved(es[0]);
        assert "" + FileText(es[1..]) == FileText(es[1..]);
      }
    }
  }

  lemma NoText()
    ensures LinesOf(FileText([])) == []
  {
  }

  lemma NotSaved(e: Entry)
    requires !Slashed(e.0)
    ensures SaveText(e.0, e.1) == ""
  {
  }

  lemma OneMoreLine(line: string, rest: string)
    requires exists b :: line == b + ['\n'] && NoChar(b, '\n')
    ensures LinesOf(line + rest) == [line] + LinesOf(rest)
  {
    hide LinesOf, First;
    var b :| line == b + ['\n'] && NoChar(b, '\n');
    FirstIs(b, '\n', rest);
    FirstLine(line, rest, b);
  }

  /** As many devices as lines: every line gave its own device back. */
  lemma {:induction false} AllBack(es: seq<Entry>)
    requires EntriesOf(SavedLines(es)) == es
    ensures forall i :: 0 <= i < |es| ==> Slashed(es[i].0) && EntryOf(SaveText(es[i].0, es[i].1)) == [es[i]]
  {
    hide EntryOf, SaveText, Slashed;
    if es != [] {
      var rest := SavedLines(es[1..]);
      EntriesFew(rest);
      NotFirst(es);
      if Slashed(es[0].0) {
        var l := SaveText(es[0].0, es[0].1);
        EntriesStep(l, rest);
        EntryOne(l);
        var a, b := EntryOf(l), EntriesOf(rest);
        assert a + b == es;
        assert |a| == 1 && a == es[..1] && b == es[1..];
        AllBack(es[1..]);
        forall i | 0 <= i < |es| ensures Slashed(es[i].0) && EntryOf(SaveText(es[i].0, es[i].1)) == [es[i]] {
          if i > 0 { assert es[i] == es[1..][i - 1]; }
        }
      }
    }
  }

  lemma NotFirst(es: seq<Entry>)
    requires es != []
    ensures !Slashed(es[0].0) ==> SavedLines(es) == SavedLines(es[1..])
  {
  }

  lemma EntryOne(line: string)
    ensures |EntryOf(line)| <= 1
  {
    hide LineOf, ReadAttrs, HasType;
  }

  lemma {:induction false} EntriesFew(lines: seq<string>)
    ensures |EntriesOf(lines)| <= |lines|
  {
    hide EntryOf;
    if lines != [] {
      EntryOne(lines[0]);
      EntriesFew(lines[1..]);
    }
  }

  /** A file of saved devices reads back to exactly these devices, in order, if and only if each of them is one
      printable line with a TYPE, and with every name once. */
  lemma FileReadsBackIff(es: seq<Entry>)
    ensures EntriesOf(LinesOf(FileText(es))) == es <==>
      forall i :: 0 <= i < |es| ==> OneLine(es[i]) && UniqueNames(es[i].1.pairs)
  {
    hide OneLine, UniqueNames, LinesOf, FileText, EntriesOf;
    if forall i :: 0 <= i < |es| ==> OneLine(es[i]) && UniqueNames(es[i].1.pairs) {
      FileReadsBack(es);
    }
    if EntriesOf(LinesOf(FileText(es))) == es {
      LinesEnded(FileText(es));
      EntriesClean(LinesOf(FileText(es)));
      CleanLines(es);
      AllBack(es);
      forall i | 0 <= i < |es| ensures OneLine(es[i]) && UniqueNames(es[i].1.pairs) {
        EntryIsOneLine(es[i]);
      }
    }
  }

  lemma EntryIsOneLine(e: Entry)
    requires EntryOf(SaveText(e.0, e.1)) == [e] && Clean(e, '\n')
    ensures OneLine(e) && UniqueNames(e.1.pairs)
  {
    EntryParts(e);
    ReadsBackIff(e.0, e.1);
    hide Printable, HasType, UniqueNames, EntryOf, NoChar;
  }

  lemma EntryParts(e: Entry)
    requires EntryOf(SaveText(e.0, e.1)) == [e]
    ensures ReadsBack(e.0, e.1) && HasType(e.1.pairs)
  {
    hide LineOf, ReadAttrs, HasType, SaveText;
  }
}
