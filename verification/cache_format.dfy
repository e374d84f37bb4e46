/** The layout of the cache file (save.c, read.c), apart from what saving and reading make of each other: a line in
    full, the lines that are skipped, and values without quotes. */
module CacheFormat {
  import opened CNumber
  import opened CacheText
  import opened CacheFile

  // ---------- a line in full ----------

  lemma SampleDevno()
    ensures Hex4(0x10ab) == "0x10ab"
  {
    assert Digits(1, 16) == "1";
    assert Digits(16, 16) == "10";
    assert Digits(266, 16) == "10a";
    assert Digits(4267, 16) == "10ab";
    assert PadZeros("10ab", 4) == "10ab";
  }

  lemma SampleTimes()
    ensures Dec(12) == "12" && Dec(5) == "5" && Dec(-1) == "-1" && "12" + "." + "5" == "12.5"
  {
    assert Digits(1, 10) == "1" && Digits(5, 10) == "5" && Digits(12, 10) == "12";
  }

  lemma EscapeCons(c: char, s: string)
    ensures Escape([c] + s) == EscapeChar(c) + Escape(s)
  {
    hide EscapeChar;
    assert ([c] + s)[1..] == s;
  }

  lemma {:induction false} EscapePlain(s: string)
    requires NoChar(s, '"') && NoChar(s, '\\')
    ensures Escape(s) == s
  {
    if s != "" {
      assert forall i :: 0 <= i < |s| - 1 ==> s[1..][i] == s[i + 1];
      EscapePlain(s[1..]);
      assert [s[0]] + s[1..] == s;
    }
  }

  lemma QuotedPlain(s: string)
    requires NoChar(s, '"') && NoChar(s, '\\')
    ensures Quoted(s) == "\"" + s + "\""
  {
    EscapePlain(s);
  }

  lemma PlainAttr(name: string, value: string)
    requires NoChar(value, '"') && NoChar(value, '\\')
    ensures AttrText((name, value)) == " " + name + "=\"" + value + "\""
  {
    QuotedPlain(value);
    assert " " + name + "=" + ("\"" + value + "\"") == " " + name + "=\"" + value + "\"";
  }

  lemma QuotedAttr()
    ensures AttrText(("LABEL", "a\"b")) == " LABEL=\"a\\\"b\""
  {
    EscapePlain("b");
    EscapeCons('"', "b");
    EscapeCons('a', "\"b");
    assert ['"'] + "b" == "\"b" && ['a'] + "\"b" == "a\"b";
    assert EscapeChar('"') == "\\\"" && EscapeChar('a') == "a";
    hide Escape, EscapeChar;
    assert Escape("a\"b") == "a\\\"b";
  }

  lemma AttrsCons(p: (string, string), ps: seq<(string, string)>)
    ensures AttrsText([p] + ps) == AttrText(p) + AttrsText(ps)
  {
    hide AttrText;
    assert ([p] + ps)[1..] == ps;
  }

  /** The line of a device with a priority and a quote in its label. */
  lemma SampleLine()
    ensures SaveText("/dev/sda1", Fields(0x10ab, 12, 5, -1, [("LABEL", "a\"b")])) ==
      "<device" + (" DEVNO=\"0x10ab\"" + (" TIME=\"12.5\"" + (" PRI=\"-1\"" + " LABEL=\"a\\\"b\"")))
      + ">" + "/dev/sda1" + "</device>" + "\n"
  {
    SampleHead();
    assert DEVICE == "<device" && TRAILER == "</device>";
    hide HeadAttrs, AttrsText;
    SampleAttrs();
  }

  lemma SampleHead()
    ensures var f := Fields(0x10ab, 12, 5, -1, [("LABEL", "a\"b")]);
      HeadAttrs(f) + f.pairs ==
        [("DEVNO", "0x10ab")] + ([("TIME", "12.5")] + ([("PRI", "-1")] + ([("LABEL", "a\"b")] + [])))
  {
    SampleDevno();
    SampleTimes();
    hide Hex4, Dec;
  }

  lemma SampleAttrs()
    ensures AttrsText([("DEVNO", "0x10ab")] + ([("TIME", "12.5")] + ([("PRI", "-1")] + ([("LABEL", "a\"b")] + [])))) ==
      " DEVNO=\"0x10ab\"" + (" TIME=\"12.5\"" + (" PRI=\"-1\"" + " LABEL=\"a\\\"b\""))
  {
    NoAttrs();
    hide *;
    DevnoAttr();
    TimeAttr();
    PriAttr();
    QuotedAttr();
    AttrsCons(("LABEL", "a\"b"), []);
    AttrsCons(("PRI", "-1"), [("LABEL", "a\"b")] + []);
    AttrsCons(("TIME", "12.5"), [("PRI", "-1")] + ([("LABEL", "a\"b")] + []));
    AttrsCons(("DEVNO", "0x10ab"), [("TIME", "12.5")] + ([("PRI", "-1")] + ([("LABEL", "a\"b")] + [])));
    var l := " LABEL=\"a\\\"b\"";
    assert l + "" == l;
  }

  lemma NoAttrs()
    ensures AttrsText([]) == ""
  {
  }

  lemma DevnoAttr()
    ensures AttrText(("DEVNO", "0x10ab")) == " DEVNO=\"0x10ab\""
  {
    PlainAttr("DEVNO", "0x10ab");
    hide AttrText;
  }

  lemma TimeAttr()
    ensures AttrText(("TIME", "12.5")) == " TIME=\"12.5\""
  {
    PlainAttr("TIME", "12.5");
    hide AttrText;
  }

  lemma PriAttr()
    ensures AttrText(("PRI", "-1")) == " PRI=\"-1\""
  {
    PlainAttr("PRI", "-1");
    hide AttrText;
  }

  // ---------- lines that hold no device ----------

  lemma {:induction false} StripEndFirst(s: string)
    requires s != "" && !IsSpace(s[0])
    ensures StripEnd(s) != "" && StripEnd(s)[0] == s[0]
    decreases |s|
  {
    if IsSpace(s[|s| - 1]) { StripEndFirst(s[..|s| - 1]); }
  }

  /** Behind any blanks: nothing, a comment or another element is skipped; other text is an error. */
  lemma {:induction false} LineKinds(line: string)
    ensures var p := SkipBlank(line);
      && (p == "" || p[0] == '#' ==> LineOf(line) == Skip)
      && (p != "" && p[0] == '<' && !("<device" <= p) ==> LineOf(line) == Skip)
      && (p != "" && p[0] != '#' && p[0] != '<' ==> LineOf(line) == BadLine)
  {
    var p := SkipBlank(line);
    SkippedFirst(line);
    if p != "" { StripEndFirst(p); }
    hide SkipBlank, First, Last, WordLen;
    assert DEVICE == "<device" && DEVICE[0] == '<';
  }

  lemma {:induction false} SkippedFirst(s: string)
    ensures SkipBlank(s) != "" ==> !IsSpace(SkipBlank(s)[0])
  {
    if s != "" && IsSpace(s[0]) { SkippedFirst(s[1..]); }
  }

  // ---------- values without quotes ----------

  lemma {:induction false} WordBefore(s: string, t: string)
    requires WholeWord(s) && (t == "" || IsSpace(t[0]) || t[0] == '<' || t[0] == '>')
    ensures WordLen(s + t) == |s|
  {
    if s == "" {
      assert s + t == t;
      assert !IsSpace('\\');
    } else {
      var k := if s[0] == '\\' then 2 else 1;
      WordBefore(s[k..], t);
      assert (s + t)[k..] == s[k..] + t && (s + t)[0] == s[0];
    }
  }

  /** NAME=word is a token too: the value is the word, and reading goes on behind the blank after it. */
  lemma UnquotedToken(n: string, v: string, rest: string)
    requires PlainName(n) && WholeWord(v) && v != "" && v[0] != '"'
    ensures TokenOf(n + ['='] + (v + ([' '] + rest))) == Token(n, v, rest)
    ensures TokenOf(n + ['='] + v) == Token(n, v, "")
  {
    assert IsSpace(' ') && !IsSpace('\\');
    WordBefore(v, [' '] + rest);
    WordBefore(v, "");
    StripName(n);
    FirstIs(n, '=', v + ([' '] + rest));
    FirstIs(n, '=', v);
    assert v + "" == v;
    assert !IsSpace(v[0]);
    hide First, WordLen, WholeWord;
    UnquotedParts(n, v, v + ([' '] + rest), rest);
    UnquotedParts(n, v, v, "");
  }

  lemma UnquotedParts(n: string, v: string, t: string, rest: string)
    requires v != "" && v[0] != '"' && !IsSpace(v[0]) && Strip(n) == n
    requires (t == v + ([' '] + rest) || (t == v && rest == "")) && WordLen(t) == |v|
    requires First(n + ['='] + t, '=') == |n|
    ensures TokenOf(n + ['='] + t) == Token(n, v, rest)
  {
    var s := n + ['='] + t;
    hide First, Strip, WordLen, IsSpace;
    CutAtEquals(n, t);
    CutAtBlank(v, t, rest);
    assert SkipBlank(t) == t;
    hide SkipBlank;
  }

  lemma CutAtEquals(n: string, t: string)
    ensures var s := n + ['='] + t; |s| > |n| && s[..|n|] == n && s[|n| + 1..] == t
  {
  }

  lemma CutAtBlank(v: string, t: string, rest: string)
    requires v != "" && (t == v + ([' '] + rest) || (t == v && rest == ""))
    ensures t != "" && t[0] == v[0] && t[..|v|] == v && rest == if |v| < |t| then t[|v| + 1..] else ""
  {
  }
}
