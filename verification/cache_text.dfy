/** The text of the cache file (save.c, read.c): what one line says, and how its cursor functions cut it. A C string at
    position `i` of a buffer is the text up to the next NUL. */
module CacheText {
  import opened CNumber

  const ERR_CACHE: int := 14

  // ---------- cursor functions, on values ----------

  /** How far skip_over_word() moves: a backslash takes the next character along. */
  function WordLen(s: string): (n: nat)
    ensures n <= |s|
  {
    if s == "" then 0
    else if s[0] == '\\' then (if |s| == 1 then 1 else 2 + WordLen(s[2..]))
    else if IsSpace(s[0]) || s[0] == '<' || s[0] == '>' then 0
    else 1 + WordLen(s[1..])
  }

  function StripEnd(s: string): (r: string)
    ensures r <= s
  {
    if s != "" && IsSpace(s[|s| - 1]) then StripEnd(s[..|s| - 1]) else s
  }

  /** strip_line() */
  function Strip(s: string): string { StripEnd(SkipBlank(s)) }

  predicate NoChar(s: string, c: char) { forall i :: 0 <= i < |s| ==> s[i] != c }

  /** strchr(): the first place of `c`, or the length when there is none. */
  function First(s: string, c: char): (k: nat)
    ensures k <= |s| && (k < |s| ==> s[k] == c) && forall j :: 0 <= j < k ==> s[j] != c
  {
    if s == "" || s[0] == c then 0 else 1 + First(s[1..], c)
  }

  /** strrchr() */
  function Last(s: string, c: char): (k: nat)
    ensures k <= |s| && (k < |s| ==> s[k] == c)
    ensures if k < |s| then forall j :: k < j < |s| ==> s[j] != c else forall j :: 0 <= j < |s| ==> s[j] != c
  {
    if s == "" then 0
    else if s[|s| - 1] == c then |s| - 1
    else
      var k := Last(s[..|s| - 1], c);
      if k < |s| - 1 then k else |s|
  }

  // ---------- quoting ----------

  /** What save_quoted() puts between the quotes. */
  function Escape(s: string): string {
    if s == "" then "" else EscapeChar(s[0]) + Escape(s[1..])
  }

  function EscapeChar(c: char): string { if c == '"' || c == '\\' then ['\\', c] else [c] }

  /** The unquoting loop on the text after an opening quote. Open: no closing quote was met; Beyond: a lone backslash
      at the end takes the loop past the end of the string. */
  datatype Quote = Closed(text: string, rest: string) | Open(text: string) | Beyond

  function Put(c: char, q: Quote): Quote {
    match q
    case Closed(text, rest) => Closed([c] + text, rest)
    case Open(text) => Open([c] + text)
    case Beyond => Beyond
  }

  function Unquote(t: string): (q: Quote)
    ensures q.Closed? ==> |q.text| + |q.rest| < |t|
    ensures q.Open? ==> |q.text| <= |t|
  {
    if t == "" then Open("")
    else if t[0] == '\\' then (if |t| == 1 then Beyond else Put(t[1], Unquote(t[2..])))
    else if t[0] == '"' then Closed("", t[1..])
    else Put(t[0], Unquote(t[1..]))
  }

  lemma Assoc(a: string, b: string, c: string)
    ensures (a + b) + c == a + (b + c)
  {
  }

  lemma UnquoteChar(c: char, u: string)
    ensures Unquote(EscapeChar(c) + u) == Put(c, Unquote(u))
  {
    var t := EscapeChar(c) + u;
    assert t[|EscapeChar(c)|..] == u;
  }

  lemma UnquoteEnd(rest: string)
    ensures Unquote("\"" + rest) == Closed("", rest)
  {
    assert ("\"" + rest)[1..] == rest;
  }

  /** Unquoting undoes quoting, whatever the value and whatever follows. */
  lemma {:induction false} UnquoteEscape(s: string, rest: string)
    ensures Unquote(Escape(s) + ("\"" + rest)) == Closed(s, rest)
  {
    hide Unquote, EscapeChar;
    var tail := "\"" + rest;
    if s == "" {
      UnquoteEnd(rest);
      assert Escape(s) + tail == tail;
    } else {
      UnquoteEscape(s[1..], rest);
      UnquoteChar(s[0], Escape(s[1..]) + tail);
      Assoc(EscapeChar(s[0]), Escape(s[1..]), tail);
      assert s == [s[0]] + s[1..];
    }
  }

  // ---------- tokens ----------

  /** What parse_token() finds. Bad: unbalanced quotes, an error. Overrun: the cursor leaves the line. */
  datatype Token = NoToken | Bad | Overrun | Token(name: string, value: string, rest: string)

  /** After an unbalanced quote the test `*end != '"'` looks at the character under the write cursor. */
  function Unbalanced(v: string, text: string): Token
    requires |text| <= |v|
  {
    if |text| < |v| && v[|text|] == '"' then Overrun else Bad
  }

  function TokenOf(s: string): (t: Token)
    ensures t.Token? ==> |t.rest| < |s|
  {
    var k := First(s, '=');
    if k == |s| then NoToken
    else
      var name, v := Strip(s[..k]), SkipBlank(s[k + 1..]);
      if v != "" && v[0] == '"' then
        match Unquote(v[1..])
        case Closed(text, rest) => Token(name, text, rest)
        case Open(text) => Unbalanced(v[1..], text)
        case Beyond => Overrun
      else
        var n := WordLen(v);
        Token(name, v[..n], if n < |v| then v[n + 1..] else "")
  }

  // ---------- a line ----------

  const DEVICE := "<device"
  const TRAILER := "</device>"

  /** What parse_dev() finds: a line to skip, an error, or a device's name and its attributes. */
  datatype Line = Skip | BadLine | Line(name: string, attrs: string)

  /** The text at the end of the name, cut after the last trailer. */
  function CutTrailer(e: string): string {
    var j := Last(e, '<');
    if j < |e| && TRAILER <= e[j..] then e[..j + |TRAILER|] else e
  }

  function LineOf(line: string): Line {
    var p := Strip(line);
    if p == "" || p[0] == '#' then Skip
    else if DEVICE <= p then
      var s := p[|DEVICE|..];
      var gt := First(s, '>');
      if gt == |s| then BadLine
      else
        var start := SkipBlank(s[gt + 1..]);
        var n := WordLen(start);
        if n <= 1 then BadLine
        else Line(start[..n], if gt == 0 then CutTrailer(start[n..]) else s[1..gt])
    else if p[0] == '<' then Skip
    else BadLine
  }
}
