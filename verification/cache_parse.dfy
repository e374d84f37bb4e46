/** The parser of read.c in its own form: cursors that advance over one line buffer, which is cut and unquoted in place.
    Each function is proved against what `CacheText` says the text means. */
module CacheParse {
  import opened CNumber
  import opened CacheText

  /** `s` is the C string at position `i` of the buffer. */
  ghost predicate CStr(b: seq<char>, i: int, s: string) {
    && 0 <= i && i + |s| < |b| && b[i..i + |s|] == s && b[i + |s|] == '\0' && '\0' !in s
  }

  /** Both buffers agree outside the `n` places from `i` on. */
  ghost predicate Outside(b: seq<char>, c: seq<char>, i: int, n: nat) {
    0 <= i && i + n <= |b| == |c| && b[..i] == c[..i] && b[i + n..] == c[i + n..]
  }

  function Upd(b: seq<char>, i: int, c: char): (r: seq<char>)
    requires 0 <= i < |b|
    ensures |r| == |b|
  {
    b[i := c]
  }

  /** Writes one character. */
  method Poke(buf: array<char>, i: nat, c: char)
    requires i < buf.Length
    modifies buf
    ensures buf[..] == Upd(old(buf[..]), i, c)
  {
    buf[i] := c;
  }

  lemma CStrTail(b: seq<char>, i: int, s: string)
    requires CStr(b, i, s)
    ensures b[i] == (if s == "" then '\0' else s[0]) && (s == "" <==> b[i] == '\0')
    ensures s != "" ==> CStr(b, i + 1, s[1..])
  {
    if s != "" {
      assert b[i] == b[i..i + |s|][0];
      assert b[i + 1..i + |s|] == b[i..i + |s|][1..];
      assert s[0] in s && forall c :: c in s[1..] ==> c in s;
    }
  }

  lemma CStrDrop(b: seq<char>, i: int, s: string, k: nat)
    requires CStr(b, i, s) && k <= |s|
    ensures CStr(b, i + k, s[k..]) && (if k < |s| then b[i + k] == s[k] != '\0' else b[i + k] == '\0')
  {
    assert b[i + k..i + |s|] == b[i..i + |s|][k..];
    assert forall c :: c in s[k..] ==> c in s;
    if k < |s| { assert b[i + k] == b[i..i + |s|][k] && s[k] in s; }
  }

  /** Cutting a string by writing a NUL. */
  lemma CStrCut(b: seq<char>, i: int, s: string, k: nat)
    requires CStr(b, i, s) && k <= |s|
    ensures CStr(Upd(b, i + k, '\0'), i, s[..k]) && Outside(b, Upd(b, i + k, '\0'), i + k, 1)
  {
    var c := Upd(b, i + k, '\0');
    assert c[i..i + k] == b[i..i + |s|][..k];
    assert forall c :: c in s[..k] ==> c in s;
  }

  /** A string keeps its place while only characters outside it change. */
  lemma CStrKept(b: seq<char>, c: seq<char>, i: int, n: nat, j: int, s: string)
    requires CStr(b, j, s) && Outside(b, c, i, n) && (j + |s| < i || i + n <= j)
    ensures CStr(c, j, s)
  {
    forall k | j <= k <= j + |s| ensures b[k] == c[k] {
      if k < i { assert b[..i][k] == c[..i][k]; } else { assert b[i + n..][k - i - n] == c[i + n..][k - i - n]; }
    }
    assert c[j..j + |s|] == b[j..j + |s|];
  }

  lemma OutsideTrans(b: seq<char>, c: seq<char>, d: seq<char>, i: int, n: nat, j: int, m: nat)
    requires Outside(b, c, j, m) && Outside(c, d, i, n) && i <= j && j + m <= i + n
    ensures Outside(b, d, i, n)
  {
    assert b[..i] == b[..j][..i] && c[..i] == c[..j][..i];
    assert b[i + n..] == b[j + m..][i + n - j - m..] && c[i + n..] == c[j + m..][i + n - j - m..];
  }

  lemma OutsideWiden(b: seq<char>, c: seq<char>, i: int, n: nat, j: int, m: nat)
    requires Outside(b, c, j, m) && 0 <= i <= j && j + m <= i + n <= |b|
    ensures Outside(b, c, i, n)
  {
    OutsideTrans(b, c, c, i, n, j, m);
  }

  // ---------- the cursor functions ----------

  method SkipOverBlank(buf: array<char>, cp: nat, ghost s: string) returns (q: nat)
    requires CStr(buf[..], cp, s)
    ensures q + |SkipBlank(s)| == cp + |s| && CStr(buf[..], q, SkipBlank(s))
  {
    q := cp;
    ghost var t := s;
    CStrTail(buf[..], q, t);
    while buf[q] != '\0' && IsSpace(buf[q])
      invariant CStr(buf[..], q, t) && q + |t| == cp + |s| && SkipBlank(t) == SkipBlank(s)
      invariant buf[q] == if t == "" then '\0' else t[0]
      decreases |t|
    {
      CStrTail(buf[..], q, t);
      q := q + 1;
      t := t[1..];
      CStrTail(buf[..], q, t);
    }
    CStrTail(buf[..], q, t);
  }

  method SkipOverWord(buf: array<char>, cp: nat, ghost s: string) returns (q: nat)
    requires CStr(buf[..], cp, s)
    ensures q == cp + WordLen(s)
  {
    hide *;
    q := cp;
    ghost var t := s;
    WordCases(buf[..], q, t);
    while buf[q] != '\0'
      invariant q < buf.Length && CStr(buf[..], q, t) && q + WordLen(t) == cp + WordLen(s)
      invariant buf[q] == '\0' ==> WordLen(t) == 0
      decreases |t|
    {
      WordCases(buf[..], q, t);
      var ch := buf[q];
      if ch == '\\' {
        q := q + 1;
        if buf[q] == '\0' {
          return;
        }
        q := q + 1;
        t := t[2..];
      } else {
        if WordBreak(ch) {
          return;
        }
        q := q + 1;
        t := t[1..];
      }
      WordCases(buf[..], q, t);
    }
  }

  predicate WordBreak(ch: char) { IsSpace(ch) || ch == '<' || ch == '>' }

  /** What skip_over_word() sees at its cursor. */
  lemma WordCases(b: seq<char>, q: int, t: string)
    requires CStr(b, q, t)
    ensures 0 <= q < |b| && (b[q] == '\0' ==> WordLen(t) == 0)
      && (b[q] != '\0' ==> t != "" && q + 1 < |b| && b[q] == t[0])
    ensures b[q] == '\\' && b[q + 1] == '\0' ==> WordLen(t) == 1
    ensures b[q] == '\\' && b[q + 1] != '\0' ==> |t| > 1 && WordLen(t) == 2 + WordLen(t[2..]) && CStr(b, q + 2, t[2..])
    ensures b[q] != '\0' && b[q] != '\\' && WordBreak(b[q]) ==> WordLen(t) == 0
    ensures b[q] != '\0' && b[q] != '\\' && !WordBreak(b[q]) ==>
      WordLen(t) == 1 + WordLen(t[1..]) && CStr(b, q + 1, t[1..])
  {
    CStrTail(b, q, t);
    CStrEnd(b, q, t);
    if t != "" {
      CStrTail(b, q + 1, t[1..]);
      if |t| > 1 {
        CStrDrop(b, q, t, 2);
      }
    }
    hide CStr;
  }

  method StrLen(buf: array<char>, cp: nat, ghost s: string) returns (n: nat)
    requires CStr(buf[..], cp, s)
    ensures n == |s|
  {
    n := 0;
    CStrDrop(buf[..], cp, s, 0);
    while buf[cp + n] != '\0'
      invariant n <= |s| && (n < |s| <==> buf[cp + n] != '\0')
      decreases |s| - n
    {
      n := n + 1;
      CStrDrop(buf[..], cp, s, n);
    }
  }

  method StripLine(buf: array<char>, line: nat, ghost s: string) returns (q: nat)
    requires CStr(buf[..], line, s)
    modifies buf
    ensures q + |SkipBlank(s)| == line + |s| && CStr(buf[..], q, Strip(s))
    ensures Outside(old(buf[..]), buf[..], q, |SkipBlank(s)|)
  {
    hide *;
    q := SkipOverBlank(buf, line, s);
    ghost var t, was := SkipBlank(s), buf[..];
    var n := StrLen(buf, q, t);
    var p := q + n;
    ghost var u := t;
    StripStarts(was, q, s);
    while buf[q] != '\0'
      invariant q < buf.Length && p == q + |u| && Stripping(buf[..], was, q, t, u)
      decreases |u|
    {
      StripNext(buf[..], was, q, t, u);
      if !IsSpace(buf[p - 1]) {
        break;
      }
      Poke(buf, p - 1, '\0');
      p := p - 1;
      u := u[..|u| - 1];
    }
    StripEnds(buf[..], was, q, s, u);
  }

  /** The loop's invariant: `u` is what is left of `t`, and only places of `t` have changed. */
  ghost predicate Stripping(b: seq<char>, was: seq<char>, q: int, t: string, u: string) {
    && CStr(b, q, u) && |u| <= |t| && StripEnd(u) == StripEnd(t) && (u != "" ==> !IsSpace(u[0]))
    && Outside(was, b, q, |t|)
  }

  lemma StripStarts(b: seq<char>, q: int, s: string)
    requires CStr(b, q, SkipBlank(s))
    ensures Stripping(b, b, q, SkipBlank(s), SkipBlank(s)) && 0 <= q < |b|
  {
    SkipBlankHead(s);
    hide StripEnd, SkipBlank;
  }

  lemma StripNext(b: seq<char>, was: seq<char>, q: nat, t: string, u: string)
    requires Stripping(b, was, q, t, u) && q < |b| && b[q] != '\0'
    ensures u != "" && q + |u| <= |b| && b[q + |u| - 1] == u[|u| - 1]
    ensures IsSpace(u[|u| - 1]) ==> Stripping(Upd(b, q + |u| - 1, '\0'), was, q, t, u[..|u| - 1])
    ensures !IsSpace(u[|u| - 1]) ==> StripEnd(u) == u
  {
    hide *;
    StrippingParts(b, was, q, t, u);
    CStrTail(b, q, u);
    CStrEnd(b, q, u);
    LastPlace(b, q, u);
    StripEndStep(u);
    CStrCut(b, q, u, |u| - 1);
    OutsideWiden(b, Upd(b, q + |u| - 1, '\0'), q, |t|, q + |u| - 1, 1);
    OutsideTrans(was, b, Upd(b, q + |u| - 1, '\0'), q, |t|, q, |t|);
    if IsSpace(u[|u| - 1]) { StrippingIs(Upd(b, q + |u| - 1, '\0'), was, q, t, u[..|u| - 1]); }
  }

  lemma StrippingParts(b: seq<char>, was: seq<char>, q: nat, t: string, u: string)
    requires Stripping(b, was, q, t, u)
    ensures CStr(b, q, u) && |u| <= |t| && StripEnd(u) == StripEnd(t) && (u != "" ==> !IsSpace(u[0]))
    ensures Outside(was, b, q, |t|) && q + |t| <= |b|
  {
    hide CStr, StripEnd;
  }

  lemma StrippingIs(b: seq<char>, was: seq<char>, q: nat, t: string, u: string)
    requires CStr(b, q, u) && |u| <= |t| && StripEnd(u) == StripEnd(t) && (u != "" ==> !IsSpace(u[0]))
    requires Outside(was, b, q, |t|)
    ensures Stripping(b, was, q, t, u)
  {
    hide CStr, StripEnd;
  }

  lemma LastPlace(b: seq<char>, q: nat, u: string)
    requires CStr(b, q, u) && u != ""
    ensures q + |u| < |b| && b[q + |u| - 1] == u[|u| - 1]
  {
    assert b[q..q + |u|][|u| - 1] == u[|u| - 1];
  }

  lemma StripEndStep(u: string)
    requires u != ""
    ensures StripEnd(u) == if IsSpace(u[|u| - 1]) then StripEnd(u[..|u| - 1]) else u
  {
  }

  lemma StripEnds(b: seq<char>, was: seq<char>, q: nat, s: string, u: string)
    requires Stripping(b, was, q, SkipBlank(s), u) && q < |b| && (b[q] == '\0' || StripEnd(u) == u)
    ensures CStr(b, q, Strip(s)) && Outside(was, b, q, |SkipBlank(s)|)
  {
    CStrTail(b, q, u);
    hide CStr, Outside, SkipBlank;
  }

  lemma {:induction false} SkipBlankHead(s: string)
    ensures SkipBlank(s) != "" ==> !IsSpace(SkipBlank(s)[0])
  {
    if s != "" && IsSpace(s[0]) { SkipBlankHead(s[1..]); }
  }

  /** strchr() */
  method StrChr(buf: array<char>, cp: nat, c: char, ghost s: string) returns (found: bool, q: nat)
    requires CStr(buf[..], cp, s) && c != '\0'
    ensures q == cp + First(s, c) && found == (First(s, c) < |s|)
  {
    q := cp;
    CStrDrop(buf[..], cp, s, 0);
    while buf[q] != '\0' && buf[q] != c
      invariant cp <= q <= cp + |s| && (if q < cp + |s| then buf[q] == s[q - cp] != '\0' else buf[q] == '\0')
      invariant forall j :: 0 <= j < q - cp ==> s[j] != c
      decreases cp + |s| - q
    {
      q := q + 1;
      CStrDrop(buf[..], cp, s, q - cp);
    }
    found := buf[q] == c;
  }

  /** strrchr() */
  method StrRChr(buf: array<char>, cp: nat, c: char, ghost s: string) returns (found: bool, q: nat)
    requires CStr(buf[..], cp, s) && c != '\0'
    ensures found == (Last(s, c) < |s|) && (found ==> q == cp + Last(s, c))
  {
    var p := cp;
    q := cp;
    found := false;
    CStrDrop(buf[..], cp, s, 0);
    while buf[p] != '\0'
      invariant cp <= p <= cp + |s| && (if p < cp + |s| then buf[p] == s[p - cp] != '\0' else buf[p] == '\0')
      invariant if found then cp <= q < p && s[q - cp] == c && forall j :: q - cp < j < p - cp ==> s[j] != c
        else forall j :: 0 <= j < p - cp ==> s[j] != c
      decreases cp + |s| - p
    {
      if buf[p] == c {
        found, q := true, p;
      }
      p := p + 1;
      CStrDrop(buf[..], cp, s, p - cp);
    }
  }

  // ---------- the unquoting loop ----------

  /** The unquoting of `u` once `out` has been produced. */
  ghost function After(out: string, q: Quote): Quote {
    match q
    case Closed(text, rest) => Closed(out + text, rest)
    case Open(text) => Open(out + text)
    case Beyond => Beyond
  }

  lemma UnquoteHead(u: string, c: char, k: nat)
    requires u != ""
    requires (k == 1 && c == u[0] && c != '\\' && c != '"') || (k == 2 && |u| >= 2 && u[0] == '\\' && c == u[1])
    ensures Unquote(u) == Put(c, Unquote(u[k..]))
  {
    hide Put;
  }

  /** One step of the loop: `k` characters of `u` are read, `c` is written. */
  lemma AfterStep(out: string, u: string, c: char, k: nat)
    requires u != ""
    requires (k == 1 && c == u[0] && c != '\\' && c != '"') || (k == 2 && |u| >= 2 && u[0] == '\\' && c == u[1])
    ensures After(out, Unquote(u)) == After(out + [c], Unquote(u[k..]))
  {
    hide *;
    UnquoteHead(u, c, k);
    AfterPut(out, c, Unquote(u[k..]));
  }

  lemma AfterPut(out: string, c: char, q: Quote)
    ensures After(out, Put(c, q)) == After(out + [c], q)
  {
    if q.Closed? { Assoc(out, [c], q.text); }
    if q.Open? { Assoc(out, [c], q.text); }
  }

  /** Nothing at or after the write cursor has been written, and what is before it is `out`. */
  ghost predicate Written(b: seq<char>, was: seq<char>, a: nat, out: string) {
    && |b| == |was| && a + |out| <= |b| && b[..a] == was[..a]
    && b[a..a + |out|] == out && b[a + |out|..] == was[a + |out|..]
  }

  lemma WriteChar(b: seq<char>, was: seq<char>, a: nat, out: string, c: char, p: int, u: string)
    requires Written(b, was, a, out) && a + |out| < p && CStr(b, p, u)
    ensures Written(Upd(b, a + |out|, c), was, a, out + [c]) && CStr(Upd(b, a + |out|, c), p, u)
    ensures 0 < p && Upd(b, a + |out|, c)[p - 1] == if p - 1 == a + |out| then c else b[p - 1]
  {
    var end := a + |out|;
    var d := Upd(b, end, c);
    assert d[a..end + 1] == out + [c];
    assert d[end + 1..] == b[end..][1..] == was[end..][1..] == was[end + 1..];
    assert d[p..p + |u|] == b[p..p + |u|];
  }

  ghost predicate UnquotedTo(b: seq<char>, was: seq<char>, a: nat, t: string, end: nat, p: nat, text: string,
      rest: string) {
    && Written(b, was, a, text + ['"']) && end == a + |text| <= p && p + |rest| + 1 == a + |t| && a + |t| < |b|
    && b[p] == '"' && CStr(b, p + 1, rest)
  }

  /** What the loop leaves behind. */
  ghost predicate Unquoted(b: seq<char>, was: seq<char>, a: nat, t: string, q: Quote, beyond: bool, end: nat, p: nat) {
    && |b| == |was| && a <= end && a + |t| < |b| && beyond == q.Beyond?
    && (q.Closed? ==> UnquotedTo(b, was, a, t, end, p, q.text, q.rest))
    && (q.Open? ==> Written(b, was, a, q.text) && end == a + |q.text| <= p && p == a + |t| && b[p] == '\0')
    && (q.Beyond? ==> end < a + |t| && Written(b, was, a, b[a..end]))
  }

  /** parse_token()'s loop after the opening quote at `a - 1`: the text is unquoted in place, the write cursor never
      ahead of the read cursor. `beyond` when the read cursor has left the string; `end` is the write cursor. */
  method UnquoteInPlace(buf: array<char>, a: nat, ghost t: string) returns (beyond: bool, end: nat, p: nat)
    requires CStr(buf[..], a, t)
    modifies buf
    ensures Unquoted(buf[..], old(buf[..]), a, t, Unquote(t), beyond, end, p)
  {
    hide *;
    p, end, beyond := a, a, false;
    ghost var out, u, was := "", t, buf[..];
    StartUnquote(was, a, t);
    while buf[p] != '\0'
      invariant p < buf.Length && Unquoting(buf[..], was, a, t, p, end, out, u)
      decreases |u|
    {
      UnquoteCases(buf[..], was, a, t, p, end, out, u);
      if buf[p] == '\\' {
        p := p + 1;
        if buf[p] == '\0' {
          return true, end, p;
        }
        Store(buf, a, end, p, was, t, out, u, 2);
        out, u := out + [u[1]], u[2..];
      } else if buf[p] == '"' {
        StoreQuote(buf, a, end, p, was, t, out, u);
        return;
      } else {
        Store(buf, a, end, p, was, t, out, u, 1);
        out, u := out + [u[0]], u[1..];
      }
      p, end := p + 1, end + 1;
    }
    UnquoteOpen(buf[..], was, a, t, p, end, out, u);
  }

  /** The loop's invariant: `u` is still to be read at `p`, `out` has been written up to `end`. */
  ghost predicate Unquoting(b: seq<char>, was: seq<char>, a: nat, t: string, p: int, end: int, out: string, u: string) {
    && CStr(b, p, u) && p + |u| == a + |t| && end == a + |out| <= p
    && Written(b, was, a, out)
    && Unquote(t) == After(out, Unquote(u))
  }

  lemma StartUnquote(b: seq<char>, a: nat, t: string)
    requires CStr(b, a, t)
    ensures Unquoting(b, b, a, t, a, a, "", t) && a + |t| < |b|
  {
    var q := Unquote(t);
    if q.Closed? { assert "" + q.text == q.text; }
    if q.Open? { assert "" + q.text == q.text; }
    assert b[a..a] == "";
  }

  /** What the loop sees at the read cursor. */
  lemma UnquoteCases(b: seq<char>, was: seq<char>, a: nat, t: string, p: nat, end: nat, out: string, u: string)
    requires Unquoting(b, was, a, t, p, end, out, u) && b[p] != '\0'
    ensures u != "" && p + 1 < |b| && b[p] == u[0] && a <= end < a + |t| && p < a + |t|
    ensures u[0] == '\\' ==> (b[p + 1] == '\0' <==> |u| == 1)
    ensures u[0] == '\\' && |u| == 1 ==> Unquoted(b, was, a, t, Unquote(t), true, end, p + 1)
  {
    CStrTail(b, p, u);
    CStrTail(b, p + 1, u[1..]);
  }

  lemma UnquoteOpen(b: seq<char>, was: seq<char>, a: nat, t: string, p: nat, end: nat, out: string, u: string)
    requires Unquoting(b, was, a, t, p, end, out, u) && b[p] == '\0'
    ensures Unquoted(b, was, a, t, Unquote(t), false, end, p)
  {
    CStrTail(b, p, u);
    assert out + "" == out;
  }

  /** `*end = *p` for a character that is kept; `k` characters of `u` are read. */
  method Store(buf: array<char>, a: nat, end: nat, p: nat, ghost was: seq<char>, ghost t: string, ghost out: string,
      ghost u: string, ghost k: nat)
    requires 1 <= k <= p + 1 && Unquoting(buf[..], was, a, t, p + 1 - k, end, out, u)
    requires (k == 1 && |u| >= 1 && u[0] != '\\' && u[0] != '"') || (k == 2 && |u| >= 2 && u[0] == '\\')
    modifies buf
    ensures Unquoting(buf[..], was, a, t, p + 1, end + 1, out + [u[k - 1]], u[k..]) && p + 1 < buf.Length
  {
    hide *;
    ghost var before := buf[..];
    StoredChar(before, a, end, p, was, t, out, u, k);
    Poke(buf, end, buf[p]);
  }

  lemma StoredChar(b: seq<char>, a: nat, end: nat, p: nat, was: seq<char>, t: string, out: string, u: string, k: nat)
    requires 1 <= k <= p + 1 && Unquoting(b, was, a, t, p + 1 - k, end, out, u)
    requires (k == 1 && |u| >= 1 && u[0] != '\\' && u[0] != '"') || (k == 2 && |u| >= 2 && u[0] == '\\')
    ensures end <= p && p + 1 < |b| && b[p] == u[k - 1]
    ensures Unquoting(Upd(b, end, u[k - 1]), was, a, t, p + 1, end + 1, out + [u[k - 1]], u[k..])
  {
    hide *;
    UnquotingParts(b, was, a, t, p + 1 - k, end, out, u);
    CStrDrop(b, p + 1 - k, u, k - 1);
    CStrDrop(b, p + 1 - k, u, k);
    AfterStep(out, u, u[k - 1], k);
    CStrEnd(b, p + 1, u[k..]);
    WriteChar(b, was, a, out, u[k - 1], p + 1, u[k..]);
    UnquotingIs(Upd(b, end, u[k - 1]), was, a, t, p + 1, end + 1, out + [u[k - 1]], u[k..]);
  }

  lemma UnquotingParts(b: seq<char>, was: seq<char>, a: nat, t: string, p: int, end: int, out: string, u: string)
    requires Unquoting(b, was, a, t, p, end, out, u)
    ensures CStr(b, p, u) && p + |u| == a + |t| && end == a + |out| <= p && p + |u| < |b| == |was|
    ensures Written(b, was, a, out) && Unquote(t) == After(out, Unquote(u))
  {
    hide Unquote, After;
  }

  lemma UnquotingIs(b: seq<char>, was: seq<char>, a: nat, t: string, p: int, end: int, out: string, u: string)
    requires CStr(b, p, u) && p + |u| == a + |t| && end == a + |out| <= p
    requires Written(b, was, a, out) && Unquote(t) == After(out, Unquote(u))
    ensures Unquoting(b, was, a, t, p, end, out, u)
  {
  }

  lemma CStrEnd(b: seq<char>, i: int, s: string)
    requires CStr(b, i, s)
    ensures 0 <= i && i + |s| < |b|
  {
  }

  /** `*end = *p` for the closing quote. */
  method StoreQuote(buf: array<char>, a: nat, end: nat, p: nat, ghost was: seq<char>, ghost t: string,
      ghost out: string, ghost u: string)
    requires Unquoting(buf[..], was, a, t, p, end, out, u) && u != "" && u[0] == '"'
    modifies buf
    ensures Unquoted(buf[..], was, a, t, Unquote(t), false, end, p)
  {
    hide *;
    ghost var before := buf[..];
    QuoteStored(before, a, end, p, was, t, out, u);
    Poke(buf, end, buf[p]);
  }

  lemma QuoteStored(b: seq<char>, a: nat, end: nat, p: nat, was: seq<char>, t: string, out: string, u: string)
    requires Unquoting(b, was, a, t, p, end, out, u) && u != "" && u[0] == '"'
    ensures end <= p < |b| && b[p] == '"' && Unquoted(Upd(b, end, '"'), was, a, t, Unquote(t), false, end, p)
  {
    hide *;
    UnquotingParts(b, was, a, t, p, end, out, u);
    CStrTail(b, p, u);
    WriteChar(b, was, a, out, '"', p + 1, u[1..]);
    UnquoteQuote(u, out);
    UnquotedIs(Upd(b, end, '"'), was, a, t, Unquote(t), end, p, out, u[1..]);
  }

  lemma UnquoteQuote(u: string, out: string)
    requires u != "" && u[0] == '"'
    ensures After(out, Unquote(u)) == Closed(out, u[1..])
  {
    assert out + "" == out;
  }

  lemma UnquotedIs(b: seq<char>, was: seq<char>, a: nat, t: string, q: Quote, end: nat, p: nat, out: string,
      rest: string)
    requires q == Closed(out, rest) && end == a + |out| <= p && p + |rest| + 1 == a + |t| && a + |t| < |b| == |was|
    requires Written(b, was, a, out + ['"']) && CStr(b, p + 1, rest) && b[p] == '"'
    ensures Unquoted(b, was, a, t, q, false, end, p)
  {
    hide Written, CStr;
  }

  // ---------- parse_token() ----------

  /** The NAME part of a token: cut at the '=', stripped; the cursor on the value. */
  ghost predicate NameCut(b: seq<char>, was: seq<char>, cp: nat, s: string, name: nat, value: nat) {
    var k := First(s, '=');
    k < |s|
    && var n, v := Strip(s[..k]), SkipBlank(s[k + 1..]);
    && CStr(b, name, n) && CStr(b, value, v) && cp <= name && name + |n| < value && value + |v| == cp + |s|
    && Outside(was, b, cp, |s|)
  }

  method CutName(buf: array<char>, cp: nat, ghost s: string) returns (found: bool, name: nat, value: nat)
    requires CStr(buf[..], cp, s)
    modifies buf
    ensures found <==> First(s, '=') < |s|
    ensures if found then NameCut(buf[..], old(buf[..]), cp, s, name, value) else buf[..] == old(buf[..])
  {
    hide *;
    ghost var was, k := buf[..], First(s, '=');
    var eq;
    name, value := cp, cp;
    found, eq := StrChr(buf, cp, '=', s);
    if !found {
      return;
    }
    AtEquals(was, cp, s, k);
    Poke(buf, eq, '\0');
    ghost var cut := buf[..];
    name := StripLine(buf, cp, s[..k]);
    ghost var b := buf[..];
    StripShort(s[..k]);
    CStrKept(cut, b, name, |SkipBlank(s[..k])|, eq + 1, s[k + 1..]);
    value := SkipOverBlank(buf, eq + 1, s[k + 1..]);
    assert buf[..] == b;
    NamePlaced(b, cut, was, cp, s, k, name, value);
  }

  lemma AtEquals(was: seq<char>, cp: nat, s: string, k: nat)
    requires CStr(was, cp, s) && k == First(s, '=') < |s|
    ensures cp + k < |was|
    ensures var c := Upd(was, cp + k, '\0');
      CStr(c, cp, s[..k]) && CStr(c, cp + k + 1, s[k + 1..]) && Outside(was, c, cp, |s|)
  {
    hide *;
    CStrEnd(was, cp, s);
    var c := Upd(was, cp + k, '\0');
    CStrCut(was, cp, s, k);
    CStrDrop(was, cp, s, k + 1);
    CStrKept(was, c, cp + k, 1, cp + k + 1, s[k + 1..]);
    OutsideWiden(was, c, cp, |s|, cp + k, 1);
  }

  lemma {:induction false} StripShort(s: string)
    ensures |SkipBlank(s)| <= |s| && Strip(s) <= SkipBlank(s)
  {
  }

  lemma NamePlaced(b: seq<char>, cut: seq<char>, was: seq<char>, cp: nat, s: string, k: nat, name: nat, value: nat)
    requires k == First(s, '=') < |s|
    requires Outside(was, cut, cp, |s|) && Outside(cut, b, name, |SkipBlank(s[..k])|)
      && name + |SkipBlank(s[..k])| == cp + k
    requires CStr(b, name, Strip(s[..k])) && CStr(b, value, SkipBlank(s[k + 1..]))
      && value + |SkipBlank(s[k + 1..])| == cp + |s|
    ensures NameCut(b, was, cp, s, name, value)
  {
    hide CStr, Strip, SkipBlank, First;
    StripShort(s[..k]);
    StripShort(s[k + 1..]);
    OutsideWiden(cut, b, cp, |s|, name, |SkipBlank(s[..k])|);
    OutsideTrans(was, cut, b, cp, |s|, cp, |s|);
  }

  /** The value part: unquoted or cut at the end of a word; the cursor behind it. */
  ghost predicate ValueCut(b: seq<char>, was: seq<char>, value: nat, v: string, rc: int, over: bool, val: nat,
      next: nat) {
    && Outside(was, b, value, |v|)
    && if v != "" && v[0] == '"' then
         var q := Unquote(v[1..]);
         && (q.Closed? ==> rc == 1 && !over && CStr(b, val, q.text) && CStr(b, next, q.rest))
         && (q.Open? ==> over == Unbalanced(v[1..], q.text).Overrun? && (!over ==> rc == -ERR_CACHE))
         && (q.Beyond? ==> over)
       else
         var n := WordLen(v);
         rc == 1 && !over && CStr(b, val, v[..n]) && CStr(b, next, if n < |v| then v[n + 1..] else "")
  }

  method QuotedValue(buf: array<char>, value: nat, ghost v: string) returns (rc: int, over: bool, val: nat, next: nat)
    requires CStr(buf[..], value, v) && v != "" && v[0] == '"'
    modifies buf
    ensures ValueCut(buf[..], old(buf[..]), value, v, rc, over, val, next)
  {
    hide *;
    ghost var was := buf[..];
    CStrTail(was, value, v);
    var end, p;
    over, end, p := UnquoteInPlace(buf, value + 1, v[1..]);
    rc, val, next := 1, value + 1, p + 1;
    ghost var b := buf[..];
    UnquotedEnd(b, was, value, v, over, end, p);
    if over {
      return;
    }
    if buf[end] != '"' {
      rc := -ERR_CACHE;
      return;
    }
    if buf[p] == '\0' {
      over := true;
      return;
    }
    Poke(buf, end, '\0');
  }

  lemma {:induction false} UnquoteNoNul(t: string)
    requires '\0' !in t
    ensures Unquote(t).Closed? ==> '\0' !in Unquote(t).text
  {
    if t != "" {
      assert forall k :: 0 <= k < |t| ==> t[k] in t;
      if t[0] == '\\' && |t| > 1 {
        UnquoteNoNul(t[2..]);
      } else if t[0] != '"' {
        UnquoteNoNul(t[1..]);
      }
    }
  }

  /** The three ways out of parse_token() after the loop. */
  lemma UnquotedEnd(b: seq<char>, was: seq<char>, value: nat, v: string, beyond: bool, end: nat, p: nat)
    requires CStr(was, value, v) && v != "" && v[0] == '"'
      && Unquoted(b, was, value + 1, v[1..], Unquote(v[1..]), beyond, end, p)
    ensures |b| == |was| && (beyond ==> ValueCut(b, was, value, v, 1, true, value + 1, p + 1))
    ensures !beyond ==> end < |b| && p < |b|
    ensures !beyond && b[end] != '"' ==> ValueCut(b, was, value, v, -ERR_CACHE, false, value + 1, p + 1)
    ensures !beyond && b[end] == '"' && b[p] == '\0' ==> ValueCut(b, was, value, v, 1, true, value + 1, p + 1)
    ensures !beyond && b[end] == '"' && b[p] != '\0' ==>
      ValueCut(Upd(b, end, '\0'), was, value, v, 1, false, value + 1, p + 1)
  {
    var a, t := value + 1, v[1..];
    CStrTail(was, value, v);
    match Unquote(t)
    case Closed(text, rest) =>
      UnquoteNoNul(t);
      ClosedEnd(b, was, value, v, text, rest, end, p);
    case Open(text) =>
      CStrDrop(was, a, t, |text|);
      WrittenOutside(b, was, value, v, text);
      assert b[end..][0] == was[end..][0];
    case Beyond =>
      WrittenOutside(b, was, value, v, b[a..end]);
  }

  lemma WrittenOutside(b: seq<char>, was: seq<char>, value: nat, v: string, out: string)
    requires CStr(was, value, v) && v != "" && Written(b, was, value + 1, out) && 1 + |out| <= |v|
    ensures Outside(was, b, value, |v|)
  {
    assert b[..value] == b[..value + 1][..value] == was[..value];
    var e := value + 1 + |out|;
    assert b[value + |v|..] == b[e..][value + |v| - e..] == was[value + |v|..];
  }

  lemma ClosedEnd(b: seq<char>, was: seq<char>, value: nat, v: string, text: string, rest: string, end: nat, p: nat)
    requires CStr(was, value, v) && v != "" && v[0] == '"' && Unquote(v[1..]) == Closed(text, rest) && '\0' !in text
    requires Written(b, was, value + 1, text + ['"']) && end == value + 1 + |text| <= p && p + |rest| + 1 == value + |v|
    requires CStr(b, p + 1, rest)
    ensures end < |b| && b[end] == '"'
    ensures ValueCut(Upd(b, end, '\0'), was, value, v, 1, false, value + 1, p + 1)
  {
    hide *;
    WrittenEnd(b, was, value + 1, text + ['"']);
    var d := Upd(b, end, '\0');
    WrittenOutside(b, was, value, v, text + ['"']);
    TextCut(b, was, value + 1, end, text);
    OutsideWiden(b, d, value, |v|, end, 1);
    OutsideTrans(was, b, d, value, |v|, value, |v|);
    CStrKept(b, d, end, 1, p + 1, rest);
    ClosedValue(d, was, value, v, text, rest, p);
  }

  lemma WrittenEnd(b: seq<char>, was: seq<char>, a: nat, out: string)
    requires Written(b, was, a, out)
    ensures a + |out| <= |b| == |was|
  {
  }

  lemma TextCut(b: seq<char>, was: seq<char>, a: nat, end: nat, text: string)
    requires Written(b, was, a, text + ['"']) && end == a + |text| && '\0' !in text
    ensures end < |b| && b[end] == '"' && CStr(Upd(b, end, '\0'), a, text) && Outside(b, Upd(b, end, '\0'), end, 1)
  {
    var w := b[a..end + 1];
    assert b[end] == w[|text|];
    assert Upd(b, end, '\0')[a..end] == w[..|text|] == text;
  }

  lemma ClosedValue(d: seq<char>, was: seq<char>, value: nat, v: string, text: string, rest: string, p: nat)
    requires v != "" && v[0] == '"' && Unquote(v[1..]) == Closed(text, rest)
    requires Outside(was, d, value, |v|) && CStr(d, value + 1, text) && CStr(d, p + 1, rest)
    ensures ValueCut(d, was, value, v, 1, false, value + 1, p + 1)
  {
    hide Outside, CStr, Unquote;
  }

  method WordValue(buf: array<char>, value: nat, ghost v: string) returns (next: nat)
    requires CStr(buf[..], value, v) && (v == "" || v[0] != '"')
    modifies buf
    ensures ValueCut(buf[..], old(buf[..]), value, v, 1, false, value, next)
  {
    hide *;
    ghost var was := buf[..];
    next := SkipOverWord(buf, value, v);
    assert buf[..] == was;
    WordEnd(was, value, v);
    if buf[next] != '\0' {
      Poke(buf, next, '\0');
      next := next + 1;
    }
  }

  lemma WordEnd(was: seq<char>, value: nat, v: string)
    requires CStr(was, value, v) && (v == "" || v[0] != '"')
    ensures var end := value + WordLen(v);
      && end < |was|
      && if was[end] == '\0' then ValueCut(was, was, value, v, 1, false, value, end)
         else ValueCut(Upd(was, end, '\0'), was, value, v, 1, false, value, end + 1)
  {
    hide *;
    var n := WordLen(v);
    WordFits(v);
    CStrDrop(was, value, v, n);
    CStrCut(was, value, v, n);
    var d := Upd(was, value + n, '\0');
    if n < |v| {
      OutsideWiden(was, d, value, |v|, value + n, 1);
      CStrDrop(was, value, v, n + 1);
      CStrKept(was, d, value + n, 1, value + n + 1, v[n + 1..]);
      WordCut(d, was, value, v, n, value + n + 1, v[n + 1..]);
    } else {
      assert v[n..] == "" && v[..n] == v;
      OutsideSelf(was, value, |v|);
      WordCut(was, was, value, v, n, value + n, "");
    }
  }

  lemma OutsideSelf(b: seq<char>, i: int, n: nat)
    requires 0 <= i && i + n <= |b|
    ensures Outside(b, b, i, n)
  {
  }

  lemma WordFits(v: string)
    ensures WordLen(v) <= |v|
  {
  }

  lemma WordCut(d: seq<char>, was: seq<char>, value: nat, v: string, n: nat, next: nat, rest: string)
    requires (v == "" || v[0] != '"') && n == WordLen(v) && rest == (if n < |v| then v[n + 1..] else "")
    requires Outside(was, d, value, |v|) && CStr(d, value, v[..n]) && CStr(d, next, rest)
    ensures ValueCut(d, was, value, v, 1, false, value, next)
  {
    hide Outside, CStr, WordLen;
  }

  /** What parse_token() leaves behind. */
  ghost predicate TokenCut(b: seq<char>, was: seq<char>, cp: nat, s: string, rc: int, over: bool, name: nat,
      value: nat, next: nat) {
    && Outside(was, b, cp, |s|)
    && var t := TokenOf(s);
       && (t.NoToken? ==> !over && rc == 0)
       && (t.Bad? ==> !over && rc == -ERR_CACHE)
       && (t.Overrun? ==> over)
       && (t.Token? ==> !over && rc == 1 && CStr(b, name, t.name) && CStr(b, value, t.value) && CStr(b, next, t.rest))
  }

  /** parse_token() */
  method ParseToken(buf: array<char>, cp: nat, ghost s: string)
      returns (rc: int, over: bool, name: nat, value: nat, next: nat)
    requires CStr(buf[..], cp, s)
    modifies buf
    ensures TokenCut(buf[..], old(buf[..]), cp, s, rc, over, name, value, next)
  {
    hide *;
    ghost var was := buf[..];
    rc, over, next := 0, false, cp;
    var found;
    found, name, value := CutName(buf, cp, s);
    if !found {
      NoTokenCut(was, cp, s, name, value, next);
      return;
    }
    ghost var cut, v := buf[..], SkipBlank(s[First(s, '=') + 1..]);
    NameThere(cut, was, cp, s, name, value);
    ghost var at := value;
    if buf[value] == '"' {
      rc, over, value, next := QuotedValue(buf, value, v);
    } else {
      next := WordValue(buf, value, v);
      rc := 1;
    }
    TokenDone(buf[..], cut, was, cp, s, name, at, rc, over, value, next);
  }

  lemma NoTokenCut(was: seq<char>, cp: nat, s: string, name: nat, value: nat, next: nat)
    requires CStr(was, cp, s) && First(s, '=') >= |s|
    ensures TokenCut(was, was, cp, s, 0, false, name, value, next)
  {
  }

  lemma NameThere(b: seq<char>, was: seq<char>, cp: nat, s: string, name: nat, value: nat)
    requires NameCut(b, was, cp, s, name, value)
    ensures First(s, '=') < |s|
    ensures var v := SkipBlank(s[First(s, '=') + 1..]);
      CStr(b, value, v) && value < |b| && (b[value] == '"' <==> v != "" && v[0] == '"')
  {
    hide First, SkipBlank, Strip, CStr, Outside;
    CStrTail(b, value, SkipBlank(s[First(s, '=') + 1..]));
    CStrEnd(b, value, SkipBlank(s[First(s, '=') + 1..]));
  }

  lemma TokenDone(b: seq<char>, cut: seq<char>, was: seq<char>, cp: nat, s: string, name: nat, at: nat, rc: int,
      over: bool, value: nat, next: nat)
    requires NameCut(cut, was, cp, s, name, at)
    requires ValueCut(b, cut, at, SkipBlank(s[First(s, '=') + 1..]), rc, over, value, next)
    ensures TokenCut(b, was, cp, s, rc, over, name, value, next)
  {
    var k := First(s, '=');
    var n, v := Strip(s[..k]), SkipBlank(s[k + 1..]);
    NameParts(cut, was, cp, s, name, at, k, n, v);
    ValueOutside(b, cut, at, v, rc, over, value, next);
    hide *;
    CStrKept(cut, b, at, |v|, name, n);
    OutsideWiden(cut, b, cp, |s|, at, |v|);
    OutsideTrans(was, cut, b, cp, |s|, cp, |s|);
    TokenIs(b, cut, was, cp, s, k, n, v, at, rc, over, name, value, next);
  }

  lemma NameParts(cut: seq<char>, was: seq<char>, cp: nat, s: string, name: nat, at: nat, k: nat, n: string, v: string)
    requires NameCut(cut, was, cp, s, name, at) && k == First(s, '=') && k < |s| && n == Strip(s[..k])
      && v == SkipBlank(s[k + 1..])
    ensures CStr(cut, name, n) && cp <= name && name + |n| < at && at + |v| == cp + |s| && cp + |s| <= |was|
      && Outside(was, cut, cp, |s|)
    ensures cp <= at
  {
    hide First, Strip, SkipBlank, CStr;
  }

  lemma ValueOutside(b: seq<char>, was: seq<char>, value: nat, v: string, rc: int, over: bool, val: nat, next: nat)
    requires ValueCut(b, was, value, v, rc, over, val, next)
    ensures Outside(was, b, value, |v|)
  {
    hide Outside, CStr, Unquote, WordLen;
  }

  lemma TokenIs(b: seq<char>, cut: seq<char>, was: seq<char>, cp: nat, s: string, k: nat, n: string, v: string, at: nat,
      rc: int, over: bool, name: nat, value: nat, next: nat)
    requires Outside(was, b, cp, |s|) && CStr(b, name, n) && ValueCut(b, cut, at, v, rc, over, value, next)
    requires k == First(s, '=') && k < |s| && n == Strip(s[..k]) && v == SkipBlank(s[k + 1..])
    ensures TokenCut(b, was, cp, s, rc, over, name, value, next)
  {
    hide First, Strip, SkipBlank, CStr, Unquote, WordLen, Outside;
  }

  // ---------- parse_start(), parse_end() and parse_dev() ----------

  /** strncmp(cp, lit, strlen(lit)) == 0 */
  method StartsWith(buf: array<char>, cp: nat, lit: string, ghost s: string) returns (yes: bool)
    requires CStr(buf[..], cp, s) && '\0' !in lit
    ensures yes <==> lit <= s
  {
    var i := 0;
    yes := true;
    CStrDrop(buf[..], cp, s, 0);
    while i < |lit|
      invariant i <= |lit| && i <= |s| && lit[..i] == s[..i]
      invariant if i < |s| then buf[cp + i] == s[i] else buf[cp + i] == '\0'
    {
      assert lit[i] in lit;
      if buf[cp + i] != lit[i] {
        return false;
      }
      i := i + 1;
      CStrDrop(buf[..], cp, s, i);
    }
    assert lit[..i] == lit;
  }

  /** parse_end() after strrchr(): NUL behind the last trailer, if the last '<' begins one. */
  method CutAfterTrailer(buf: array<char>, end: nat, ghost e: string)
    requires CStr(buf[..], end, e)
    modifies buf
    ensures CStr(buf[..], end, CutTrailer(e)) && Outside(old(buf[..]), buf[..], end, |e| + 1)
  {
    hide *;
    ghost var was := buf[..];
    CStrEnd(was, end, e);
    ghost var j := Last(e, '<');
    TrailerFacts(was, end, e, j);
    var found, lt := StrRChr(buf, end, '<', e);
    if found {
      var yes := StartsWith(buf, lt, TRAILER, e[j..]);
      if yes {
        Poke(buf, lt + |TRAILER|, '\0');
      }
    }
  }

  lemma TrailerFacts(was: seq<char>, end: nat, e: string, j: nat)
    requires CStr(was, end, e) && end + |e| < |was| && j == Last(e, '<')
    ensures j <= |e| && '\0' !in TRAILER && |TRAILER| == 9
    ensures Outside(was, was, end, |e| + 1)
    ensures j < |e| ==> CStr(was, end + j, e[j..])
    ensures j < |e| && TRAILER <= e[j..] ==>
      end + j + 9 < |was| && CStr(Upd(was, end + j + 9, '\0'), end, CutTrailer(e))
        && Outside(was, Upd(was, end + j + 9, '\0'), end, |e| + 1)
    ensures !(j < |e| && TRAILER <= e[j..]) ==> CutTrailer(e) == e
  {
    hide *;
    CutTrailerIs(e, j);
    OutsideSelf(was, end, |e| + 1);
    if j < |e| {
      CStrDrop(was, end, e, j);
      if TRAILER <= e[j..] {
        TrailerCut(was, end, e, j + 9);
      }
    }
  }

  lemma TrailerCut(was: seq<char>, end: nat, e: string, k: nat)
    requires CStr(was, end, e) && end + |e| < |was| && k <= |e|
    ensures CStr(Upd(was, end + k, '\0'), end, e[..k]) && Outside(was, Upd(was, end + k, '\0'), end, |e| + 1)
  {
    hide *;
    CStrEnd(was, end, e);
    CStrCut(was, end, e, k);
    OutsideWiden(was, Upd(was, end + k, '\0'), end, |e| + 1, end + k, 1);
  }

  lemma CutTrailerIs(e: string, j: nat)
    requires j == Last(e, '<')
    ensures j <= |e| && '\0' !in TRAILER && |TRAILER| == 9
    ensures CutTrailer(e) == if j < |e| && TRAILER <= e[j..] then e[..j + 9] else e
  {
    hide Last;
    TrailerPlain();
  }

  lemma TrailerPlain()
    ensures '\0' !in TRAILER && |TRAILER| == 9
  {
  }

  /** What parse_dev() leaves behind. */
  ghost predicate LineCut(b: seq<char>, line: string, rc: int, name: string, cp: nat) {
    var l := LineOf(line);
    && (l.Skip? ==> rc == 0)
    && (l.BadLine? ==> rc == -ERR_CACHE)
    && (l.Line? ==> rc == 1 && name == l.name && CStr(b, cp, l.attrs))
  }

  lemma LineCutIs(b: seq<char>, line: string, l: Line, rc: int, name: string, cp: nat)
    requires l == LineOf(line) && (l.Skip? ==> rc == 0) && (l.BadLine? ==> rc == -ERR_CACHE)
    requires l.Line? ==> rc == 1 && name == l.name && CStr(b, cp, l.attrs)
    ensures LineCut(b, line, rc, name, cp)
  {
    hide CStr, LineOf;
  }

  /** parse_dev(), up to the lookup of the device. */
  method ParseDev(buf: array<char>, ghost line: string) returns (rc: int, name: string, cp: nat)
    requires CStr(buf[..], 0, line)
    modifies buf
    ensures LineCut(buf[..], line, rc, name, cp)
  {
    hide *;
    rc, name, cp := 0, "", 0;
    var q := StripLine(buf, 0, line);
    ghost var p := Strip(line);
    LineStart(buf[..], q, line, p);
    if buf[q] == '\0' || buf[q] == '#' {
      LineCutIs(buf[..], line, Skip, rc, name, cp);
      return;
    }
    var device := StartsWith(buf, q, DEVICE, p);
    if !device {
      if buf[q] != '<' {
        rc := -ERR_CACHE;
      }
      LineCutIs(buf[..], line, if buf[q] == '<' then Skip else BadLine, rc, name, cp);
      return;
    }
    rc, name, cp := ParseHeader(buf, q + |DEVICE|, line, p[|DEVICE|..]);
  }

  lemma LineStart(b: seq<char>, q: nat, line: string, p: string)
    requires CStr(b, q, p) && p == Strip(line)
    ensures q < |b| && '\0' !in DEVICE && |DEVICE| == 7
    ensures b[q] == '\0' || b[q] == '#' ==> LineOf(line) == Skip
    ensures b[q] != '\0' && b[q] != '#' && !(DEVICE <= p) ==> LineOf(line) == if b[q] == '<' then Skip else BadLine
    ensures b[q] != '\0' && b[q] != '#' && DEVICE <= p ==> CStr(b, q + 7, p[7..]) && Header(line, p[7..])
  {
    CStrTail(b, q, p);
    CStrEnd(b, q, p);
    if DEVICE <= p { CStrDrop(b, q, p, 7); }
    hide Strip, CStr;
  }

  /** What remains after `<device`. */
  ghost predicate Header(line: string, s: string) {
    var p := Strip(line);
    p != "" && p[0] != '#' && DEVICE <= p && s == p[|DEVICE|..]
  }

  method ParseHeader(buf: array<char>, cp0: nat, ghost line: string, ghost s: string)
      returns (rc: int, name: string, cp: nat)
    requires CStr(buf[..], cp0, s) && Header(line, s)
    modifies buf
    ensures LineCut(buf[..], line, rc, name, cp)
  {
    hide *;
    rc, name, cp := -ERR_CACHE, "", cp0;
    ghost var was := buf[..];
    var found, gt := StrChr(buf, cp, '>', s);
    ghost var k := First(s, '>');
    HeaderStart(was, cp0, line, s, k);
    if !found {
      LineCutIs(was, line, BadLine, rc, name, cp);
      return;
    }
    var start := SkipOverBlank(buf, gt + 1, s[k + 1..]);
    ghost var w := SkipBlank(s[k + 1..]);
    var end := SkipOverWord(buf, start, w);
    ghost var n := WordLen(w);
    cp := if buf[cp] == '>' then end else cp + 1;
    HeaderCut(was, cp0, s, k, w, n, start);
    Poke(buf, gt, '\0');
    ghost var cut := buf[..];
    CutAfterTrailer(buf, end, w[n..]);
    ghost var attrs := if k == 0 then CutTrailer(w[n..]) else s[1..k];
    HeaderDone(buf[..], cut, cp0, line, s, k, w, n, start, attrs);
    if end - start <= 1 {
      LineCutIs(buf[..], line, BadLine, rc, name, cp);
      return;
    }
    name := buf[start..end];
    rc := 1;
    LineCutIs(buf[..], line, Line(name, attrs), rc, name, cp);
  }

  lemma HeaderStart(b: seq<char>, cp: nat, line: string, s: string, k: nat)
    requires CStr(b, cp, s) && Header(line, s) && k == First(s, '>')
    ensures k <= |s| && cp + |s| < |b| && (k == |s| ==> LineOf(line) == BadLine)
    ensures k < |s| ==> CStr(b, cp + k + 1, s[k + 1..]) && (b[cp] == '>' <==> k == 0)
    ensures '>' != '\0'
  {
    hide CStr, Strip, WordLen, SkipBlank;
    CStrEnd(b, cp, s);
    CStrTail(b, cp, s);
    if k < |s| { CStrDrop(b, cp, s, k + 1); }
  }

  lemma HeaderCut(was: seq<char>, cp: nat, s: string, k: nat, w: string, n: nat, start: nat)
    requires CStr(was, cp, s) && k < |s| && CStr(was, start, w) && cp + k < start && n == WordLen(w)
    ensures n <= |w| && cp + k < |was|
    ensures var cut := Upd(was, cp + k, '\0');
      CStr(cut, cp, s[..k]) && CStr(cut, start, w) && CStr(cut, start + n, w[n..])
  {
    CStrEnd(was, cp, s);
    CStrCut(was, cp, s, k);
    var cut := Upd(was, cp + k, '\0');
    hide *;
    CStrKept(was, cut, cp + k, 1, start, w);
    WordFits(w);
    CStrDrop(cut, start, w, n);
  }

  lemma HeaderDone(b: seq<char>, cut: seq<char>, cp: nat, line: string, s: string, k: nat, w: string, n: nat,
      start: nat, attrs: string)
    requires Header(line, s) && k == First(s, '>') < |s| && w == SkipBlank(s[k + 1..]) && n == WordLen(w)
    requires CStr(cut, cp, s[..k]) && CStr(cut, start, w) && cp + k < start && n <= |w|
    requires CStr(b, start + n, CutTrailer(w[n..])) && Outside(cut, b, start + n, |w[n..]| + 1)
    requires attrs == if k == 0 then CutTrailer(w[n..]) else s[1..k]
    ensures start + n <= |b| && b[start..start + n] == w[..n]
    ensures LineOf(line) == if n <= 1 then BadLine else Line(w[..n], attrs)
    ensures CStr(b, if k == 0 then start + n else cp + 1, attrs)
  {
    hide *;
    HeaderLine(line, s, k, w, n);
    BufferDone(b, cut, cp, s, k, w, n, start, w[n..]);
  }

  lemma BufferDone(b: seq<char>, cut: seq<char>, cp: nat, s: string, k: nat, w: string, n: nat, start: nat, e: string)
    requires k <= |s| && n <= |w| && e == w[n..]
    requires CStr(cut, cp, s[..k]) && CStr(cut, start, w) && cp + k < start
    requires CStr(b, start + n, CutTrailer(e)) && Outside(cut, b, start + n, |e| + 1)
    ensures start + n <= |b| && b[start..start + n] == w[..n]
    ensures k > 0 ==> CStr(b, cp + 1, s[1..k])
  {
    hide *;
    CStrEnd(b, start + n, CutTrailer(e));
    NameKept(b, cut, w, n, start);
    if k > 0 {
      AttrsKept(b, cut, cp, s, k, start + n, |e| + 1);
    }
  }

  lemma AttrsKept(b: seq<char>, cut: seq<char>, cp: nat, s: string, k: nat, end: nat, m: nat)
    requires 0 < k <= |s| && CStr(cut, cp, s[..k]) && cp + k < end && Outside(cut, b, end, m)
    ensures CStr(b, cp + 1, s[1..k])
  {
    hide *;
    CStrDrop(cut, cp, s[..k], 1);
    assert s[..k][1..] == s[1..k];
    CStrKept(cut, b, end, m, cp + 1, s[1..k]);
  }

  lemma NameKept(b: seq<char>, cut: seq<char>, w: string, n: nat, start: nat)
    requires CStr(cut, start, w) && n <= |w| && Outside(cut, b, start + n, |w[n..]| + 1) && start + n <= |b|
    ensures b[start..start + n] == w[..n]
  {
    assert b[start..start + n] == b[..start + n][start..] == cut[..start + n][start..] == cut[start..start + n];
    assert cut[start..start + n] == cut[start..start + |w|][..n] == w[..n];
  }

  lemma HeaderLine(line: string, s: string, k: nat, w: string, n: nat)
    requires Header(line, s) && k == First(s, '>') < |s| && w == SkipBlank(s[k + 1..]) && n == WordLen(w)
    ensures LineOf(line) == if n <= 1 then BadLine else Line(w[..n], if k == 0 then CutTrailer(w[n..]) else s[1..k])
  {
    hide CutTrailer, SkipBlank, WordLen, First, Strip;
  }
}
