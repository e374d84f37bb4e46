/** blkid_encode_string() and blkid_encode_to_utf8() (encode.c). */
module Encode {
  import opened CNumber
  import opened CacheText
  import opened CacheParse
  import opened MangleText
  import opened Utf8

  // ---------- the UTF-8 functions on a buffer ----------

  /** The byte at `i` of a C string, or its NUL. */
  lemma ByteAt(b: seq<char>, at: int, s: string, i: nat)
    requires CStr(b, at, s) && i <= |s|
    ensures at + i < |b| && b[at + i] == At(s, i)
  {
    CStrDrop(b, at, s, i);
  }

  /** utf8_encoded_to_unichar(), once the octets are known to be there. */
  method ToUnichar(buf: array<char>, at: nat, ghost s: string) returns (u: int)
    requires CStr(buf[..], at, s) && s != "" && ExpectedLen(s[0]) <= |s|
    ensures u == Unichar(s)
  {
    hide *;
    ByteAt(buf[..], at, s, 0);
    FoldStarts(s);
    var len := ExpectedLen(buf[at]);
    if len == 0 {
      return -1;
    }
    if len == 1 {
      return buf[at] as int;
    }
    var unichar := LeadBits(buf[at], len);
    var i := 1;
    while i < len
      invariant 1 <= i <= len && unichar >= 0 && Fold(unichar, s, i, len) == Unichar(s)
    {
      ByteAt(buf[..], at, s, i);
      FoldStep(unichar, s, i, len);
      if buf[at + i] as int / 64 != 2 {
        return -1;
      }
      unichar := unichar * 64 + buf[at + i] as int % 64;
      i := i + 1;
    }
    FoldEnds(unichar, s, len);
    return unichar;
  }

  lemma FoldStarts(s: string)
    requires s != ""
    ensures At(s, 0) == s[0]
    ensures var len := ExpectedLen(s[0]);
      Unichar(s) == if len == 0 then -1 else if len == 1 then s[0] as int else Fold(LeadBits(s[0], len), s, 1, len)
  {
    hide Fold, LeadBits, ExpectedLen;
  }

  lemma FoldStep(u: nat, s: string, i: nat, len: nat)
    requires i < len
    ensures Fold(u, s, i, len) == if At(s, i) as int / 64 != 2 then -1
      else Fold(u * 64 + At(s, i) as int % 64, s, i + 1, len)
  {
    hide At;
  }

  lemma FoldEnds(u: nat, s: string, len: nat)
    ensures Fold(u, s, len, len) == u
  {
  }

  /** utf8_encoded_valid_unichar(). Its first loop stops at the NUL at the latest. */
  method ValidUnichar(buf: array<char>, at: nat, ghost s: string) returns (r: int)
    requires CStr(buf[..], at, s) && s != ""
    ensures r == ValidLen(s)
  {
    ByteAt(buf[..], at, s, 0);
    var len := ExpectedLen(buf[at]);
    if len == 0 {
      return -1;
    }
    if len == 1 {
      return 1;
    }
    var i := 0;
    while i < len
      invariant i <= len && i <= |s| && forall k :: 0 <= k < i ==> At(s, k) >= 0x80 as char
    {
      ByteAt(buf[..], at, s, i);
      if buf[at + i] < 0x80 as char {
        assert At(s, i) < 0x80 as char;
        return -1;
      }
      i := i + 1;
    }
    var unichar := ToUnichar(buf, at, s);
    if EncodedLen(unichar) != len {
      return -1;
    }
    if !ValidRange(unichar) {
      return -1;
    }
    return len;
  }

  // ---------- blkid_encode_string() ----------

  const WHITE := "#+-.:=@_"

  /** is_whitelisted() without an extra list */
  predicate Whitelisted(c: char) {
    '0' <= c <= '9' || 'A' <= c <= 'Z' || 'a' <= c <= 'z' || c in WHITE
  }

  /** `\xHH` */
  function HexEscape(c: char): (r: string)
    requires c < 256 as char
    ensures |r| == 4 && r[0] == '\\' && r[1] == 'x'
  {
    ['\\', 'x', DigitChar(c as int / 16), DigitChar(c as int % 16)]
  }

  /** How many characters one round takes, and what it writes for them. */
  function Piece(s: string): (r: (nat, string))
    requires s != "" && Bytes(s)
    ensures 1 <= r.0 <= |s| && 1 <= |r.1| <= 4 * r.0 && |r.1| <= 4
  {
    var n := ValidLen(s);
    if n > 1 then ValidDecodes(s); (n, s[..n])
    else if s[0] == '\\' || !Whitelisted(s[0]) then (1, HexEscape(s[0]))
    else (1, [s[0]])
  }

  lemma BytesRest(s: string, n: nat)
    requires Bytes(s) && n <= |s|
    ensures Bytes(s[n..])
  {
  }

  function Encoded(s: string): (r: string)
    requires Bytes(s)
    ensures |r| <= 4 * |s|
    decreases |s|
  {
    if s == "" then "" else
      var (n, t) := Piece(s);
      BytesRest(s, n);
      t + Encoded(s[n..])
  }

  /** The text was copied whole exactly when three more characters than the encoding and its NUL would have fitted. */
  predicate Fits(s: string, len: nat)
    requires Bytes(s)
  {
    len > 0 && (s == "" || |Encoded(s)| + 3 < len)
  }

  lemma HexBack(c: char)
    requires c < 256 as char
    ensures var e := HexEscape(c); EscapeTail(Hex, e[1], e[2], e[3]) && EscapeValue(Hex, e[1], e[2], e[3]) == c
  {
    hide DigitVal, DigitChar;
    var v := c as int;
    HexDigitBack(v / 16);
    HexDigitBack(v % 16);
    assert 16 * (v / 16) + v % 16 == v;
  }

  lemma HexDigitBack(d: nat)
    requires d < 16
    ensures DigitVal(DigitChar(d)) == d
  {
  }

  lemma {:induction false} UnescapePlain(kind: Kind, t: string, rest: string, room: nat)
    requires '\\' !in t && room >= |t|
    ensures Unescaped(kind, t + rest, room) == t + Unescaped(kind, rest, room - |t|)
  {
    if t == "" {
      assert t + rest == rest;
    } else {
      assert t[0] in t && forall c :: c in t[1..] ==> c in t;
      assert t == [t[0]] + t[1..];
      Assoc([t[0]], t[1..], rest);
      PlainStep(kind, t[0], t[1..] + rest, room);
      UnescapePlain(kind, t[1..], rest, room - 1);
      Assoc([t[0]], t[1..], Unescaped(kind, rest, room - |t|));
    }
  }

  /** unhexmangle_to_buffer() recovers what blkid_encode_string() encoded. */
  lemma {:induction false} UnhexEncoded(s: string, room: nat)
    requires Bytes(s) && room >= |Encoded(s)|
    ensures Unescaped(Hex, Encoded(s), room) == s
    decreases |s|
  {
    hide *;
    EncodedEmpty(room);
    if s != "" {
      EncodedStep(s);
      var n, t := Piece(s).0, Piece(s).1;
      UnhexEncoded(s[n..], room - |t|);
      PieceRead(s, Encoded(s[n..]), room);
      assert s[..n] + s[n..] == s;
    }
  }

  /** One piece reads back as the characters it was written for. */
  lemma PieceRead(s: string, rest: string, room: nat)
    requires s != "" && Bytes(s) && room >= |Piece(s).1|
    ensures Unescaped(Hex, Piece(s).1 + rest, room) == s[..Piece(s).0] + Unescaped(Hex, rest, room - |Piece(s).1|)
  {
    hide *;
    PieceKinds(s);
    if Piece(s).1 == s[..Piece(s).0] {
      UnescapePlain(Hex, Piece(s).1, rest, room);
    } else {
      EscapeRead(s[0], rest, room);
      assert s[..1] == [s[0]];
    }
  }

  lemma EscapeRead(c: char, rest: string, room: nat)
    requires c < 256 as char && room >= 4
    ensures Unescaped(Hex, HexEscape(c) + rest, room) == [c] + Unescaped(Hex, rest, room - 4)
  {
    hide Unescaped, EscapeTail, EscapeValue;
    HexBack(c);
    EscapeStep(Hex, HexEscape(c), rest, room);
  }

  /** A piece is copied, and then holds no backslash, or is the escape of one character. */
  lemma PieceKinds(s: string)
    requires s != "" && Bytes(s)
    ensures s[0] < 256 as char
    ensures var (n, t) := Piece(s); if t == s[..n] then '\\' !in t else n == 1 && t == HexEscape(s[0])
  {
    var n := ValidLen(s);
    if n > 1 {
      ValidDecodes(s);
      DecodeOctets(Unichar(s), "");
      assert forall i :: 0 <= i < n ==> s[..n][i] >= 0x80 as char;
    } else if s[0] == '\\' || !Whitelisted(s[0]) {
      assert |HexEscape(s[0])| == 4;
    } else {
      assert s[..1] == [s[0]];
    }
  }

  /** Only whitelisted characters, `\xHH` escapes and valid UTF-8. */
  ghost predicate Safe(t: string)
    decreases |t|
  {
    t == ""
    || (Whitelisted(t[0]) && t[0] != '\\' && Safe(t[1..]))
    || (|t| > 3 && t[0] == '\\' && EscapeTail(Hex, t[1], t[2], t[3]) && Safe(t[4..]))
    || (exists cp: nat :: Allowed(cp) && Octets(cp) <= t && Safe(t[|Octets(cp)|..]))
  }

  lemma {:induction false} EncodedSafe(s: string)
    requires Bytes(s)
    ensures Safe(Encoded(s))
    decreases |s|
  {
    if s != "" {
      var (n, t) := Piece(s);
      BytesRest(s, n);
      EncodedSafe(s[n..]);
      var rest := Encoded(s[n..]);
      if ValidLen(s) > 1 {
        ValidDecodes(s);
        SafeOctets(Unichar(s), rest);
        assert Octets(Unichar(s)) == s[..n];
      } else if s[0] == '\\' || !Whitelisted(s[0]) {
        HexBack(s[0]);
        SafeEscape(t, rest);
      } else {
        assert ([s[0]] + rest)[1..] == rest;
      }
    }
  }

  /** An ASCII text is encoded as itself exactly when it holds only letters, digits and "#+-.:=@_". */
  lemma {:induction false} EncodedSameIff(s: string)
    requires forall i :: 0 <= i < |s| ==> s[i] < 0x80 as char
    ensures Encoded(s) == s <==> forall i :: 0 <= i < |s| ==> Harmless(s[i])
    ensures |Encoded(s)| >= |s| && (|Encoded(s)| == |s| ==> Encoded(s) == s)
  {
    if s != "" {
      EncodedSameIff(s[1..]);
      FirstKept(s);
      AllOf(s);
      hide *;
      SameStep(s[0], s[1..], Encoded(s), Encoded(s[1..]));
      assert s == [s[0]] + s[1..];
    }
  }

  predicate Harmless(c: char) {
    '0' <= c <= '9' || 'A' <= c <= 'Z' || 'a' <= c <= 'z' || c in ['#', '+', '-', '.', ':', '=', '@', '_']
  }

  lemma AllOf(s: string)
    requires s != ""
    ensures (forall i :: 0 <= i < |s| ==> Harmless(s[i])) <==>
      Harmless(s[0]) && forall i :: 0 <= i < |s[1..]| ==> Harmless(s[1..][i])
  {
    hide Harmless;
    assert forall i :: 1 <= i < |s| ==> s[i] == s[1..][i - 1];
  }

  lemma SameStep(c: char, t: string, e: string, e1: string)
    requires |e1| >= |t| && (|e1| == |t| ==> e1 == t) && (e == [c] + e1 || |e| == 4 + |e1|)
    ensures |e| >= 1 + |t| && (|e| == 1 + |t| ==> e == [c] + t) && (e == [c] + t <==> e == [c] + e1 && e1 == t)
  {
    if e == [c] + t { assert e[1..] == t; }
  }

  lemma FirstKept(s: string)
    requires s != "" && forall i :: 0 <= i < |s| ==> s[i] < 0x80 as char
    ensures var c, e := s[0], Encoded(s);
      if Harmless(c) then e == [c] + Encoded(s[1..]) else |e| == 4 + |Encoded(s[1..])|
  {
    assert WHITE == ['#', '+', '-', '.', ':', '=', '@', '_'];
    assert Piece(s) == if s[0] == '\\' || !Whitelisted(s[0]) then (1, HexEscape(s[0])) else (1, [s[0]]);
    hide HexEscape;
  }

  lemma SafeOctets(cp: nat, rest: string)
    requires Allowed(cp) && Safe(rest)
    ensures Safe(Octets(cp) + rest)
  {
    var t := Octets(cp) + rest;
    assert t[|Octets(cp)|..] == rest;
    hide Octets;
    assert Allowed(cp) && Octets(cp) <= t && Safe(t[|Octets(cp)|..]);
  }

  lemma SafeEscape(e: string, rest: string)
    requires |e| == 4 && e[0] == '\\' && EscapeTail(Hex, e[1], e[2], e[3]) && Safe(rest)
    ensures Safe(e + rest)
  {
    var t := e + rest;
    assert t[1] == e[1] && t[2] == e[2] && t[3] == e[3] && t[4..] == rest;
  }

  /** Four times the length and four is always enough; four times the length, as documented, is not. */
  lemma BufferSizes(s: string)
    requires Bytes(s)
    ensures Fits(s, 4 * |s| + 4)
    ensures !Fits(" ", 4) && !Fits(" ", 5)
  {
    assert " "[1..] == "";
    assert !Whitelisted(' ');
    assert Piece(" ") == (1, HexEscape(' '));
    assert |Encoded(" ")| == 4;
  }

  /** The character at the front is written as an escape. */
  predicate Escaped(s: string)
    requires s != "" && Bytes(s)
  {
    ValidLen(s) <= 1 && (s[0] == '\\' || !Whitelisted(s[0]))
  }

  /** An escape fills the buffer to its last byte, so that sprintf() puts its NUL at `len`. */
  predicate PastEnd(s: string, len: nat)
    requires Bytes(s)
  {
    4 <= len && len - 4 < |Encoded(s)| && Encoded(s)[len - 4] == '\\'
  }

  /** A buffer of four times the length and one keeps the NUL inside; four times the length, as documented, does not:
      one blank and a buffer of four bytes. */
  lemma {:induction false} PastEndNever(s: string, len: nat)
    requires Bytes(s) && len > 4 * |s|
    ensures !PastEnd(s, len)
    ensures PastEnd(" ", 4)
  {
    if PastEnd(s, len) { EncodedLast(s, len - 4); }
    BufferSizes(s);
    assert Encoded(" ") == HexEscape(' ') + Encoded(" "[1..]);
  }

  /** An escape is never cut off by the end of the encoding. */
  lemma {:induction false} EncodedLast(s: string, k: int)
    requires Bytes(s) && 0 <= k < |Encoded(s)| && Encoded(s)[k] == '\\'
    ensures k + 4 <= |Encoded(s)| <= 4 * |s|
    decreases |s|
  {
    hide *;
    var (n, t) := Piece(s);
    BytesRest(s, n);
    PieceBackslash(s);
    EncodedStep(s);
    if k >= |t| { EncodedLast(s[n..], k - |t|); }
  }

  lemma EncodedStep(s: string)
    requires s != "" && Bytes(s)
    ensures Bytes(s[Piece(s).0..]) && Encoded(s) == Piece(s).1 + Encoded(s[Piece(s).0..])
  {
  }

  /** A backslash stands at the front of an escape and nowhere else. */
  lemma PieceBackslash(s: string)
    requires s != "" && Bytes(s)
    ensures Escaped(s) ==> |Piece(s).1| == 4
    ensures forall k :: 0 <= k < |Piece(s).1| ==> (Piece(s).1[k] == '\\' <==> k == 0 && Escaped(s))
  {
    hide ValidLen, DigitVal;
    PieceKinds(s);
    if Escaped(s) {
      assert DigitChar(s[0] as int / 16) != '\\' && DigitChar(s[0] as int % 16) != '\\';
    }
  }

  /** blkid_encode_string(): 0 exactly when the whole encoding was stored; `past` when a NUL was written behind
      `len`. */
  method EncodeString(str: array<char>, s0: nat, enc: array<char>, len: nat, ghost text: string)
      returns (rc: int, past: bool)
    requires CStr(str[..], s0, text) && Bytes(text) && str != enc && enc.Length >= len
    modifies enc
    ensures rc == if Fits(text, len) then 0 else -1
    ensures rc == 0 ==> CStr(enc[..], 0, Encoded(text))
    ensures past <==> PastEnd(text, len)
  {
    hide *;
    if len == 0 {
      NoRoom(text);
      return -1, false;
    }
    var i: nat, j: nat := s0, 0;
    ghost var rest := text;
    EncodingStart(text, str[..], i, enc[..], len);
    past := false;
    while str[i] != '\0'
      invariant i < str.Length && !past && Encoding(text, rest, str[..], i, enc[..], j, len)
      decreases |rest|
    {
      ghost var was := enc[..];
      EncodingNext(text, rest, str[..], i, was, j, len);
      ghost var n := Piece(rest).0;
      EncodingStops(text, rest, str[..], i, was, j, len);
      EncodingAgain(text, rest, str[..], i, was, j, len);
      var ok;
      ok, past, i, j := EncodeOne(str, i, enc, j, len, rest);
      if !ok || j + 3 >= len {
        return -1, past;
      }
      rest := rest[n..];
    }
    EncodingDone(text, rest, str[..], i, enc[..], j, len);
    Poke(enc, j, '\0');
    rc := 0;
  }

  lemma NoRoom(s: string)
    requires Bytes(s)
    ensures !Fits(s, 0) && !PastEnd(s, 0)
  {
  }

  /** What a round takes and writes. */
  lemma PieceIs(s: string)
    requires s != "" && Bytes(s)
    ensures s[0] < 256 as char && ValidLen(s) <= |s|
    ensures Escaped(s) <==> ValidLen(s) <= 1 && (s[0] == '\\' || !Whitelisted(s[0]))
    ensures if ValidLen(s) > 1 then Piece(s) == (ValidLen(s), s[..ValidLen(s)])
      else Piece(s) == (1, if Escaped(s) then HexEscape(s[0]) else [s[0]])
  {
    hide ValidLen, HexEscape, Whitelisted;
    if ValidLen(s) > 1 { ValidDecodes(s); }
  }

  lemma FrontIs(b: seq<char>, i: nat, s: string, n: nat)
    requires CStr(b, i, s) && s != "" && n <= |s|
    ensures i + n < |b| && b[i] == s[0] && b[i..i + n] == s[..n]
  {
    CStrTail(b, i, s);
    assert b[i..i + |s|] == s;
    assert b[i..i + n] == b[i..i + |s|][..n];
  }

  /** One round: the valid UTF-8 sequence, the escape or the plain character at `i0`, if there is room for it. */
  method EncodeOne(str: array<char>, i0: nat, enc: array<char>, j0: nat, len: nat, ghost rest: string)
    returns (ok: bool, past: bool, i: nat, j: nat)
    requires CStr(str[..], i0, rest) && rest != "" && Bytes(rest) && str != enc && j0 <= len <= enc.Length
    modifies enc
    ensures ok == (|Piece(rest).1| <= len - j0) && past == (Escaped(rest) && j0 + 4 == len)
    ensures ok ==> i == i0 + Piece(rest).0 && j == j0 + |Piece(rest).1| && enc[..j] == old(enc[..j0]) + Piece(rest).1
  {
    hide *;
    PieceIs(rest);
    FrontIs(str[..], i0, rest, Piece(rest).0);
    i, j, past := i0, j0, false;
    var seqlen := ValidUnichar(str, i, rest);
    if seqlen > 1 {
      if len - j < seqlen {
        return false, past, i, j;
      }
      Copy(enc, j, str[i..i + seqlen]);
      j := j + seqlen;
      i := i + seqlen - 1;
    } else if str[i] == '\\' || !Whitelisted(str[i]) {
      if len - j < 4 {
        return false, past, i, j;
      }
      Copy(enc, j, HexEscape(str[i]));
      ghost var put := enc[..];
      assert put[..j + 4] == old(enc[..j0]) + Piece(rest).1;
      if j + 4 < len {
        enc[j + 4] := '\0';
      } else {
        past := true;
      }
      j := j + 4;
      assert enc[..j] == put[..j];
    } else {
      if len - j < 1 {
        return false, past, i, j;
      }
      Copy(enc, j, [str[i]]);
      j := j + 1;
    }
    i := i + 1;
    ok := true;
  }

  /** The loop's invariant: `rest` is still to be read at `i`, and `j` characters of the encoding are written. */
  ghost predicate Encoding(text: string, rest: string, sb: seq<char>, i: nat, eb: seq<char>, j: nat, len: nat) {
    && Bytes(text) && Bytes(rest) && CStr(sb, i, rest) && 0 < len <= |eb| && (j == 0 || j + 3 < len)
    && eb[..j] + Encoded(rest) == Encoded(text)
  }

  lemma EncodingStart(text: string, sb: seq<char>, i: nat, eb: seq<char>, len: nat)
    requires Bytes(text) && CStr(sb, i, text) && 0 < len <= |eb|
    ensures Encoding(text, text, sb, i, eb, 0, len) && i < |sb|
  {
    hide Encoded;
  }

  /** What a round sees. */
  lemma EncodingNext(text: string, rest: string, sb: seq<char>, i: nat, eb: seq<char>, j: nat, len: nat)
    requires Encoding(text, rest, sb, i, eb, j, len) && i < |sb| && sb[i] != '\0'
    ensures rest != "" && Bytes(rest) && CStr(sb, i, rest) && j <= len
  {
    hide Encoded;
    CStrTail(sb, i, rest);
  }

  /** A round that is the last one means a text that does not fit, and writes behind the end just when it should. */
  lemma EncodingStops(text: string, rest: string, sb: seq<char>, i: nat, eb: seq<char>, j: nat, len: nat)
    requires Encoding(text, rest, sb, i, eb, j, len) && rest != "" && Bytes(rest)
    ensures var t := Piece(rest).1;
      j + |t| + 3 >= len ==> !Fits(text, len) && (PastEnd(text, len) <==> Escaped(rest) && j + 4 == len)
  {
    hide Encoded, Piece, Escaped, CStr;
    EncodedStep(rest);
    PieceBackslash(rest);
    var t, more := Piece(rest).1, Encoded(rest[Piece(rest).0..]);
    if j + |t| + 3 >= len {
      StopsAt(eb[..j], t, more, len, Encoded(text), Escaped(rest));
      assert text != "" by { EncodedEmpty(0); }
    }
  }

  lemma EncodedEmpty(room: nat)
    ensures Encoded("") == "" && Unescaped(Hex, "", room) == ""
  {
  }

  lemma StopsAt(done: string, t: string, more: string, len: nat, all: string, escaped: bool)
    requires all == done + (t + more) && t != "" && |t| <= 4 && (done == "" || |done| + 3 < len)
      && |done| + |t| + 3 >= len
    requires escaped ==> |t| == 4
    requires forall k :: 0 <= k < |t| ==> (t[k] == '\\' <==> k == 0 && escaped)
    ensures |all| + 3 >= len
    ensures 4 <= len && len - 4 < |all| && all[len - 4] == '\\' <==> escaped && |done| + 4 == len
  {
    if len >= 4 {
      assert all[len - 4] == t[len - 4 - |done|];
    }
  }

  lemma EncodingAgain(text: string, rest: string, sb: seq<char>, i: nat, was: seq<char>, j: nat, len: nat)
    requires Encoding(text, rest, sb, i, was, j, len) && rest != "" && Bytes(rest)
    ensures var (n, t) := Piece(rest);
      && n <= |rest| && i + n < |sb|
      && forall eb: seq<char> :: |eb| == |was| && j + |t| + 3 < len && eb[..j + |t|] == was[..j] + t
           ==> Encoding(text, rest[n..], sb, i + n, eb, j + |t|, len)
  {
    hide Encoded, Piece, CStr;
    var (n, t) := Piece(rest);
    EncodedStep(rest);
    CStrDrop(sb, i, rest, n);
    CStrEnd(sb, i + n, rest[n..]);
    Assoc(was[..j], t, Encoded(rest[n..]));
  }

  lemma EncodingDone(text: string, rest: string, sb: seq<char>, i: nat, eb: seq<char>, j: nat, len: nat)
    requires Encoding(text, rest, sb, i, eb, j, len) && i < |sb| && sb[i] == '\0'
    ensures Fits(text, len) && !PastEnd(text, len) && j < len <= |eb| && CStr(Upd(eb, j, '\0'), 0, Encoded(text))
  {
    CStrTail(sb, i, rest);
    assert Encoded(rest) == "" && eb[..j] + "" == eb[..j];
    EncodedNoNul(text);
  }

  lemma {:induction false} EncodedNoNul(s: string)
    requires Bytes(s)
    ensures '\0' !in Encoded(s)
    decreases |s|
  {
    if s != "" {
      var (n, t) := Piece(s);
      BytesRest(s, n);
      EncodedNoNul(s[n..]);
      PieceNoNul(s);
    }
  }

  lemma PieceNoNul(s: string)
    requires s != "" && Bytes(s)
    ensures '\0' !in Piece(s).1
  {
    var n := ValidLen(s);
    if n > 1 {
      ValidDecodes(s);
      DecodeOctets(Unichar(s), "");
      assert forall i :: 0 <= i < n ==> s[..n][i] >= 0x80 as char;
    }
  }

  // ---------- blkid_encode_to_utf8() ----------

  /** A 16-bit unit from its two bytes, low byte first or high byte first. */
  function Unit(a: char, b: char, le: bool): (c: nat)
    requires a < 256 as char && b < 256 as char
    ensures c < 0x1_0000
  {
    if le then b as int * 256 + a as int else a as int * 256 + b as int
  }

  function Units(src: string, le: bool): (us: seq<nat>)
    requires Bytes(src)
    ensures forall i :: 0 <= i < |us| ==> us[i] < 0x1_0000
    decreases |src|
  {
    if |src| < 2 then [] else
      BytesRest(src, 2);
      [Unit(src[0], src[1], le)] + Units(src[2..], le)
  }

  /** The two bytes of a unit, in the order of the encoding. */
  function UnitBytes(u: nat, le: bool): string
    requires u < 0x1_0000
  {
    var low, high := (u % 256) as char, (u / 256) as char;
    if le then [low, high] else [high, low]
  }

  function BytesOf(us: seq<nat>, le: bool): (s: string)
    requires forall i :: 0 <= i < |us| ==> us[i] < 0x1_0000
    ensures Bytes(s)
  {
    if us == [] then "" else UnitBytes(us[0], le) + BytesOf(us[1..], le)
  }

  /** Units are read back from their bytes, in either order; one odd byte behind them is left alone. */
  lemma {:induction false} UnitsBack(us: seq<nat>, le: bool, odd: string)
    requires (forall i :: 0 <= i < |us| ==> us[i] < 0x1_0000) && |odd| < 2 && Bytes(odd)
    ensures Bytes(BytesOf(us, le) + odd) && Units(BytesOf(us, le) + odd, le) == us
  {
    var s := BytesOf(us, le) + odd;
    if us != [] {
      UnitsBack(us[1..], le, odd);
      assert s[2..] == BytesOf(us[1..], le) + odd;
      assert s[0] == UnitBytes(us[0], le)[0] && s[1] == UnitBytes(us[0], le)[1];
      assert [us[0]] + us[1..] == us;
    } else {
      assert s == odd;
    }
  }

  /** The units that are converted when `j` bytes are used: up to a zero unit or one that does not fit with its NUL. */
  function Taken(us: seq<nat>, j: nat, len: nat): (r: seq<nat>)
    requires forall i :: 0 <= i < |us| ==> us[i] < 0x1_0000
    ensures r <= us
  {
    if us == [] || us[0] == 0 || j + |Octets(us[0])| >= len then []
    else [us[0]] + Taken(us[1..], j + |Octets(us[0])|, len)
  }

  function OctetsAll(us: seq<nat>): string
    requires forall i :: 0 <= i < |us| ==> us[i] < 0x1_0000
  {
    if us == [] then "" else Octets(us[0]) + OctetsAll(us[1..])
  }

  /** What is converted ends at the end, at a zero unit, or where the next one would not fit. */
  lemma {:induction false} TakenEnds(us: seq<nat>, j: nat, len: nat)
    requires forall i :: 0 <= i < |us| ==> us[i] < 0x1_0000
    ensures var r := Taken(us, j, len);
      && (forall i :: 0 <= i < |r| ==> r[i] != 0)
      && (|r| == |us| || us[|r|] == 0 || j + |OctetsAll(r)| + |Octets(us[|r|])| >= len)
      && (j < len ==> j + |OctetsAll(r)| < len)
    decreases |us|
  {
    hide Octets;
    var r := Taken(us, j, len);
    if r != [] {
      var more := Taken(us[1..], j + |Octets(us[0])|, len);
      TakenEnds(us[1..], j + |Octets(us[0])|, len);
      assert r == [us[0]] + more && r[1..] == more;
      assert OctetsAll(r) == Octets(us[0]) + OctetsAll(more);
    }
  }

  /** Decodes a text of UTF-8 sequences one after the other. */
  function DecodeAll(t: string): seq<int>
    decreases |t|
  {
    if t == "" then []
    else
      var n := ExpectedLen(t[0]);
      [Unichar(t)] + if n == 0 || n > |t| then [] else DecodeAll(t[n..])
  }

  /** Decoding what was converted gives back the units. */
  lemma {:induction false} DecodeUnits(us: seq<nat>)
    requires forall i :: 0 <= i < |us| ==> 0 < us[i] < 0x1_0000
    ensures DecodeAll(OctetsAll(us)) == us
  {
    if us != [] {
      var o, rest := Octets(us[0]), OctetsAll(us[1..]);
      DecodeUnits(us[1..]);
      if us[0] >= 0x80 { DecodeOctets(us[0], rest); }
      assert (o + rest)[0] == o[0] && (o + rest)[|o|..] == rest;
      hide Octets;
      assert us == [us[0]] + us[1..];
    }
  }

  /** blkid_encode_to_utf8(): the longest part of the units that fits, its NUL, and nothing else. The NUL is written
      behind the buffer when `len` is 0. */
  method EncodeToUtf8(le: bool, dest: array<char>, len: nat, src: array<char>, count: nat) returns (j: nat, past: bool)
    requires count <= src.Length && Bytes(src[..count]) && src != dest && dest.Length >= len
    modifies dest
    ensures past <==> len == 0
    ensures if past then j == 0 else j < len && Converted(src[..count], le, dest[..], old(dest[..]), j, len)
  {
    hide *;
    var i := 0;
    j := 0;
    ghost var data, was := src[..count], dest[..];
    ConvertStart(data, le, was, len);
    while i + 2 <= count
      invariant i <= count && if len == 0 then j == 0 == i
        else j < len && Converting(data, le, dest[..], was, j, len, i)
      decreases count - i
    {
      ConvertUnit(data, le, dest[..], was, j, len, i);
      var c := Unit(src[i], src[i + 1], le);
      if c == 0 {
        past := Terminate(dest, j, len);
        return;
      }
      if j + |Octets(c)| >= len {
        past := Terminate(dest, j, len);
        return;
      }
      ghost var before := dest[..];
      Copy(dest, j, Octets(c));
      ConvertNext(data, le, dest[..], before, was, j, len, i, Octets(c));
      j := j + |Octets(c)|;
      i := i + 2;
    }
    if len > 0 { ConvertEnd(data, le, dest[..], was, j, len, i); }
    past := Terminate(dest, j, len);
  }

  /** `dest[j] = 0`, in a buffer of `len` bytes. */
  method Terminate(dest: array<char>, j: nat, len: nat) returns (past: bool)
    requires len <= dest.Length
    modifies dest
    ensures past <==> j >= len
    ensures !past ==> dest[..] == Upd(old(dest[..]), j, '\0')
  {
    past := j >= len;
    if !past {
      Poke(dest, j, '\0');
    }
  }

  /** The loop's invariant: the units from byte `i` on are still to be converted, `j` bytes are written. */
  ghost predicate Converting(data: string, le: bool, now: seq<char>, was: seq<char>, j: nat, len: nat, i: nat) {
    && i <= |data| && Bytes(data) && Bytes(data[i..])
    && j < len <= |now| == |was| && now[j..] == was[j..]
    && now[..j] + OctetsAll(Taken(Units(data[i..], le), j, len)) == OctetsAll(Taken(Units(data, le), 0, len))
  }

  /** The postcondition, once the NUL is written. */
  ghost predicate Converted(data: string, le: bool, now: seq<char>, was: seq<char>, j: nat, len: nat)
    requires Bytes(data)
  {
    var all := OctetsAll(Taken(Units(data, le), 0, len));
    j == |all| < |now| == |was| && now[..j] == all && now[j] == '\0' && now[j + 1..] == was[j + 1..]
  }

  lemma ConvertStart(data: string, le: bool, was: seq<char>, len: nat)
    requires Bytes(data) && |was| >= len
    ensures len > 0 ==> Converting(data, le, was, was, 0, len, 0)
  {
    hide Units, Taken, OctetsAll;
    assert data[0..] == data;
  }

  /** The NUL that ends the conversion. */
  lemma Ended(data: string, le: bool, now: seq<char>, was: seq<char>, j: nat, len: nat)
    requires Bytes(data) && j < |now| == |was| && now[j..] == was[j..]
      && now[..j] == OctetsAll(Taken(Units(data, le), 0, len))
    ensures Converted(data, le, Upd(now, j, '\0'), was, j, len)
  {
    hide Units, Taken, OctetsAll;
    var all := OctetsAll(Taken(Units(data, le), 0, len));
    assert Upd(now, j, '\0')[j + 1..] == now[j..][1..] == was[j + 1..];
  }

  lemma ConvertUnit(data: string, le: bool, now: seq<char>, was: seq<char>, j: nat, len: nat, i: nat)
    requires i + 2 <= |data| && Bytes(data) && (len > 0 ==> Converting(data, le, now, was, j, len, i))
    ensures data[i] < 256 as char && data[i + 1] < 256 as char
    ensures var c := Unit(data[i], data[i + 1], le);
      if c == 0 || j + |Octets(c)| >= len then len > 0 ==>
        j < |now| && Converted(data, le, Upd(now, j, '\0'), was, j, len)
      else j + |Octets(c)| < |now|
  {
    hide Units, Taken, Octets, Unit, Converted;
    if len > 0 {
      UnitsNext(data, i, le, j, len, now[..j]);
      var c := Unit(data[i], data[i + 1], le);
      if c == 0 || j + |Octets(c)| >= len {
        assert now[..j] + "" == now[..j];
        Ended(data, le, now, was, j, len);
      }
    }
  }

  lemma ConvertNext(data: string, le: bool, now: seq<char>, before: seq<char>, was: seq<char>, j: nat, len: nat,
      i: nat, o: string)
    requires Converting(data, le, before, was, j, len, i) && i + 2 <= |data|
    requires var c := Unit(data[i], data[i + 1], le); c != 0 && o == Octets(c) && j + |o| < len <= |was|
    requires now == before[..j] + o + before[j + |o|..]
    ensures Converting(data, le, now, was, j + |o|, len, i + 2)
  {
    hide Units, Taken, Octets, OctetsAll, Unit, Bytes;
    UnitsNext(data, i, le, j, len, before[..j]);
    assert now[..j + |o|] == before[..j] + o;
    assert now[j + |o|..] == before[j + |o|..] == before[j..][|o|..] == was[j..][|o|..] == was[j + |o|..];
  }

  lemma ConvertEnd(data: string, le: bool, now: seq<char>, was: seq<char>, j: nat, len: nat, i: nat)
    requires Converting(data, le, now, was, j, len, i) && i + 2 > |data|
    ensures j < |now| && Bytes(data) && Converted(data, le, Upd(now, j, '\0'), was, j, len)
  {
    assert Units(data[i..], le) == [];
    hide Units, Octets, Converted;
    assert now[..j] + "" == now[..j];
    Ended(data, le, now, was, j, len);
  }

  lemma UnitsNext(data: string, i: nat, le: bool, j: nat, len: nat, before: string)
    requires i + 2 <= |data| && Bytes(data) && Bytes(data[i..])
    ensures Bytes(data[i + 2..])
    ensures var c := Unit(data[i], data[i + 1], le);
      var now := Taken(Units(data[i..], le), j, len);
      if c == 0 || j + |Octets(c)| >= len then now == []
      else
        var rest := Taken(Units(data[i + 2..], le), j + |Octets(c)|, len);
        before + OctetsAll(now) == (before + Octets(c)) + OctetsAll(rest)
  {
    hide *;
    UnitsStep(data, i, le);
    var c, rest := Unit(data[i], data[i + 1], le), Units(data[i + 2..], le);
    TakenStep(c, rest, j, len);
    if c != 0 && j + |Octets(c)| < len {
      Assoc(before, Octets(c), OctetsAll(Taken(rest, j + |Octets(c)|, len)));
    }
  }

  lemma UnitsStep(data: string, i: nat, le: bool)
    requires i + 2 <= |data| && Bytes(data)
    ensures data[i] < 256 as char && data[i + 1] < 256 as char && Bytes(data[i..]) && Bytes(data[i + 2..])
    ensures Units(data[i..], le) == [Unit(data[i], data[i + 1], le)] + Units(data[i + 2..], le)
  {
    hide Unit;
    var d := data[i..];
    assert d[2..] == data[i + 2..] && d[0] == data[i] && d[1] == data[i + 1];
  }

  lemma TakenStep(c: nat, rest: seq<nat>, j: nat, len: nat)
    requires c < 0x1_0000 && forall i :: 0 <= i < |rest| ==> rest[i] < 0x1_0000
    ensures var now := Taken([c] + rest, j, len);
      if c == 0 || j + |Octets(c)| >= len then now == []
      else OctetsAll(now) == Octets(c) + OctetsAll(Taken(rest, j + |Octets(c)|, len))
  {
    hide Octets;
    var us := [c] + rest;
    assert us[1..] == rest;
    if c != 0 && j + |Octets(c)| < len {
      var more := Taken(rest, j + |Octets(c)|, len);
      assert ([c] + more)[1..] == more;
    }
  }
}
