/** Octal and hexadecimal escapes (mangle.c). A size_t is 64 bits wide; characters are bytes. */
module MangleText {
  import opened CNumber
  import opened CacheParse
  import opened CacheText

  predicate Unwanted(c: char) { c == ' ' || c == '\t' || c == '\n' || c == '\\' }

  function OctalDigit(d: nat): char
    requires d < 8
  {
    ('0' as int + d) as char
  }

  /** `\ooo` */
  function OctalEscape(c: char): string
    requires c < 256 as char
  {
    ['\\', OctalDigit(c as int / 64), OctalDigit(c as int / 8 % 8), OctalDigit(c as int % 8)]
  }

  predicate Bytes(s: string) { forall i :: 0 <= i < |s| ==> s[i] < 256 as char }

  /** mangle(), on values. */
  function Mangled(s: string): (r: string)
    requires Bytes(s)
    ensures |s| <= |r| <= 4 * |s|
  {
    if s == "" then "" else (if Unwanted(s[0]) then OctalEscape(s[0]) else [s[0]]) + Mangled(s[1..])
  }

  /** Blanks, tabs and newlines do not survive; a text is unchanged exactly when it has none, and no backslash. */
  lemma {:induction false} MangledClean(s: string)
    requires Bytes(s)
    ensures forall i :: 0 <= i < |Mangled(s)| ==> Mangled(s)[i] != ' ' && Mangled(s)[i] != '\t' && Mangled(s)[i] != '\n'
    ensures Mangled(s) == s <==>
      forall i :: 0 <= i < |s| ==> s[i] != ' ' && s[i] != '\t' && s[i] != '\n' && s[i] != '\\'
  {
    if s != "" {
      MangledClean(s[1..]);
      assert s == [s[0]] + s[1..];
      assert forall i :: 1 <= i < |s| ==> s[i] == s[1..][i - 1];
      var e := if Unwanted(s[0]) then OctalEscape(s[0]) else [s[0]];
      assert forall i :: 0 <= i < |e| ==> e[i] != ' ' && e[i] != '\t' && e[i] != '\n';
      assert Mangled(s) == e + Mangled(s[1..]);
      hide Mangled, OctalEscape;
      if Unwanted(s[0]) { assert |Mangled(s)| > |s|; }
    }
  }

  // ---------- undoing escapes ----------

  /** Which escapes are undone: unmangle_to_buffer()'s octal ones or unhexmangle_to_buffer()'s hexadecimal ones. */
  datatype Kind = Octal | Hex

  predicate IsOctal(c: char) { '0' <= c <= '7' }

  /** The three characters after the backslash are the rest of an escape. */
  predicate EscapeTail(kind: Kind, a: char, b: char, c: char) {
    if kind.Octal? then IsOctal(a) && IsOctal(b) && IsOctal(c)
    else a == 'x' && DigitVal(b) < 16 && DigitVal(c) < 16
  }

  /** The byte an escape stands for. */
  function EscapeValue(kind: Kind, a: char, b: char, c: char): char
    requires EscapeTail(kind, a, b, c)
  {
    var v := if kind.Octal? then 64 * DigitVal(a) + 8 * DigitVal(b) + DigitVal(c) else 16 * DigitVal(b) + DigitVal(c);
    (v % 256) as char
  }

  /** What the loop copies when `room` is left of `len - 1`. An escape counts for the four characters it is read
      from. */
  function Unescaped(kind: Kind, s: string, room: nat): (r: string)
    ensures |r| <= |s| && |r| <= room
    decreases |s|
  {
    if s == "" || room == 0 then ""
    else if s[0] == '\\' && 3 < room && |s| > 3 && EscapeTail(kind, s[1], s[2], s[3]) then
      [EscapeValue(kind, s[1], s[2], s[3])] + Unescaped(kind, s[4..], room - 4)
    else [s[0]] + Unescaped(kind, s[1..], room - 1)
  }

  predicate HexDigit(c: char) { '0' <= c <= '9' || 'a' <= c <= 'f' || 'A' <= c <= 'F' }

  /** At place `i` a backslash is followed by three octal digits, or by an x and two hexadecimal ones. */
  predicate EscapeAt(kind: Kind, s: string, i: nat) {
    && i + 3 < |s| && s[i] == '\\'
    && if kind.Octal? then '0' <= s[i + 1] <= '7' && '0' <= s[i + 2] <= '7' && '0' <= s[i + 3] <= '7'
       else s[i + 1] == 'x' && HexDigit(s[i + 2]) && HexDigit(s[i + 3])
  }

  /** A text without escapes is copied as it is, backslashes included; one that begins with an escape is not. */
  lemma {:induction false} UnescapedKeeps(kind: Kind, s: string, room: nat)
    requires room >= |s|
    ensures (forall i: nat :: !EscapeAt(kind, s, i)) ==> Unescaped(kind, s, room) == s
    ensures EscapeAt(kind, s, 0) ==>
      Unescaped(kind, s, room) == [EscapeValue(kind, s[1], s[2], s[3])] + Unescaped(kind, s[4..], room - 4)
  {
    FirstUnescaped(kind, s, room);
    hide Unescaped, EscapeValue, EscapeTail;
    if s != "" && !EscapeAt(kind, s, 0) {
      UnescapedKeeps(kind, s[1..], room - 1);
      EscapesBehind(kind, s);
      hide EscapeAt;
      assert s == [s[0]] + s[1..];
    }
  }

  lemma EscapesBehind(kind: Kind, s: string)
    requires s != ""
    ensures forall i: nat :: EscapeAt(kind, s[1..], i) ==> EscapeAt(kind, s, i + 1)
  {
  }

  lemma FirstUnescaped(kind: Kind, s: string, room: nat)
    requires room >= |s|
    ensures s == "" ==> Unescaped(kind, s, room) == ""
    ensures EscapeAt(kind, s, 0) ==>
      EscapeTail(kind, s[1], s[2], s[3])
      && Unescaped(kind, s, room) == [EscapeValue(kind, s[1], s[2], s[3])] + Unescaped(kind, s[4..], room - 4)
    ensures s != "" && !EscapeAt(kind, s, 0) ==> Unescaped(kind, s, room) == [s[0]] + Unescaped(kind, s[1..], room - 1)
  {
    hide EscapeValue;
  }

  /** `len - 1` in size_t arithmetic: no room becomes all the room there is. */
  function Room(len: nat): nat
    requires len < TWO64
  {
    if len == 0 then TWO64 - 1 else len - 1
  }

  lemma OctalBack(c: char)
    requires c < 256 as char
    ensures var e := OctalEscape(c); EscapeTail(Octal, e[1], e[2], e[3]) && EscapeValue(Octal, e[1], e[2], e[3]) == c
  {
    hide OctalDigit, DigitVal, IsOctal;
    OctalParts(c as int);
    DigitBack(c as int / 64);
    DigitBack(c as int / 8 % 8);
    DigitBack(c as int % 8);
  }

  lemma OctalParts(v: nat)
    requires v < 256
    ensures 64 * (v / 64) + 8 * (v / 8 % 8) + v % 8 == v && v / 64 < 8
  {
  }

  lemma DigitBack(d: nat)
    requires d < 8
    ensures DigitVal(OctalDigit(d)) == d && IsOctal(OctalDigit(d))
  {
  }

  /** unmangle_to_buffer() undoes mangle() whenever the mangled text fits. */
  lemma {:induction false} UnmangleMangle(s: string, room: nat)
    requires Bytes(s) && room >= |Mangled(s)|
    ensures Unescaped(Octal, Mangled(s), room) == s
  {
    if s != "" {
      var t := Mangled(s[1..]);
      assert s == [s[0]] + s[1..];
      if Unwanted(s[0]) {
        OctalBack(s[0]);
        UnmangleMangle(s[1..], room - 4);
        EscapeStep(Octal, OctalEscape(s[0]), t, room);
      } else {
        UnmangleMangle(s[1..], room - 1);
        PlainStep(Octal, s[0], t, room);
      }
    }
  }

  lemma EscapeStep(kind: Kind, e: string, t: string, room: nat)
    requires |e| == 4 && e[0] == '\\' && room > 3 && EscapeTail(kind, e[1], e[2], e[3])
    ensures Unescaped(kind, e + t, room) == [EscapeValue(kind, e[1], e[2], e[3])] + Unescaped(kind, t, room - 4)
  {
    var u := e + t;
    assert u[0] == e[0] && u[1] == e[1] && u[2] == e[2] && u[3] == e[3];
    assert u[4..] == t;
  }

  lemma PlainStep(kind: Kind, c: char, t: string, room: nat)
    requires c != '\\' && room > 0
    ensures Unescaped(kind, [c] + t, room) == [c] + Unescaped(kind, t, room - 1)
  {
    assert ([c] + t)[1..] == t;
  }

  // ---------- the buffer loops ----------

  /** mangle(): a fresh buffer of four times the length and one is always enough. */
  method Mangle(s: array<char>, s0: nat, ghost text: string) returns (ss: array<char>)
    requires CStr(s[..], s0, text) && Bytes(text)
    ensures fresh(ss) && ss.Length == 4 * |text| + 1 && CStr(ss[..], 0, Mangled(text))
  {
    hide *;
    var n := StrLen(s, s0, text);
    ss := new char[4 * n + 1];
    var i, sp := 0, 0;
    MangleStart(text, ss[..]);
    while i < n
      invariant i <= n && sp <= 4 * i && Mangling(text, i, ss[..], sp)
      decreases n - i
    {
      CharAt(s[..], s0, text, i);
      sp := MangleOne(ss, sp, s[s0 + i], text, i);
      i := i + 1;
    }
    MangleEnd(text, ss[..], sp, s[..], s0);
    Poke(ss, sp, '\0');
  }

  /** The loop's invariant: the first `i` characters are mangled into the first `sp`. */
  ghost predicate Mangling(text: string, i: nat, ss: seq<char>, sp: nat) {
    Bytes(text) && i <= |text| && sp <= |ss| && ss[..sp] + Mangled(text[i..]) == Mangled(text)
  }

  /** One character, as it is or as an escape. */
  method MangleOne(ss: array<char>, sp0: nat, c: char, ghost text: string, ghost i: nat) returns (sp: nat)
    requires Bytes(text) && i < |text| && c == text[i] && c < 256 as char && sp0 + 4 < ss.Length
      && Mangling(text, i, ss[..], sp0)
    modifies ss
    ensures sp <= sp0 + 4 && Mangling(text, i + 1, ss[..], sp)
  {
    ghost var before := ss[..sp0];
    MangledNext(text, i, before);
    hide *;
    sp := sp0;
    if Unwanted(c) {
      Copy(ss, sp, OctalEscape(c));
      sp := sp + 4;
    } else {
      Copy(ss, sp, [c]);
      sp := sp + 1;
    }
    MangledOn(text, i, before, ss[..], sp);
  }

  lemma MangledOn(text: string, i: nat, before: string, ss: seq<char>, sp: nat)
    requires Bytes(text) && i < |text| && sp <= |ss| && ss[..sp] + Mangled(text[i + 1..]) == Mangled(text)
    ensures Mangling(text, i + 1, ss, sp)
  {
  }

  lemma MangleStart(text: string, ss: seq<char>)
    requires Bytes(text)
    ensures Mangling(text, 0, ss, 0)
  {
  }

  lemma MangleEnd(text: string, ss: seq<char>, sp: nat, b: seq<char>, at: int)
    requires Mangling(text, |text|, ss, sp) && sp < |ss| && CStr(b, at, text)
    ensures CStr(Upd(ss, sp, '\0'), 0, Mangled(text))
  {
    assert text[|text|..] == "";
    MangledNoNul(text);
    assert ss[..sp] == Mangled(text);
  }

  lemma CharAt(b: seq<char>, at: int, s: string, i: nat)
    requires CStr(b, at, s) && i < |s| && Bytes(s)
    ensures 0 <= at && at + i < |b| && b[at + i] == s[i] && s[i] < 256 as char
  {
    CStrDrop(b, at, s, i);
  }

  /** memcpy(), or sprintf() without its NUL. */
  method Copy(dst: array<char>, at: nat, t: string)
    requires at + |t| <= dst.Length
    modifies dst
    ensures dst[..] == old(dst[..at]) + t + old(dst[at + |t|..])
  {
    for i := 0 to |t|
      invariant forall k :: 0 <= k < dst.Length ==> dst[k] == if at <= k < at + i then t[k - at] else old(dst[k])
    {
      dst[at + i] := t[i];
    }
  }

  lemma MangledNext(text: string, i: nat, before: string)
    requires i < |text| && Bytes(text)
    ensures Bytes(text[i..]) && Bytes(text[i + 1..])
    ensures var piece := if Unwanted(text[i]) then OctalEscape(text[i]) else [text[i]];
      before + Mangled(text[i..]) == (before + piece) + Mangled(text[i + 1..])
  {
    hide OctalEscape;
    assert text[i..][0] == text[i] && text[i..][1..] == text[i + 1..];
    var piece := if Unwanted(text[i]) then OctalEscape(text[i]) else [text[i]];
    Assoc(before, piece, Mangled(text[i + 1..]));
  }

  lemma {:induction false} MangledNoNul(s: string)
    requires Bytes(s) && '\0' !in s
    ensures '\0' !in Mangled(s)
  {
    if s != "" {
      assert s[0] in s && forall c :: c in s[1..] ==> c in s;
      MangledNoNul(s[1..]);
      assert '\0' !in OctalEscape(s[0]);
    }
  }

  /** unmangle_to_buffer() and unhexmangle_to_buffer(). Source and destination may be the same buffer at the same place:
      the write cursor never passes the read cursor. */
  method UnescapeToBuffer(kind: Kind, src: array<char>, s0: nat, dst: array<char>, d0: nat, len: nat,
      ghost text: string)
    requires len < TWO64 && CStr(src[..], s0, text)
    requires d0 + |Unescaped(kind, text, Room(len))| < dst.Length
    requires src == dst ==> s0 == d0
    modifies dst
    ensures dst[d0..d0 + |Unescaped(kind, text, Room(len))|] == Unescaped(kind, text, Room(len))
    ensures dst[d0 + |Unescaped(kind, text, Room(len))|] == '\0'
  {
    hide *;
    var s: nat, d: nat, sz: nat := s0, d0, 0;
    ghost var rest, out := text, "";
    Start(src[..], dst[..], src == dst, s0, d0, kind, text, Room(len));
    while src[s] != '\0' && sz < Room(len)
      invariant s < src.Length && d < dst.Length
      invariant Going(src[..], dst[..], src == dst, s, d, d0, sz, kind, text, Room(len), rest, out)
      decreases |rest|
    {
      Look(src[..], dst[..], src == dst, s, d, d0, sz, kind, text, Room(len), rest, out);
      var c, k := src[s], 1;
      if src[s] == '\\' && sz + 3 < Room(len) && src[s + 1] != '\0' && src[s + 2] != '\0'
        && EscapeTail(kind, src[s + 1], src[s + 2], src[s + 3]) {
        c, k := EscapeValue(kind, src[s + 1], src[s + 2], src[s + 3]), 4;
      }
      Advance(src[..], dst[..], src == dst, s, d, d0, sz, kind, text, Room(len), rest, out, c, k);
      Poke(dst, d, c);
      s, sz, d := s + k, sz + k, d + 1;
      out, rest := out + [c], rest[k..];
    }
    Finish(src[..], dst[..], src == dst, s, d, d0, sz, kind, text, Room(len), rest, out);
    Poke(dst, d, '\0');
  }

  /** The loop's invariant: `rest` is still to be read at `s`, `out` has been written from `d0` to `d`. */
  ghost predicate Going(src: seq<char>, dst: seq<char>, same: bool, s: int, d: int, d0: nat, sz: nat, kind: Kind,
      text: string,
      room: nat, rest: string, out: string)
  {
    Reading(src, dst, same, s, d, rest) && Writing(dst, d, d0, sz, kind, text, room, rest, out)
  }

  ghost predicate Reading(src: seq<char>, dst: seq<char>, same: bool, s: int, d: int, rest: string) {
    CStr(src, s, rest) && (same ==> src == dst && d <= s)
  }

  ghost predicate Writing(dst: seq<char>, d: int, d0: nat, sz: nat, kind: Kind, text: string, room: nat, rest: string,
      out: string) {
    && sz <= room && d == d0 + |out| < |dst| && d0 + |Unescaped(kind, text, room)| < |dst|
    && dst[d0..d] == out && out + Unescaped(kind, rest, room - sz) == Unescaped(kind, text, room)
  }

  lemma Start(src: seq<char>, dst: seq<char>, same: bool, s0: nat, d0: nat, kind: Kind, text: string, room: nat)
    requires CStr(src, s0, text) && (same ==> src == dst && s0 == d0) && d0 + |Unescaped(kind, text, room)| < |dst|
    ensures Going(src, dst, same, s0, d0, d0, 0, kind, text, room, text, "") && s0 < |src|
  {
    hide Unescaped;
  }

  /** What one round sees, and what it does to the specification. */
  lemma Look(src: seq<char>, dst: seq<char>, same: bool, s: nat, d: nat, d0: nat, sz: nat, kind: Kind, text: string,
      room: nat, rest: string, out: string)
    requires Going(src, dst, same, s, d, d0, sz, kind, text, room, rest, out) && src[s] != '\0' && sz < room
    ensures rest != "" && s + 1 < |src| && (src[s + 1] != '\0' ==>
      s + 2 < |src| && (src[s + 2] != '\0' ==> s + 3 < |src|))
    ensures var escape := src[s] == '\\' && sz + 3 < room && src[s + 1] != '\0' && src[s + 2] != '\0'
          && EscapeTail(kind, src[s + 1], src[s + 2], src[s + 3]);
      if escape then
        |rest| > 3 && Unescaped(kind, rest, room - sz) == [EscapeValue(kind, src[s + 1], src[s + 2], src[s + 3])]
          + Unescaped(kind, rest[4..], room - sz - 4)
      else Unescaped(kind, rest, room - sz) == [src[s]] + Unescaped(kind, rest[1..], room - sz - 1)
  {
    CStrDrop(src, s, rest, 0);
    CStrDrop(src, s, rest, 1);
    if |rest| > 1 { CStrDrop(src, s, rest, 2); }
    if |rest| > 2 { CStrDrop(src, s, rest, 3); }
    hide CStr;
  }

  lemma Advance(src: seq<char>, dst: seq<char>, same: bool, s: nat, d: nat, d0: nat, sz: nat, kind: Kind, text: string,
      room: nat, rest: string, out: string, c: char, k: nat)
    requires Going(src, dst, same, s, d, d0, sz, kind, text, room, rest, out)
    requires 0 < k <= |rest| && sz + k <= room && Unescaped(kind, rest, room - sz) == [c]
      + Unescaped(kind, rest[k..], room - sz - k)
    ensures var now := Upd(dst, d, c);
      Going(if same then now else src, now, same, s + k, d + 1, d0, sz + k, kind, text, room, rest[k..], out + [c])
    ensures s + k < |src| && d + 1 < |dst|
  {
    hide *;
    GoingParts(src, dst, same, s, d, d0, sz, kind, text, room, rest, out);
    ReadOn(src, dst, same, s, d, rest, c, k);
    WriteOn(dst, d, d0, sz, kind, text, room, rest, out, c, k);
    GoingIs(if same then Upd(dst, d, c)
      else src, Upd(dst, d, c), same, s + k, d + 1, d0, sz + k, kind, text, room, rest[k..], out + [c]);
  }

  /** The text still to be read is not touched by the write. */
  lemma ReadOn(src: seq<char>, dst: seq<char>, same: bool, s: nat, d: nat, rest: string, c: char, k: nat)
    requires Reading(src, dst, same, s, d, rest) && 0 < k <= |rest| && d < |dst|
    ensures Reading(if same then Upd(dst, d, c) else src, Upd(dst, d, c), same, s + k, d + 1, rest[k..])
      && s + k < |src|
  {
    hide CStr, Upd;
    CStrDrop(src, s, rest, k);
    CStrEnd(src, s + k, rest[k..]);
    OneWritten(dst, d, c);
    if same { CStrKept(src, Upd(dst, d, c), d, 1, s + k, rest[k..]); }
  }

  lemma WriteOn(dst: seq<char>, d: nat, d0: nat, sz: nat, kind: Kind, text: string, room: nat, rest: string,
      out: string, c: char, k: nat)
    requires Writing(dst, d, d0, sz, kind, text, room, rest, out)
    requires 0 < k <= |rest| && sz + k <= room && Unescaped(kind, rest, room - sz) == [c]
      + Unescaped(kind, rest[k..], room - sz - k)
    ensures d < |dst| && Writing(Upd(dst, d, c), d + 1, d0, sz + k, kind, text, room, rest[k..], out + [c])
  {
    hide Unescaped, Upd;
    Assoc(out, [c], Unescaped(kind, rest[k..], room - sz - k));
    Appended(dst, d0, d, out, c);
  }

  lemma GoingParts(src: seq<char>, dst: seq<char>, same: bool, s: int, d: int, d0: nat, sz: nat, kind: Kind,
      text: string,
      room: nat, rest: string, out: string)
    requires Going(src, dst, same, s, d, d0, sz, kind, text, room, rest, out)
    ensures Reading(src, dst, same, s, d, rest) && Writing(dst, d, d0, sz, kind, text, room, rest, out) && d < |dst|
  {
    hide Unescaped, CStr;
  }

  lemma GoingIs(src: seq<char>, dst: seq<char>, same: bool, s: int, d: int, d0: nat, sz: nat, kind: Kind, text: string,
      room: nat, rest: string, out: string)
    requires Reading(src, dst, same, s, d, rest) && Writing(dst, d, d0, sz, kind, text, room, rest, out)
    ensures Going(src, dst, same, s, d, d0, sz, kind, text, room, rest, out) && d < |dst|
  {
    hide Unescaped, CStr;
  }

  lemma Appended(dst: seq<char>, d0: nat, d: nat, out: string, c: char)
    requires d0 <= d < |dst| && dst[d0..d] == out
    ensures Upd(dst, d, c)[d0..d + 1] == out + [c]
  {
  }

  lemma OneWritten(b: seq<char>, d: nat, c: char)
    requires d < |b|
    ensures Outside(b, Upd(b, d, c), d, 1)
  {
  }

  lemma Finish(src: seq<char>, dst: seq<char>, same: bool, s: nat, d: nat, d0: nat, sz: nat, kind: Kind, text: string,
      room: nat, rest: string, out: string)
    requires Going(src, dst, same, s, d, d0, sz, kind, text, room, rest, out) && (src[s] == '\0' || sz >= room)
    ensures out == Unescaped(kind, text, room) && d == d0 + |out|
    ensures var now := Upd(dst, d, '\0'); now[d0..d] == out && now[d] == '\0'
  {
    CStrTail(src, s, rest);
    assert Unescaped(kind, rest, room - sz) == "";
    assert out + "" == out;
  }
}
