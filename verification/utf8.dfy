/** The UTF-8 functions of encode.c against section 3 of RFC 3629. Characters are bytes. */
module Utf8 {
  import opened CacheParse
  import opened MangleText

  // ---------- RFC 3629, section 3 ----------

  /** The octets of a code point, shortest form. */
  function Octets(cp: nat): (r: string)
    requires cp < 0x11_0000
    ensures 1 <= |r| <= 4 && Bytes(r)
  {
    if cp < 0x80 then [cp as char]
    else if cp < 0x800 then [(0xc0 + cp / 64) as char, (0x80 + cp % 64) as char]
    else if cp < 0x1_0000 then [(0xe0 + cp / 4096) as char, (0x80 + cp / 64 % 64) as char, (0x80 + cp % 64) as char]
    else [(0xf0 + cp / 262144) as char, (0x80 + cp / 4096 % 64) as char, (0x80 + cp / 64 % 64) as char,
      (0x80 + cp % 64) as char]
  }

  /** Beyond ASCII, no surrogate, not in U+FDD0..U+FDEF and not ending in FFFF. */
  predicate Allowed(cp: nat) {
    0x80 <= cp <= 0x10_ffff && !(0xd800 <= cp <= 0xdfff) && !(0xfdd0 <= cp <= 0xfdef) && cp % 0x1_0000 != 0xffff
  }

  // ---------- encode.c ----------

  /** utf8_encoded_expected_len() */
  function ExpectedLen(c: char): (n: nat)
    ensures n <= 6
  {
    if c < 0x80 as char then 1
    else if 0xc0 as char <= c < 0xe0 as char then 2
    else if 0xe0 as char <= c < 0xf0 as char then 3
    else if 0xf0 as char <= c < 0xf8 as char then 4
    else if 0xf8 as char <= c < 0xfc as char then 5
    else if 0xfc as char <= c < 0xfe as char then 6
    else 0
  }

  /** The byte at `i`, the NUL at the end. */
  function At(s: string, i: nat): char { if i < |s| then s[i] else '\0' }

  /** The bits of the first octet. */
  function LeadBits(c: char, len: nat): nat {
    var v := c as int;
    if len == 2 then v % 32 else if len == 3 then v % 16 else if len == 4 then v % 8 else if len == 5 then v % 4
      else v % 2
  }

  /** The loop over the continuation octets; -1 at one that is none. */
  function Fold(u: nat, s: string, i: nat, len: nat): (r: int)
    requires i <= len
    ensures r >= -1
    decreases len - i
  {
    if i == len then u
    else if At(s, i) as int / 64 != 2 then -1
    else Fold(u * 64 + At(s, i) as int % 64, s, i + 1, len)
  }

  /** utf8_encoded_to_unichar() */
  function Unichar(s: string): (r: int)
    requires s != ""
    ensures r >= -1
  {
    var len := ExpectedLen(s[0]);
    if len == 0 then -1 else if len == 1 then s[0] as int else Fold(LeadBits(s[0], len), s, 1, len)
  }

  /** utf8_unichar_to_encoded_len() */
  function EncodedLen(u: int): nat {
    if u < 0x80 then 1 else if u < 0x800 then 2 else if u < 0x1_0000 then 3 else if u < 0x20_0000 then 4
      else if u < 0x400_0000 then 5 else 6
  }

  /** utf8_unichar_valid_range() */
  predicate ValidRange(u: int) {
    && u <= 0x10_ffff && !(0xd800 <= u < 0xe000) && !(0xfdcf < u < 0xfdf0) && u % 0x1_0000 != 0xffff
  }

  /** utf8_encoded_valid_unichar() */
  function ValidLen(s: string): int
    requires s != ""
  {
    var len := ExpectedLen(s[0]);
    if len == 0 then -1
    else if len == 1 then 1
    else if exists i :: 0 <= i < len && At(s, i) < 0x80 as char then -1
    else if EncodedLen(Unichar(s)) != len || !ValidRange(Unichar(s)) then -1
    else len
  }

  // ---------- they agree ----------

  /** Decoding undoes encoding, whatever follows. */
  lemma DecodeOctets(cp: nat, rest: string)
    requires 0x80 <= cp < 0x11_0000
    ensures var s := Octets(cp) + rest; ExpectedLen(s[0]) == |Octets(cp)| == EncodedLen(cp) && Unichar(s) == cp
    ensures forall i :: 0 <= i < |Octets(cp)| ==> Octets(cp)[i] >= 0x80 as char
  {
    hide *;
    if cp < 0x800 {
      Decode2(cp, rest);
    } else if cp < 0x1_0000 {
      Decode3(cp, rest);
    } else {
      Decode4(cp, rest);
    }
  }

  lemma Decode2(cp: nat, rest: string)
    requires 0x80 <= cp < 0x800
    ensures var s := Octets(cp) + rest; ExpectedLen(s[0]) == |Octets(cp)| == EncodedLen(cp) && Unichar(s) == cp
    ensures forall i :: 0 <= i < |Octets(cp)| ==> Octets(cp)[i] >= 0x80 as char
  {
    hide Unichar;
    var s := Octets(cp) + rest;
    assert s[0] == Octets(cp)[0] && s[1] == Octets(cp)[1];
    Join2(0xc0 + cp / 64, 0x80 + cp % 64, cp);
    Unfold2(s);
  }

  lemma Decode3(cp: nat, rest: string)
    requires 0x800 <= cp < 0x1_0000
    ensures var s := Octets(cp) + rest; ExpectedLen(s[0]) == |Octets(cp)| == EncodedLen(cp) && Unichar(s) == cp
    ensures forall i :: 0 <= i < |Octets(cp)| ==> Octets(cp)[i] >= 0x80 as char
  {
    hide Unichar;
    var s := Octets(cp) + rest;
    assert s[0] == Octets(cp)[0] && s[1] == Octets(cp)[1] && s[2] == Octets(cp)[2];
    Bits3(cp);
    Unfold3(s);
  }

  lemma Decode4(cp: nat, rest: string)
    requires 0x1_0000 <= cp < 0x11_0000
    ensures var s := Octets(cp) + rest; ExpectedLen(s[0]) == |Octets(cp)| == EncodedLen(cp) && Unichar(s) == cp
    ensures forall i :: 0 <= i < |Octets(cp)| ==> Octets(cp)[i] >= 0x80 as char
  {
    hide Unichar;
    var s := Octets(cp) + rest;
    assert s[0] == Octets(cp)[0] && s[1] == Octets(cp)[1] && s[2] == Octets(cp)[2] && s[3] == Octets(cp)[3];
    Bits4(cp);
    Unfold4(s);
  }

  /** The bits of two octets make up the code point. */
  lemma Join2(a: nat, b: nat, u: nat)
    requires (0xc0 <= a < 0xe0 && b / 64 == 2 && u == a % 32 * 64 + b % 64) || (u < 0x800 && a == 0xc0 + u / 64
      && b == 0x80 + u % 64)
    ensures 0xc0 <= a < 0xe0 && b / 64 == 2 && u == a % 32 * 64 + b % 64 && a == 0xc0 + u / 64 && b == 0x80 + u % 64
  {
  }

  lemma Join3(a: nat, b: nat, c: nat, u: nat)
    requires 0xe0 <= a < 0xf0 && b / 64 == 2 && c / 64 == 2 && u == (a % 16 * 64 + b % 64) * 64 + c % 64
    ensures a == 0xe0 + u / 4096 && b == 0x80 + u / 64 % 64 && c == 0x80 + u % 64
  {
    Joined64(a - 0xe0, b - 0x80);
    Joined64(64 * (a - 0xe0) + (b - 0x80), c - 0x80);
    Split64(u);
  }

  lemma Bits3(u: nat)
    requires u < 0x1_0000
    ensures var a, b, c := 0xe0 + u / 4096, 0x80 + u / 64 % 64, 0x80 + u % 64;
      a < 0xf0 && b / 64 == 2 && c / 64 == 2 && u == (a % 16 * 64 + b % 64) * 64 + c % 64
  {
    Split64(u / 64);
    Split64(u);
  }

  lemma Split64(u: nat)
    ensures u == u / 64 * 64 + u % 64 && u / 64 / 64 == u / 4096 && u / 4096 / 64 == u / 262144
  {
  }

  lemma Joined64(q: nat, r: nat)
    requires r < 64
    ensures (64 * q + r) / 64 == q && (64 * q + r) % 64 == r
  {
  }

  lemma Join4(a: nat, b: nat, c: nat, d: nat, u: nat)
    requires 0xf0 <= a < 0xf8 && b / 64 == 2 && c / 64 == 2 && d / 64 == 2
      && u == ((a % 8 * 64 + b % 64) * 64 + c % 64) * 64 + d % 64
    ensures a == 0xf0 + u / 262144 && b == 0x80 + u / 4096 % 64 && c == 0x80 + u / 64 % 64 && d == 0x80 + u % 64
  {
    LowBits(b);
    LowBits(c);
    LowBits(d);
    assert a % 8 == a - 0xf0;
    var v := 64 * (a - 0xf0) + (b - 0x80);
    var w := 64 * v + (c - 0x80);
    assert u == 64 * w + (d - 0x80);
    Joined64(a - 0xf0, b - 0x80);
    Joined64(v, c - 0x80);
    Joined64(w, d - 0x80);
    Quarters(u, w, v, a - 0xf0);
  }

  lemma LowBits(b: nat)
    requires b / 64 == 2
    ensures b % 64 == b - 0x80
  {
  }

  lemma Quarters(u: nat, w: nat, v: nat, q: nat)
    requires u / 64 == w && w / 64 == v && v / 64 == q
    ensures u / 262144 == q && u / 4096 == v
  {
    Split64(u);
  }

  lemma Bits4(u: nat)
    requires u < 0x20_0000
    ensures var a, b, c, d := 0xf0 + u / 262144, 0x80 + u / 4096 % 64, 0x80 + u / 64 % 64, 0x80 + u % 64;
      a < 0xf8 && b / 64 == 2 && c / 64 == 2 && d / 64 == 2 && u == ((a % 8 * 64 + b % 64) * 64 + c % 64) * 64 + d % 64
  {
    var a, b, c, d := 0xf0 + u / 262144, 0x80 + u / 4096 % 64, 0x80 + u / 64 % 64, 0x80 + u % 64;
    Low64(u / 4096);
    Low64(u / 64);
    Low64(u);
    Split64(u);
    Split64(u / 4096);
    Split64(u / 64);
    assert a % 8 == u / 262144;
  }

  lemma Low64(u: nat)
    ensures (0x80 + u % 64) / 64 == 2 && (0x80 + u % 64) % 64 == u % 64
  {
  }

  lemma Unfold2(s: string)
    requires |s| >= 2 && ExpectedLen(s[0]) == 2
    ensures Unichar(s) == if s[1] as int / 64 != 2 then -1 else s[0] as int % 32 * 64 + s[1] as int % 64
  {
    assert Fold(LeadBits(s[0], 2), s, 1, 2) == if s[1] as int / 64 != 2 then -1
      else Fold(LeadBits(s[0], 2) * 64 + s[1] as int % 64, s, 2, 2);
  }

  lemma Unfold3(s: string)
    requires |s| >= 3 && ExpectedLen(s[0]) == 3
    ensures Unichar(s) == if s[1] as int / 64 != 2 || s[2] as int / 64 != 2 then -1
      else (s[0] as int % 16 * 64 + s[1] as int % 64) * 64 + s[2] as int % 64
  {
    var u := LeadBits(s[0], 3);
    var v := u * 64 + s[1] as int % 64;
    assert Fold(v, s, 2, 3) == if s[2] as int / 64 != 2 then -1 else Fold(v * 64 + s[2] as int % 64, s, 3, 3);
  }

  lemma Unfold4(s: string)
    requires |s| >= 4 && ExpectedLen(s[0]) == 4
    ensures Unichar(s) == if s[1] as int / 64 != 2 || s[2] as int / 64 != 2 || s[3] as int / 64 != 2 then -1
      else ((s[0] as int % 8 * 64 + s[1] as int % 64) * 64 + s[2] as int % 64) * 64 + s[3] as int % 64
  {
    var u := LeadBits(s[0], 4);
    var v := u * 64 + s[1] as int % 64;
    var w := v * 64 + s[2] as int % 64;
    assert Fold(w, s, 3, 4) == if s[3] as int / 64 != 2 then -1 else Fold(w * 64 + s[3] as int % 64, s, 4, 4);
    assert Fold(v, s, 2, 4) == if s[2] as int / 64 != 2 then -1 else Fold(w, s, 3, 4);
  }

  /** A length above one is returned exactly for the shortest form of an allowed code point. */
  lemma ValidIff(s: string, n: nat)
    requires s != "" && Bytes(s) && n > 1
    ensures ValidLen(s) == n <==> exists cp: nat :: Allowed(cp) && |Octets(cp)| == n && Octets(cp) <= s
  {
    if ValidLen(s) == n {
      ValidDecodes(s);
    }
    if cp: nat :| Allowed(cp) && |Octets(cp)| == n && Octets(cp) <= s {
      OctetsValid(cp, s);
    }
  }

  lemma OctetsValid(cp: nat, s: string)
    requires Allowed(cp) && Octets(cp) <= s
    ensures s != "" && ValidLen(s) == |Octets(cp)|
  {
    hide Octets, Unichar;
    DecodeOctets(cp, s[|Octets(cp)|..]);
    assert s == Octets(cp) + s[|Octets(cp)|..];
    assert forall i :: 0 <= i < |Octets(cp)| ==> At(s, i) == Octets(cp)[i];
  }

  lemma ValidDecodes(s: string)
    requires s != "" && Bytes(s) && ValidLen(s) > 1
    ensures var cp := Unichar(s); cp >= 0 && Allowed(cp) && |Octets(cp)| == ValidLen(s) && Octets(cp) <= s
  {
    var n := ValidLen(s);
    assert EncodedLen(Unichar(s)) == n && n <= 4;
    assert At(s, n - 1) >= 0x80 as char;
    assert |s| >= n;
    var u := Unichar(s);
    assert u >= 0x80;
    if n == 2 {
      Unfold2(s);
      hide Unichar;
      Join2(s[0] as int, s[1] as int, u);
      assert Octets(u) == s[..2];
    } else if n == 3 {
      Unfold3(s);
      hide Unichar;
      Join3(s[0] as int, s[1] as int, s[2] as int, u);
      assert Octets(u) == s[..3];
    } else {
      Unfold4(s);
      hide Unichar;
      Join4(s[0] as int, s[1] as int, s[2] as int, s[3] as int, u);
      assert Octets(u) == s[..4];
    }
  }
}
