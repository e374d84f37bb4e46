/** Number text as the C library writes and reads it: printf's %d, %ld, %04lx and %x, and strtoull()/strtol() with
    base 0 on 64-bit longs. */
module CNumber {

  const TWO31: int := 0x8000_0000
  const TWO32: int := 0x1_0000_0000
  const TWO63: int := 0x8000_0000_0000_0000
  const TWO64: int := 0x1_0000_0000_0000_0000

  /** isspace() in the C locale. */
  predicate IsSpace(c: char) {
    c == ' ' || '\t' <= c <= '\r'
  }

  function SkipBlank(s: string): (r: string)
    ensures |r| <= |s|
  {
    if s != "" && IsSpace(s[0]) then SkipBlank(s[1..]) else s
  }

  function DigitChar(d: nat): char
    requires d < 16
  {
    if d < 10 then ('0' as int + d) as char else ('a' as int + d - 10) as char
  }

  /** The value of a digit; 99 when it is none. */
  function DigitVal(c: char): nat {
    if '0' <= c <= '9' then c as int - '0' as int
    else if 'a' <= c <= 'f' then c as int - 'a' as int + 10
    else if 'A' <= c <= 'F' then c as int - 'A' as int + 10
    else 99
  }

  /** Bases that are printed. */
  predicate Printed(base: nat) { base == 10 || base == 16 }

  function Div(n: nat, base: nat): (q: nat)
    requires Printed(base)
    ensures base * q <= n < base * q + base && (n > 0 ==> q < n) && (n >= base ==> q > 0)
  {
    if base == 10 then n / 10 else n / 16
  }

  function Digits(n: nat, base: nat): (r: string)
    requires Printed(base)
    ensures r != ""
  {
    if n < base then [DigitChar(n)] else Digits(Div(n, base), base) + [DigitChar(n - base * Div(n, base))]
  }

  function Dec(i: int): string {
    if i < 0 then "-" + Digits(-i, 10) else Digits(i, 10)
  }

  function PadZeros(s: string, width: nat): (r: string)
    decreases width - |s|
  {
    if |s| < width then PadZeros("0" + s, width) else s
  }

  /** Reads digits onto `acc`, up to the first character that is none. */
  function Scan(s: string, base: nat, acc: nat): (r: (nat, string))
    ensures |r.1| <= |s|
  {
    if s != "" && DigitVal(s[0]) < base then Scan(s[1..], base, acc * base + DigitVal(s[0])) else (acc, s)
  }

  /** The unsigned number at the head of `s`, whose base its prefix tells. */
  function Magnitude(s: string): (nat, string) {
    if |s| >= 3 && s[0] == '0' && (s[1] == 'x' || s[1] == 'X') && DigitVal(s[2]) < 16 then Scan(s[2..], 16, 0)
    else if s != "" && s[0] == '0' then Scan(s, 8, 0)
    else Scan(s, 10, 0)
  }

  datatype Num = NoNum | Num(neg: bool, magnitude: nat, rest: string)

  function Read(s: string): Num {
    var t := SkipBlank(s);
    var u := if t != "" && (t[0] == '-' || t[0] == '+') then t[1..] else t;
    if u == "" || DigitVal(u[0]) >= 10 then NoNum
    else Num(t[0] == '-', Magnitude(u).0, Magnitude(u).1)
  }

  /** strtoull(s, &end, 0): the value, and the text at `end`. */
  function StrToULL(s: string): (r: (int, string))
    ensures 0 <= r.0 < TWO64
  {
    match Read(s)
    case NoNum => (0, s)
    case Num(neg, m, rest) => (if m >= TWO64 then TWO64 - 1 else if neg && m > 0 then TWO64 - m else m, rest)
  }

  /** strtol(s, NULL, 0) */
  function StrToL(s: string): (r: int)
    ensures -TWO63 <= r < TWO63
  {
    match Read(s)
    case NoNum => 0
    case Num(neg, m, _) => if neg then (if m > TWO63 then -TWO63 else 0 - m) else if m >= TWO63 then TWO63 - 1 else m
  }

  /** Assignment of an unsigned long long to a signed 64-bit field. */
  function Signed64(v: int): int { if v >= TWO63 then v - TWO64 else v }

  /** Assignment of a long to an int. */
  function Signed32(v: int): int { var m := v % TWO32; if m >= TWO31 then m - TWO32 else m }

  // ---------- what is written reads back ----------

  ghost predicate NoDigit(t: string, base: nat) { t == "" || DigitVal(t[0]) >= base }

  lemma {:induction false} ScanDigits(n: nat, base: nat, t: string)
    requires Printed(base)
    ensures Scan(Digits(n, base) + t, base, 0) == Scan(t, base, n)
  {
    if n < base {
      assert ([DigitChar(n)] + t)[1..] == t;
    } else {
      var q := Div(n, base);
      var d := DigitChar(n - base * q);
      ScanDigits(q, base, [d] + t);
      assert Digits(n, base) + t == Digits(q, base) + ([d] + t);
      assert ([d] + t)[1..] == t;
    }
  }

  lemma ScanStops(base: nat, acc: nat, t: string)
    requires NoDigit(t, base)
    ensures Scan(t, base, acc) == (acc, t)
  {
  }

  lemma {:induction false} FirstDigit(n: nat, base: nat)
    requires Printed(base)
    ensures DigitVal(Digits(n, base)[0]) < base && (Digits(n, base)[0] == '0' <==> n == 0)
    ensures !IsSpace(Digits(n, base)[0]) && Digits(n, base)[0] !in "+-"
  {
    if n >= base { FirstDigit(Div(n, base), base); }
  }

  lemma DigitsRead(n: nat, t: string)
    requires t == "" || t[0] == '.'
    ensures var u := Digits(n, 10) + t;
      Magnitude(u) == (n, t) && DigitVal(u[0]) < 10 && !IsSpace(u[0]) && u[0] != '+' && u[0] != '-'
  {
    var u := Digits(n, 10) + t;
    FirstDigit(n, 10);
    assert u[0] == Digits(n, 10)[0];
    if n == 0 {
      assert u == ['0'] + t && u[1..] == t;
      ScanStops(8, 0, t);
    } else {
      ScanDigits(n, 10, t);
      ScanStops(10, n, t);
    }
  }

  lemma ReadSigned(u: string)
    requires u != "" && DigitVal(u[0]) < 10 && !IsSpace(u[0]) && u[0] != '+' && u[0] != '-'
    ensures Read(u) == Num(false, Magnitude(u).0, Magnitude(u).1)
    ensures Read(['-'] + u) == Num(true, Magnitude(u).0, Magnitude(u).1)
  {
    hide Magnitude, DigitVal;
    assert (['-'] + u)[1..] == u;
    assert SkipBlank(['-'] + u) == ['-'] + u && SkipBlank(u) == u;
  }

  /** A decimal number followed by something else reads as itself. */
  lemma DecReads(i: int, t: string)
    requires t == "" || t[0] == '.'
    ensures Read(Dec(i) + t) == Num(i < 0, if i < 0 then -i else i, t)
  {
    hide Digits, Dec, Read, Magnitude, DigitVal, SkipBlank, IsSpace;
    var n := if i < 0 then -i else i;
    DecIs(i);
    DigitsRead(n, t);
    ReadSigned(Digits(n, 10) + t);
    assert i < 0 ==> Dec(i) + t == ['-'] + (Digits(n, 10) + t);
  }

  lemma DecIs(i: int)
    ensures Dec(i) == if i < 0 then ['-'] + Digits(-i, 10) else Digits(i, 10)
  {
  }

  lemma DecBack(i: int, t: string)
    requires -TWO63 <= i < TWO63 && (t == "" || t[0] == '.')
    ensures Signed64(StrToULL(Dec(i) + t).0) == i && StrToULL(Dec(i) + t).1 == t
  {
    hide Read, Dec, Digits;
    DecReads(i, t);
    assert Read(Dec(i) + t).Num?;
  }

  lemma StrToLOf(s: string, neg: bool, m: nat, rest: string)
    requires Read(s) == Num(neg, m, rest) && m <= TWO31
    ensures StrToL(s) == if neg then 0 - m else m
  {
  }

  lemma Fits32(i: int)
    requires -TWO31 <= i < TWO31
    ensures Signed32(i) == i
  {
  }

  lemma IntBack(i: int)
    requires -TWO31 <= i < TWO31
    ensures Signed32(StrToL(Dec(i))) == i
  {
    hide *;
    DecReads(i, "");
    assert Dec(i) + "" == Dec(i);
    StrToLOf(Dec(i), i < 0, if i < 0 then -i else i, "");
    Fits32(i);
  }

  lemma {:induction false} PadScan(s: string, width: nat, base: nat)
    requires s != "" && Printed(base) && DigitVal(s[0]) < 16
    ensures Scan(PadZeros(s, width), base, 0) == Scan(s, base, 0)
    ensures PadZeros(s, width) != "" && DigitVal(PadZeros(s, width)[0]) < 16
    decreases width - |s|
  {
    if |s| < width {
      assert ("0" + s)[1..] == s;
      PadScan("0" + s, width, base);
    }
  }

  /** "0x%04lx" */
  function Hex4(n: nat): string { "0x" + PadZeros(Digits(n, 16), 4) }

  lemma HexBack(n: nat)
    requires n < TWO64
    ensures StrToULL(Hex4(n)).0 == n
  {
    hide Digits, Scan, PadZeros;
    FirstDigit(n, 16);
    PadScan(Digits(n, 16), 4, 16);
    ScanDigits(n, 16, "");
    assert Digits(n, 16) + "" == Digits(n, 16);
    var p := PadZeros(Digits(n, 16), 4);
    assert Hex4(n) == ['0', 'x'] + p;
    assert Hex4(n)[2..] == p && Hex4(n)[2] == p[0];
    assert SkipBlank(Hex4(n)) == Hex4(n);
    ScanStops(16, n, "");
  }

  /** Numbers hold no quote, backslash, equals sign or angle bracket. */
  ghost predicate Plain(s: string) {
    forall i :: 0 <= i < |s| ==> s[i] == '-' || s[i] == 'x' || s[i] == '.' || DigitVal(s[i]) < 16
  }

  lemma {:induction false} DigitsPlain(n: nat, base: nat)
    requires Printed(base)
    ensures Plain(Digits(n, base))
  {
    if n >= base { DigitsPlain(Div(n, base), base); }
  }

  lemma {:induction false} PadPlain(s: string, width: nat)
    requires Plain(s)
    ensures Plain(PadZeros(s, width))
    decreases width - |s|
  {
    if |s| < width { PadPlain("0" + s, width); }
  }

  lemma NumbersPlain(i: int, n: nat)
    ensures Plain(Dec(i)) && Plain(Hex4(n))
  {
    DigitsPlain(if i < 0 then -i else i, 10);
    DigitsPlain(n, 16);
    PadPlain(Digits(n, 16), 4);
  }
}
