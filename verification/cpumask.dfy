/** CPU masks (cpuset.c): hexadecimal digits, the highest CPUs first. */
module CpuMask {
  import opened Arith
  import opened CNumber
  import opened CacheText

  function Bit(b: bool, v: nat): nat { if b then v else 0 }

  /** The value of the four CPUs from 4 k on. */
  function Nibble(b: seq<bool>, k: nat): (v: nat)
    requires 4 * k + 4 <= |b|
    ensures v < 16
  {
    Bit(b[4 * k], 1) + Bit(b[4 * k + 1], 2) + Bit(b[4 * k + 2], 4) + Bit(b[4 * k + 3], 8)
  }

  /** The digits for the lowest `k` nibbles. */
  function MaskDigits(b: seq<bool>, k: nat): (s: string)
    requires 4 * k <= |b|
    ensures |s| == k
  {
    if k == 0 then "" else [DigitChar(Nibble(b, k - 1))] + MaskDigits(b, k - 1)
  }

  /** Without leading zeros, down to a single one. */
  function DropZeros(s: string): (r: string)
    ensures |r| <= |s| && (s != "" ==> r != "")
  {
    if |s| > 1 && s[0] == '0' then DropZeros(s[1..]) else s
  }

  // ---------- cpumask_create() ----------

  /** cpumask_create(): with room for every nibble, the mask without leading zeros, beginning at `ret`; less room cuts
      the digits off, and without a digit `ret` is the place before the buffer. `outside` when the NUL does not fit. */
  method CpuMaskCreate(str: array<char>, len: nat, cpus: array<bool>) returns (ret: int, ptr: nat, outside: bool)
    requires len <= str.Length && cpus.Length % 4 == 0
    modifies str
    ensures ptr == (if len < cpus.Length / 4 then len else cpus.Length / 4)
    ensures outside <==> len == str.Length && len <= cpus.Length / 4
    ensures !outside ==> ptr < str.Length && str[ptr] == '\0'
    ensures str[..ptr] == MaskDigits(cpus[..], cpus.Length / 4)[..ptr]
    ensures if ptr == 0 then ret == -1 else 0 <= ret < ptr
    ensures 0 < cpus.Length / 4 <= len ==> str[ret..ptr] == DropZeros(MaskDigits(cpus[..], cpus.Length / 4))
  {
    hide *;
    ghost var b, n := cpus[..], cpus.Length / 4;
    var cpu, found, at := cpus.Length - 4, false, 0;
    ptr := 0;
    MaskStart(b, n, str[..], len);
    while cpu >= 0
      invariant cpu == 4 * (n - ptr) - 4 && ptr <= n && ptr <= len && Masking(b, n, str[..], ptr, len, at, found)
      decreases cpu
    {
      if len == ptr {
        break;
      }
      NibbleHere(b, n, str[..], ptr, len, at, found);
      var val := Bit(cpus[cpu], 1) + Bit(cpus[cpu + 1], 2) + Bit(cpus[cpu + 2], 4) + Bit(cpus[cpu + 3], 8);
      ghost var was, at0, found0 := str[..], at, found;
      if !found && val > 0 {
        at, found := ptr, true;
      }
      str[ptr] := DigitChar(val);
      MaskNext(b, n, str[..], was, ptr, len, at0, found0, val);
      ptr := ptr + 1;
      cpu := cpu - 4;
    }
    MaskEnd(b, n, str[..], ptr, len, at, found);
    ghost var done := str[..ptr];
    outside := ptr == str.Length;
    if !outside {
      str[ptr] := '\0';
    }
    assert str[..ptr] == done;
    ret := if found then at else ptr - 1;
    assert 0 <= ret ==> str[ret..ptr] == done[ret..];
  }

  /** A buffer of one byte for four CPUs: the only digit fills it, and the NUL falls behind it. */
  method MaskOverrun() returns (outside: bool)
    ensures outside
  {
    var str, cpus := new char[1], new bool[4];
    var _, _, out := CpuMaskCreate(str, 1, cpus);
    outside := out;
  }

  /** The loop's invariant: `ptr` digits are written; `ret` is the first that is not zero, once there is one. */
  ghost predicate Masking(b: seq<bool>, n: nat, sb: seq<char>, ptr: nat, len: nat, ret: nat, found: bool) {
    && |b| == 4 * n && ptr <= n && ptr <= len <= |sb|
    && var all, rest := MaskDigits(b, n), MaskDigits(b, n - ptr);
    && sb[..ptr] + rest == all
    && (found ==> ret < ptr && DropZeros(all) == sb[ret..ptr] + rest)
    && (!found && ptr < n ==> DropZeros(all) == DropZeros(rest))
    && (!found && ptr == n > 0 ==> DropZeros(all) == "0" && sb[ptr - 1] == '0')
  }

  lemma MaskStart(b: seq<bool>, n: nat, sb: seq<char>, len: nat)
    requires |b| == 4 * n && len <= |sb|
    ensures Masking(b, n, sb, 0, len, 0, false)
  {
    assert sb[..0] + MaskDigits(b, n) == MaskDigits(b, n);
  }

  lemma NibbleHere(b: seq<bool>, n: nat, sb: seq<char>, ptr: nat, len: nat, ret: nat, found: bool)
    requires Masking(b, n, sb, ptr, len, ret, found) && ptr < n && ptr < len
    ensures ptr < |sb| && |b| == 4 * n
    ensures var cpu := 4 * (n - ptr) - 4;
      var val := Bit(b[cpu], 1) + Bit(b[cpu + 1], 2) + Bit(b[cpu + 2], 4) + Bit(b[cpu + 3], 8);
      val < 16 && val == Nibble(b, n - ptr - 1)
  {
  }

  lemma MaskNext(b: seq<bool>, n: nat, sb: seq<char>, was: seq<char>, ptr: nat, len: nat, ret: nat, found: bool,
      val: nat)
    requires Masking(b, n, was, ptr, len, ret, found) && ptr < n && ptr < len && val == Nibble(b, n - ptr - 1)
    requires sb == was[ptr := DigitChar(val)]
    ensures Masking(b, n, sb, ptr + 1, len, if !found && val > 0 then ptr else ret, found || val > 0)
  {
    hide Nibble, MaskDigits, DropZeros, DigitChar;
    DigitsNext(b, n - ptr, val);
    var c, rest := DigitChar(val), MaskDigits(b, n - ptr - 1);
    assert sb[..ptr + 1] == was[..ptr] + [c];
    Assoc(was[..ptr], [c], rest);
    if found {
      assert sb[ret..ptr + 1] == was[ret..ptr] + [c];
      Assoc(was[ret..ptr], [c], rest);
    } else if val > 0 {
      assert sb[ptr..ptr + 1] == [c];
    } else if ptr + 1 == n {
      NoDigits(b);
      assert [c] + "" == "0";
    }
  }

  lemma NoDigits(b: seq<bool>)
    ensures MaskDigits(b, 0) == ""
  {
  }

  lemma MaskEnd(b: seq<bool>, n: nat, sb: seq<char>, ptr: nat, len: nat, ret: nat, found: bool)
    requires Masking(b, n, sb, ptr, len, ret, found) && (ptr == n || ptr == len)
    ensures ptr <= |sb| && (found ==> ret < ptr) && sb[..ptr] == MaskDigits(b, n)[..ptr]
    ensures ptr == n > 0 ==> sb[if found then ret else ptr - 1..ptr] == DropZeros(MaskDigits(b, n))
  {
    NoDigits(b);
    hide MaskDigits, DropZeros;
    if ptr == n {
      assert sb[..ptr] + "" == sb[..ptr];
      if found { assert sb[ret..ptr] + "" == sb[ret..ptr]; }
    }
  }

  lemma DigitsNext(b: seq<bool>, k: nat, val: nat)
    requires 0 < k && 4 * k <= |b| && val == Nibble(b, k - 1)
    ensures MaskDigits(b, k) == [DigitChar(val)] + MaskDigits(b, k - 1)
    ensures DigitChar(val) == '0' <==> val == 0
    ensures if val == 0 && k > 1 then DropZeros(MaskDigits(b, k)) == DropZeros(MaskDigits(b, k - 1))
      else DropZeros(MaskDigits(b, k)) == MaskDigits(b, k)
  {
    assert ([DigitChar(val)] + MaskDigits(b, k - 1))[1..] == MaskDigits(b, k - 1);
  }

  // ---------- cpumask_parse() ----------

  /** Bad: a character that is no digit; Outside: a comma at the beginning makes it read before the text. */
  datatype Outcome = Parsed(cpus: set<nat>) | Bad | Outside

  /** The CPUs of one digit. */
  function DigitCpus(v: nat, cpu: nat): set<nat> {
    (if v % 2 == 1 then {cpu} else {}) + (if v / 2 % 2 == 1 then {cpu + 1} else {})
    + (if v / 4 % 2 == 1 then {cpu + 2} else {}) + (if v / 8 % 2 == 1 then {cpu + 3} else {})
  }

  /** The loop from place `p` down to `start`. */
  function ParseDown(str: string, start: nat, p: int, cpu: nat, acc: set<nat>): Outcome
    requires p < |str|
    decreases p + 1
  {
    if p < start then Parsed(acc)
    else
      var q := if str[p] == ',' then p - 1 else p;
      if q < 0 then Outside
      else if DigitVal(str[q]) >= 16 then Outcome.Bad
      else ParseDown(str, start, q - 1, cpu + 4, acc + DigitCpus(DigitVal(str[q]), cpu))
  }

  function ParseMask(str: string): Outcome {
    ParseDown(str, if |str| > 1 && str[0] == '0' && str[1] == 'x' then 2 else 0, |str| - 1, 0, {})
  }

  ghost predicate Shows(b: seq<bool>, s: set<nat>) { forall i :: 0 <= i < |b| ==> (b[i] <==> i in s) }

  /** cpumask_parse() */
  method CpuMaskParse(str: string, cpus: array<bool>) returns (rc: int, outside: bool)
    modifies cpus
    ensures outside == ParseMask(str).Outside? && (!outside ==> rc == if ParseMask(str).Parsed? then 0 else -1)
    ensures ParseMask(str).Parsed? ==> Shows(cpus[..], ParseMask(str).cpus)
  {
    var ptr, cpu, start := |str| - 1, 0, 0;
    if |str| > 1 && str[0] == '0' && str[1] == 'x' {
      start := 2;
    }
    for i := 0 to cpus.Length
      invariant forall k :: 0 <= k < i ==> !cpus[k]
    {
      cpus[i] := false;
    }
    ghost var acc: set<nat> := {};
    while ptr >= start
      invariant -1 <= ptr < |str| && ParseDown(str, start, ptr, cpu, acc) == ParseMask(str) && Shows(cpus[..], acc)
      decreases ptr
    {
      if str[ptr] == ',' {
        ptr := ptr - 1;
      }
      if ptr < 0 {
        return 0, true;
      }
      var val := DigitVal(str[ptr]);
      if val >= 16 {
        return -1, false;
      }
      SetDigit(cpus, val, cpu, acc);
      acc := acc + DigitCpus(val, cpu);
      ptr, cpu := ptr - 1, cpu + 4;
    }
    return 0, false;
  }

  /** Four CPU_SET_S() calls; CPUs beyond the set are ignored. */
  method SetDigit(cpus: array<bool>, val: nat, cpu: nat, ghost acc: set<nat>)
    requires Shows(cpus[..], acc)
    modifies cpus
    ensures Shows(cpus[..], acc + DigitCpus(val, cpu))
  {
    if val % 2 == 1 && cpu < cpus.Length {
      cpus[cpu] := true;
    }
    if val / 2 % 2 == 1 && cpu + 1 < cpus.Length {
      cpus[cpu + 1] := true;
    }
    if val / 4 % 2 == 1 && cpu + 2 < cpus.Length {
      cpus[cpu + 2] := true;
    }
    if val / 8 % 2 == 1 && cpu + 3 < cpus.Length {
      cpus[cpu + 3] := true;
    }
  }

  // ---------- parsing undoes printing ----------

  lemma DigitBack(v: nat)
    requires v < 16
    ensures DigitVal(DigitChar(v)) == v && DigitChar(v) != ',' && DigitChar(v) != 'x'
  {
  }

  lemma NibbleCpus(b: seq<bool>, k: nat)
    requires 4 * k + 4 <= |b|
    ensures forall i :: i in DigitCpus(Nibble(b, k), 4 * k) <==> 4 * k <= i < 4 * k + 4 && b[i]
  {
    var v := Nibble(b, k);
    assert v % 2 == Bit(b[4 * k], 1);
    assert v / 2 % 2 == Bit(b[4 * k + 1], 1);
    assert v / 4 % 2 == Bit(b[4 * k + 2], 1);
    assert v / 8 % 2 == Bit(b[4 * k + 3], 1);
  }

  /** `s` shows the lowest |s| nibbles. */
  ghost predicate Digits4(b: seq<bool>, s: string) {
    4 * |s| <= |b| && forall p :: 0 <= p < |s| ==> s[p] == DigitChar(Nibble(b, |s| - 1 - p))
  }

  lemma {:induction false} MaskDigitsAre(b: seq<bool>, k: nat)
    requires 4 * k <= |b|
    ensures Digits4(b, MaskDigits(b, k))
  {
    if k > 0 { MaskDigitsAre(b, k - 1); }
  }

  /** What is dropped were zero nibbles. */
  lemma {:induction false} DropZerosAre(b: seq<bool>, s: string)
    requires Digits4(b, s) && s != ""
    ensures var r := DropZeros(s); Digits4(b, r) && forall k :: |r| <= k < |s| ==> Nibble(b, k) == 0
  {
    if |s| > 1 && s[0] == '0' {
      var t := s[1..];
      assert forall p :: 0 <= p < |t| ==> t[p] == s[p + 1];
      DropZerosAre(b, t);
      assert DigitChar(Nibble(b, |s| - 1)) == '0';
    }
  }

  /** The members of the nibbles from `lo` up to `hi`. */
  ghost predicate Adds(b: seq<bool>, acc: set<nat>, now: set<nat>, lo: nat, hi: nat) {
    4 * hi <= |b| && forall i :: i in now <==> i in acc || (4 * lo <= i < 4 * hi && b[i])
  }

  lemma {:induction false} DigitsParse(b: seq<bool>, s: string, p: int, acc: set<nat>)
    requires Digits4(b, s) && -1 <= p < |s|
    ensures var o := ParseDown(s, 0, p, 4 * (|s| - 1 - p), acc); o.Parsed? && Adds(b, acc, o.cpus, |s| - 1 - p, |s|)
    decreases p + 1
  {
    hide Nibble, DigitCpus, DigitVal, DigitChar, Digits4;
    DigitsFit(b, s);
    if p >= 0 {
      var k := |s| - 1 - p;
      var now := acc + DigitCpus(Nibble(b, k), 4 * k);
      DigitHere(b, s, p, acc);
      DigitsParse(b, s, p - 1, now);
    }
  }

  lemma DigitsFit(b: seq<bool>, s: string)
    requires Digits4(b, s)
    ensures 4 * |s| <= |b|
  {
  }

  lemma DigitHere(b: seq<bool>, s: string, p: int, acc: set<nat>)
    requires Digits4(b, s) && 0 <= p < |s|
    ensures var k := |s| - 1 - p;
      && s[p] != ',' && DigitVal(s[p]) == Nibble(b, k) < 16
      && Adds(b, acc, acc + DigitCpus(Nibble(b, k), 4 * k), k, k + 1)
  {
    hide Nibble, DigitCpus, DigitVal, DigitChar;
    var k := |s| - 1 - p;
    DigitBack(Nibble(b, k));
    NibbleCpus(b, k);
  }

  /** cpumask_parse() inverts cpumask_create() on every set, the empty one included. */
  lemma MaskRoundTrip(b: seq<bool>)
    requires |b| > 0 && |b| % 4 == 0
    ensures var o := ParseMask(DropZeros(MaskDigits(b, |b| / 4))); o.Parsed? && Shows(b, o.cpus)
  {
    hide *;
    var n := |b| / 4;
    var s := DropZeros(MaskDigits(b, n));
    MaskDigitsAre(b, n);
    DropZerosAre(b, MaskDigits(b, n));
    NoPrefix(b, s);
    DigitsParse(b, s, |s| - 1, {});
    AllThere(b, s, n, ParseMask(s));
  }

  lemma NoPrefix(b: seq<bool>, s: string)
    requires Digits4(b, s)
    ensures ParseMask(s) == ParseDown(s, 0, |s| - 1, 0, {})
  {
    hide ParseDown, DigitChar, Nibble;
    if |s| > 1 { DigitBack(Nibble(b, |s| - 2)); }
  }

  lemma AllThere(b: seq<bool>, s: string, n: nat, o: Outcome)
    requires |b| == 4 * n && |s| <= n && o.Parsed? && Adds(b, {}, o.cpus, 0, |s|)
    requires forall k :: |s| <= k < n ==> Nibble(b, k) == 0
    ensures Shows(b, o.cpus)
  {
    forall i | 0 <= i < |b| ensures b[i] <==> i in o.cpus {
      if i >= 4 * |s| {
        assert Nibble(b, i / 4) == 0;
        assert i == 4 * (i / 4) + i % 4;
      }
    }
  }

  // ---------- the number a mask is ----------

  /** The value of a hexadecimal text. */
  function HexValue(s: string): nat {
    if s == "" then 0 else DigitVal(s[0]) * Pow2(4 * (|s| - 1)) + HexValue(s[1..])
  }

  /** The number whose bits are the lowest `n` CPUs. */
  function BitsValue(b: seq<bool>, n: nat): nat
    requires n <= |b|
  {
    if n == 0 then 0 else BitsValue(b, n - 1) + if b[n - 1] then Pow2(n - 1) else 0
  }

  lemma {:induction false} DigitsValue(b: seq<bool>, k: nat)
    requires 4 * k <= |b|
    ensures HexValue(MaskDigits(b, k)) == BitsValue(b, 4 * k)
  {
    if k > 0 {
      var v, rest := Nibble(b, k - 1), MaskDigits(b, k - 1);
      DigitsValue(b, k - 1);
      DigitBack(v);
      assert ([DigitChar(v)] + rest)[1..] == rest;
      NibbleValue(b, k - 1);
    }
  }

  lemma NibbleValue(b: seq<bool>, k: nat)
    requires 4 * k + 4 <= |b|
    ensures BitsValue(b, 4 * k + 4) == BitsValue(b, 4 * k) + Nibble(b, k) * Pow2(4 * k)
  {
    var p, n := Pow2(4 * k), 4 * k;
    assert Pow2(n + 1) == 2 * p && Pow2(n + 2) == 4 * p && Pow2(n + 3) == 8 * p;
    hide Pow2, Bit;
    OneBit(b, n, 1, p);
    OneBit(b, n + 1, 2, p);
    OneBit(b, n + 2, 4, p);
    OneBit(b, n + 3, 8, p);
    hide BitsValue;
    FourTerms(Bit(b[n], 1), Bit(b[n + 1], 2), Bit(b[n + 2], 4), Bit(b[n + 3], 8), p);
  }

  lemma OneBit(b: seq<bool>, n: nat, v: nat, p: nat)
    requires n < |b| && Pow2(n) == v * p
    ensures BitsValue(b, n + 1) == BitsValue(b, n) + Bit(b[n], v) * p
  {
    hide Pow2;
  }

  lemma FourTerms(a: nat, b: nat, c: nat, d: nat, p: nat)
    ensures (a + b + c + d) * p == a * p + b * p + c * p + d * p
  {
  }

  lemma {:induction false} DropValue(s: string)
    ensures HexValue(DropZeros(s)) == HexValue(s)
  {
    if |s| > 1 && s[0] == '0' {
      DropValue(s[1..]);
      assert DigitVal('0') == 0;
    }
  }

  /** The mask is the hexadecimal number whose i-th bit is CPU i. */
  lemma MaskValue(b: seq<bool>)
    requires |b| % 4 == 0
    ensures HexValue(DropZeros(MaskDigits(b, |b| / 4))) == BitsValue(b, |b|)
  {
    DigitsValue(b, |b| / 4);
    DropValue(MaskDigits(b, |b| / 4));
  }

  // ---------- commas ----------

  function NoCommas(s: string): string {
    if s == "" then ""
    else NoCommas(s[..|s| - 1]) + if s[|s| - 1] == ',' then "" else [s[|s| - 1]]
  }

  /** Every comma follows a character that is none. */
  predicate Grouped(s: string) {
    forall i :: 0 <= i < |s| && s[i] == ',' ==> i > 0 && s[i - 1] != ','
  }

  /** The rest of the text below place `p` does not look at what is above it. */
  lemma {:induction false} ParseBelow(s: string, t: string, p: int, cpu: nat, acc: set<nat>)
    requires -1 <= p < |s| && p < |t| && s[..p + 1] == t[..p + 1]
    ensures ParseDown(s, 0, p, cpu, acc) == ParseDown(t, 0, p, cpu, acc)
    decreases p + 1
  {
    hide DigitCpus, DigitVal;
    if p >= 0 {
      assert s[p] == s[..p + 1][p] && t[p] == t[..p + 1][p];
      assert p > 0 ==> s[p - 1] == s[..p + 1][p - 1] && t[p - 1] == t[..p + 1][p - 1];
      var q := if s[p] == ',' then p - 1 else p;
      if q >= 0 && DigitVal(s[q]) < 16 {
        assert s[..q] == s[..p + 1][..q] && t[..q] == t[..p + 1][..q];
        ParseBelow(s, t, q - 1, cpu + 4, acc + DigitCpus(DigitVal(s[q]), cpu));
      }
    }
  }

  /** Commas between the digits do not matter. */
  lemma {:induction false} CommasIgnored(s: string, cpu: nat, acc: set<nat>)
    requires Grouped(s)
    ensures ParseDown(s, 0, |s| - 1, cpu, acc) == ParseDown(NoCommas(s), 0, |NoCommas(s)| - 1, cpu, acc)
    decreases |s|
  {
    hide DigitCpus, DigitVal;
    if s != "" {
      var p := |s| - 1;
      var q := if s[p] == ',' then p - 1 else p;
      var t := s[..q];
      assert Grouped(t);
      var u := NoCommas(s);
      CommaOrDigit(s, q);
      assert u[..|u| - 1] == NoCommas(t) && u[|u| - 1] == s[q] && s[q] != ',';
      if DigitVal(s[q]) < 16 {
        var now := acc + DigitCpus(DigitVal(s[q]), cpu);
        CommasIgnored(t, cpu + 4, now);
        ParseBelow(s, t, q - 1, cpu + 4, now);
        ParseBelow(u, NoCommas(t), |u| - 2, cpu + 4, now);
      }
    }
  }

  /** Nor does 0x in front of them. */
  lemma {:induction false} PrefixIgnored(s: string, p: int, cpu: nat, acc: set<nat>)
    requires Grouped(s) && -1 <= p < |s|
    ensures ParseDown("0x" + s, 2, p + 2, cpu, acc) == ParseDown(s, 0, p, cpu, acc)
    decreases p + 1
  {
    hide DigitCpus, DigitVal;
    var t := "0x" + s;
    if p >= 0 {
      assert t[p + 2] == s[p] && (p > 0 ==> t[p + 1] == s[p - 1]);
      var q := if s[p] == ',' then p - 1 else p;
      if DigitVal(s[q]) < 16 { PrefixIgnored(s, q - 1, cpu + 4, acc + DigitCpus(DigitVal(s[q]), cpu)); }
    }
  }

  /** A mask may be written with commas between its digits, and with 0x in front, and means the same. */
  lemma MaskSpelling(s: string)
    requires Grouped(s) && !("0x" <= s) && !("0x" <= NoCommas(s))
    ensures ParseMask(s) == ParseMask(NoCommas(s)) == ParseMask("0x" + s)
  {
    CommasIgnored(s, 0, {});
    PrefixIgnored(s, |s| - 1, 0, {});
    assert ("0x" + s)[0] == '0' && ("0x" + s)[1] == 'x';
    hide ParseDown, NoCommas;
    assert forall t: string :: "0x" <= t <==> |t| > 1 && t[0] == '0' && t[1] == 'x';
  }

  lemma CommaOrDigit(s: string, q: int)
    requires s != "" && Grouped(s) && q == if s[|s| - 1] == ',' then |s| - 2 else |s| - 1
    ensures 0 <= q && s[q] != ',' && NoCommas(s) == NoCommas(s[..q]) + [s[q]]
  {
    var p := |s| - 1;
    if s[p] == ',' {
      assert s[p - 1] != ',';
      assert s[..p][..p - 1] == s[..q] && s[..p][p - 1] == s[q];
      assert NoCommas(s[..p]) + "" == NoCommas(s[..p]);
    }
  }
}
