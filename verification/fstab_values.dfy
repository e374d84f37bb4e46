/** What the values in the fs_mgr column of an fstab entry are (parse_flags() of fs_mgr.c): the last word of each kind
    decides. */
module FstabValues {
  import opened Wrappers
  import opened CNumber
  import opened CacheText
  import opened Fstab
  import opened FstabWords

  /** The bit of the table entry a word is taken for; 0 when there is none. */
  function BitOf(p: string): int {
    match FindFlag(p, FS_MGR_FLAGS)
    case None => 0
    case Some(flag) => flag.bit
  }

  /** The word changes the values of that bit: a voldmanaged= without a colon is malformed and changes nothing. */
  predicate Sets(p: string, bit: int) {
    BitOf(p) == bit && (bit == MF_VOLDMANAGED ==> First(p, ':') < |p|)
  }

  /** The values that belong to one bit are the same. */
  predicate SameFor(bit: int, u: Values, v: Values) {
    && (bit == MF_CRYPT ==> u.keyLoc == v.keyLoc) && (bit == MF_LENGTH ==> u.length == v.length)
    && (bit == MF_VOLDMANAGED ==> u.volume == v.volume && u.partnum == v.partnum)
    && (bit == MF_SWAPPRIO ==> u.swapPrio == v.swapPrio) && (bit == MF_ZRAMSIZE ==> u.zramSize == v.zramSize)
  }

  predicate Valued(bit: int) { bit in {MF_CRYPT, MF_LENGTH, MF_VOLDMANAGED, MF_SWAPPRIO, MF_ZRAMSIZE} }

  lemma OneWord(a: Parsed, p: string, bit: int)
    requires Valued(bit)
    ensures var v := ParseFlag(a, p, FS_MGR_FLAGS, true).values;
      if Sets(p, bit) then SameFor(bit, v, WithValue(NO_VALUES, bit, p)) else SameFor(bit, v, a.values)
  {
    hide FindFlag, AfterEquals, StrToL, Signed32;
  }

  lemma {:induction false} NoWordSets(a: Parsed, ts: seq<string>, bit: int)
    requires Valued(bit) && forall j :: 0 <= j < |ts| ==> !Sets(ts[j], bit)
    ensures SameFor(bit, ParseTokens(a, ts, FS_MGR_FLAGS, true).values, a.values)
    decreases |ts|
  {
    hide Sets, ParseFlag;
    if ts != [] {
      OneWord(a, ts[0], bit);
      assert forall j :: 0 <= j < |ts| - 1 ==> ts[1..][j] == ts[j + 1];
      NoWordSets(ParseFlag(a, ts[0], FS_MGR_FLAGS, true), ts[1..], bit);
    }
  }

  /** The last word that sets the values of a bit decides. */
  lemma {:induction false} LastWordSets(a: Parsed, ts: seq<string>, k: nat, bit: int)
    requires Valued(bit) && k < |ts| && Sets(ts[k], bit) && forall j :: k < j < |ts| ==> !Sets(ts[j], bit)
    ensures SameFor(bit, ParseTokens(a, ts, FS_MGR_FLAGS, true).values, WithValue(NO_VALUES, bit, ts[k]))
    decreases |ts|
  {
    hide Sets, ParseFlag, WithValue;
    var b := ParseFlag(a, ts[0], FS_MGR_FLAGS, true);
    assert forall j :: 0 <= j < |ts| - 1 ==> ts[1..][j] == ts[j + 1];
    if k == 0 {
      OneWord(a, ts[0], bit);
      NoWordSets(b, ts[1..], bit);
    } else {
      LastWordSets(b, ts[1..], k - 1, bit);
    }
  }

  ghost function ValuesOf(text: string): Values { Flags(text, FS_MGR_FLAGS, true).values }

  lemma DecidedBy(text: string, k: nat, bit: int)
    requires var ts := Tokens(text, ",");
      Valued(bit) && k < |ts| && Sets(ts[k], bit) && forall j :: k < j < |ts| ==> !Sets(ts[j], bit)
    ensures SameFor(bit, ValuesOf(text), WithValue(NO_VALUES, bit, Tokens(text, ",")[k]))
  {
    hide Tokens, Sets, WithValue;
    LastWordSets(Parsed({}, "", NO_VALUES), Tokens(text, ","), k, bit);
    TrimmedValues(ParseTokens(Parsed({}, "", NO_VALUES), Tokens(text, ","), FS_MGR_FLAGS, true));
  }

  lemma TrimmedValues(a: Parsed)
    ensures Trimmed(a).values == a.values
  {
  }

  // ---------- which words set what ----------

  /** The name that stands for a bit with a value. */
  function NameOf(bit: int): string
    requires Valued(bit)
  {
    if bit == MF_CRYPT then "encryptable="
    else if bit == MF_LENGTH then "length="
    else if bit == MF_VOLDMANAGED then "voldmanaged="
    else if bit == MF_SWAPPRIO then "swapprio="
    else "zramsize="
  }

  lemma NamesBegin(p: string, bit: int)
    requires Valued(bit)
    ensures Begun(p, FS_MGR_FLAGS, bit) <==> NameOf(bit) <= p
  {
    var k := if bit == MF_CRYPT then 2 else if bit == MF_LENGTH then 5 else if bit == MF_VOLDMANAGED then 4
      else if bit == MF_SWAPPRIO then 7 else 8;
    assert FS_MGR_FLAGS[k].name == NameOf(bit) && FS_MGR_FLAGS[k].bit == bit;
    assert forall j :: 0 <= j < 13 && FS_MGR_FLAGS[j].bit == bit ==> j == k;
  }

  lemma SetsIff(p: string, bit: int)
    requires Valued(bit)
    ensures Sets(p, bit) <==> NameOf(bit) <= p && (bit == MF_VOLDMANAGED ==> First(p, ':') < |p|)
  {
    NamesBegin(p, bit);
    assert bit != 0;
    hide FindFlag, NameOf;
    MgrPrefixFree();
    BearsIff(p, FS_MGR_FLAGS, bit);
    BearsBegun(p, FS_MGR_FLAGS, bit);
  }

  /** No later word of the column begins with that name. */
  predicate LastOfKind(ts: seq<string>, k: nat, name: string) {
    k < |ts| && name <= ts[k] && forall j :: k < j < |ts| ==> !(name <= ts[j])
  }

  /** What stands behind the equals sign. */
  lemma {:induction false} EqualsAt(name: string, v: string)
    requires name != "" && name[|name| - 1] == '=' && forall i :: 0 <= i < |name| - 1 ==> name[i] != '='
    ensures First(name + v, '=') == |name| - 1 && AfterEquals(name + v) == v
  {
    var p := name + v;
    var k := First(p, '=');
    assert p[|name| - 1] == '=' && forall i :: 0 <= i < |name| - 1 ==> p[i] == name[i];
    assert p[|name|..] == v;
  }

  lemma NameEnds(bit: int)
    requires Valued(bit)
    ensures var n := NameOf(bit); n != "" && n[|n| - 1] == '=' && forall i :: 0 <= i < |n| - 1 ==> n[i] != '='
  {
  }

  lemma LongBack(i: int)
    requires -TWO63 <= i < TWO63
    ensures StrToL(Dec(i)) == i
  {
    hide Read, Dec;
    DecReads(i, "");
    assert Dec(i) + "" == Dec(i);
  }

  /** The last word of a kind, by its name. */
  lemma ByName(text: string, k: nat, bit: int, v: string)
    requires Valued(bit) && bit != MF_VOLDMANAGED && LastOfKind(Tokens(text, ","), k, NameOf(bit))
    requires Tokens(text, ",")[k] == NameOf(bit) + v
    ensures SameFor(bit, ValuesOf(text), WithValue(NO_VALUES, bit, NameOf(bit) + v))
    ensures AfterEquals(NameOf(bit) + v) == v
  {
    hide Tokens, ValuesOf, Sets, WithValue, NameOf;
    var ts := Tokens(text, ",");
    forall j | k <= j < |ts| ensures Sets(ts[j], bit) <==> NameOf(bit) <= ts[j] { SetsIff(ts[j], bit); }
    DecidedBy(text, k, bit);
    NameEnds(bit);
    EqualsAt(NameOf(bit), v);
  }

  // ---------- the values ----------

  /** length=N: a 64-bit number. */
  lemma LengthIs(text: string, k: nat, n: int)
    requires LastOfKind(Tokens(text, ","), k, "length=") && Tokens(text, ",")[k] == "length=" + Dec(n)
    requires -TWO63 <= n < TWO63
    ensures ValuesOf(text).length == n
  {
    assert NameOf(MF_LENGTH) == "length=" && Valued(MF_LENGTH);
    hide Tokens, ValuesOf, NameOf, Dec;
    ByName(text, k, MF_LENGTH, Dec(n));
    LongBack(n);
  }

  /** encryptable=LOCATION */
  lemma KeyLocationIs(text: string, k: nat, v: string)
    requires LastOfKind(Tokens(text, ","), k, "encryptable=") && Tokens(text, ",")[k] == "encryptable=" + v
    ensures ValuesOf(text).keyLoc == Some(v)
  {
    assert NameOf(MF_CRYPT) == "encryptable=" && Valued(MF_CRYPT);
    hide Tokens, ValuesOf, NameOf;
    ByName(text, k, MF_CRYPT, v);
  }

  /** swapprio=N */
  lemma SwapPriorityIs(text: string, k: nat, n: int)
    requires LastOfKind(Tokens(text, ","), k, "swapprio=") && Tokens(text, ",")[k] == "swapprio=" + Dec(n)
    requires -TWO31 <= n < TWO31
    ensures ValuesOf(text).swapPrio == n
  {
    assert NameOf(MF_SWAPPRIO) == "swapprio=" && Valued(MF_SWAPPRIO);
    hide Tokens, ValuesOf, NameOf, Dec;
    ByName(text, k, MF_SWAPPRIO, Dec(n));
    IntBack(n);
  }

  /** zramsize=N: an unsigned number. */
  lemma ZramSizeIs(text: string, k: nat, n: nat)
    requires LastOfKind(Tokens(text, ","), k, "zramsize=") && Tokens(text, ",")[k] == "zramsize=" + Dec(n)
    requires n < TWO32
    ensures ValuesOf(text).zramSize == n
  {
    assert NameOf(MF_ZRAMSIZE) == "zramsize=" && Valued(MF_ZRAMSIZE);
    hide Tokens, ValuesOf, NameOf, Dec;
    ByName(text, k, MF_ZRAMSIZE, Dec(n));
    LongBack(n);
    Unwrapped(n);
    hide StrToL;
  }

  lemma Unwrapped(n: nat)
    requires n < TWO32
    ensures n % TWO32 == n
  {
  }

  /** No later voldmanaged= has a colon. */
  predicate LastVolume(ts: seq<string>, k: nat) {
    k < |ts| && forall j :: k < j < |ts| ==> !("voldmanaged=" <= ts[j]) || First(ts[j], ':') == |ts[j]|
  }

  /** voldmanaged=LABEL:PARTITION, where auto is partition -1. */
  lemma VolumeIs(text: string, k: nat, l: string, part: string)
    requires LastVolume(Tokens(text, ","), k) && NoChar(l, ':')
    requires Tokens(text, ",")[k] == "voldmanaged=" + (l + ([':'] + part))
    ensures ValuesOf(text).volume == Some(l)
    ensures part == "auto" ==> ValuesOf(text).partnum == -1
    ensures forall n :: part == Dec(n) && -TWO31 <= n < TWO31 ==> ValuesOf(text).partnum == n
  {
    var p := "voldmanaged=" + (l + ([':'] + part));
    assert NameOf(MF_VOLDMANAGED) == "voldmanaged=" && Valued(MF_VOLDMANAGED);
    VolumeSplit(l, part);
    var ts := Tokens(text, ",");
    hide Tokens, ValuesOf, NameOf, Dec, Sets, Signed32, StrToL;
    forall j | k <= j < |ts|
      ensures Sets(ts[j], MF_VOLDMANAGED) <==> "voldmanaged=" <= ts[j] && First(ts[j], ':') < |ts[j]|
    {
      SetsIff(ts[j], MF_VOLDMANAGED);
    }
    DecidedBy(text, k, MF_VOLDMANAGED);
    forall n | part == Dec(n) && -TWO31 <= n < TWO31 ensures ValuesOf(text).partnum == n {
      IntBack(n);
      DecNotAuto(n);
    }
  }

  lemma VolumeSplit(l: string, part: string)
    requires NoChar(l, ':')
    ensures var p := "voldmanaged=" + (l + ([':'] + part));
      var e, c := First(p, '='), First(p, ':');
      e == 11 && c == 12 + |l| && c < |p| && p[e + 1..c] == l && p[c + 1..] == part
  {
    var p := "voldmanaged=" + (l + ([':'] + part));
    EqualsAt("voldmanaged=", l + ([':'] + part));
    hide AfterEquals;
    assert forall i :: 12 <= i < 12 + |l| ==> p[i] == l[i - 12];
    assert p[12 + |l|] == ':';
    assert First(p, ':') == 12 + |l|;
    assert p[12..12 + |l|] == l && p[13 + |l|..] == part;
  }

  lemma DecNotAuto(n: int)
    ensures Dec(n) != "auto"
  {
    DecIs(n);
    FirstDigit(if n < 0 then -n else n, 10);
    assert DigitVal('a') >= 10;
    hide Digits, DigitVal;
    assert "auto"[0] == 'a';
  }

  /** Without a word of a kind the value is the one that stands for its absence. */
  lemma DefaultValues(text: string)
    ensures var v := ValuesOf(text);
      && ((forall w :: Word(text, ",", w) ==> !("length=" <= w)) ==> v.length == 0)
      && ((forall w :: Word(text, ",", w) ==> !("encryptable=" <= w)) ==> v.keyLoc == None)
      && ((forall w :: Word(text, ",", w) ==> !("swapprio=" <= w)) ==> v.swapPrio == -1)
      && ((forall w :: Word(text, ",", w) ==> !("zramsize=" <= w)) ==> v.zramSize == 0)
      && ((forall w :: Word(text, ",", w) ==> !("voldmanaged=" <= w)) ==> v.volume == None && v.partnum == -1)
  {
    if forall w :: Word(text, ",", w) ==> !("length=" <= w) { DefaultOf(text, MF_LENGTH); }
    if forall w :: Word(text, ",", w) ==> !("encryptable=" <= w) { DefaultOf(text, MF_CRYPT); }
    if forall w :: Word(text, ",", w) ==> !("swapprio=" <= w) { DefaultOf(text, MF_SWAPPRIO); }
    if forall w :: Word(text, ",", w) ==> !("zramsize=" <= w) { DefaultOf(text, MF_ZRAMSIZE); }
    if forall w :: Word(text, ",", w) ==> !("voldmanaged=" <= w) { DefaultOf(text, MF_VOLDMANAGED); }
    hide ValuesOf, Word;
  }

  lemma DefaultOf(text: string, bit: int)
    requires Valued(bit) && forall w :: Word(text, ",", w) ==> !(NameOf(bit) <= w)
    ensures SameFor(bit, ValuesOf(text), NO_VALUES)
  {
    hide Tokens, Sets, NameOf, Word;
    var ts := Tokens(text, ",");
    forall j | 0 <= j < |ts| ensures !Sets(ts[j], bit) {
      TokenIff(text, ",", ts[j]);
      SetsIff(ts[j], bit);
    }
    NoWordSets(Parsed({}, "", NO_VALUES), ts, bit);
    TrimmedValues(ParseTokens(Parsed({}, "", NO_VALUES), ts, FS_MGR_FLAGS, true));
  }
}
