/** What the words of a flag list do (parse_flags() of fs_mgr.c), stated without its loop. */
module FstabWords {
  import opened Wrappers
  import opened Fstab

  // ---------- the words of a text ----------

  /** s[i..j] is a word: not empty, without a delimiter, and as long as it can be. */
  predicate WordAt(s: string, delims: string, i: nat, j: nat) {
    && i < j <= |s| && (forall x :: i <= x < j ==> s[x] !in delims)
    && (i == 0 || s[i - 1] in delims) && (j == |s| || s[j] in delims)
  }

  ghost predicate Word(s: string, delims: string, w: string) {
    exists i: nat, j: nat :: WordAt(s, delims, i, j) && s[i..j] == w
  }

  /** Behind a delimiter, the words are those of the rest. */
  lemma WordBehind(s: string, delims: string, k: nat, w: string)
    requires k < |s| && s[k] in delims
    ensures Word(s, delims, w) <==> Word(s[..k], delims, w) || Word(s[k + 1..], delims, w)
  {
    if Word(s, delims, w) { WordSplit(s, delims, k, w); }
    if Word(s[..k], delims, w) { WordBefore(s, delims, k, w); }
    if Word(s[k + 1..], delims, w) { WordAfter(s, delims, k, w); }
  }

  lemma WordSplit(s: string, delims: string, k: nat, w: string)
    requires k < |s| && s[k] in delims && Word(s, delims, w)
    ensures Word(s[..k], delims, w) || Word(s[k + 1..], delims, w)
  {
    var i: nat, j: nat :| WordAt(s, delims, i, j) && s[i..j] == w;
    WordOneSide(s, delims, k, i, j);
    if j <= k {
      assert s[..k][i..j] == w;
    } else {
      assert s[k + 1..][i - k - 1..j - k - 1] == w;
    }
  }

  lemma WordBefore(s: string, delims: string, k: nat, w: string)
    requires k < |s| && s[k] in delims && Word(s[..k], delims, w)
    ensures Word(s, delims, w)
  {
    var i: nat, j: nat :| WordAt(s[..k], delims, i, j) && s[..k][i..j] == w;
    WordOneSide(s, delims, k, i, j);
    assert s[i..j] == w;
  }

  lemma WordAfter(s: string, delims: string, k: nat, w: string)
    requires k < |s| && s[k] in delims && Word(s[k + 1..], delims, w)
    ensures Word(s, delims, w)
  {
    var i: nat, j: nat :| WordAt(s[k + 1..], delims, i, j) && s[k + 1..][i..j] == w;
    WordOneSide(s, delims, k, i + k + 1, j + k + 1);
    assert s[i + k + 1..j + k + 1] == w;
  }

  lemma WordOneSide(s: string, delims: string, k: nat, i: nat, j: nat)
    requires k < |s| && s[k] in delims
    ensures i <= j <= k ==> s[..k][i..j] == s[i..j] && (WordAt(s, delims, i, j) <==> WordAt(s[..k], delims, i, j))
    ensures k < i <= j ==>
      && (WordAt(s, delims, i, j) <==> WordAt(s[k + 1..], delims, i - k - 1, j - k - 1))
      && (j <= |s| ==> s[k + 1..][i - k - 1..j - k - 1] == s[i..j])
    ensures WordAt(s, delims, i, j) ==> i <= j <= |s| && (j <= k || k < i)
  {
    if k < i <= j {
      var b := s[k + 1..];
      assert forall x :: 0 <= x < |b| ==> b[x] == s[x + k + 1];
      assert forall x :: k < x < |s| ==> s[x] == b[x - k - 1];
    }
  }

  lemma OnlyWord(s: string, delims: string, w: string)
    requires NoneOf(s, delims)
    ensures Word(s, delims, w) <==> s != "" && w == s
  {
    if s != "" { assert s[0..|s|] == s && WordAt(s, delims, 0, |s|); }
    if i: nat, j: nat :| WordAt(s, delims, i, j) && s[i..j] == w {
      assert i == 0 && j == |s|;
      assert s[0..|s|] == s;
    }
  }

  lemma {:induction false} SkipKeepsWords(s: string, delims: string, w: string)
    ensures Word(s, delims, w) <==> Word(SkipDelims(s, delims), delims, w)
  {
    if s != "" && s[0] in delims {
      WordBehind(s, delims, 0, w);
      OnlyWord(s[..0], delims, w);
      SkipKeepsWords(s[1..], delims, w);
    }
  }

  lemma StrtokWords(s: string, delims: string, w: string)
    ensures var t := Strtok(s, delims);
      Word(s, delims, w) <==> (t.0 != "" && w == t.0) || Word(t.1, delims, w)
    ensures Strtok(s, delims).0 == "" ==> Strtok(s, delims).1 == ""
  {
    var t := SkipDelims(s, delims);
    var n := TokenLen(t, delims);
    SkipKeepsWords(s, delims, w);
    OnlyWord(t[..n], delims, w);
    OnlyWord("", delims, w);
    if n < |t| {
      WordBehind(t, delims, n, w);
    } else {
      assert t[..n] == t;
    }
  }

  /** strtok_r() delivers the words of the text. */
  lemma {:induction false} TokenIff(s: string, delims: string, w: string)
    ensures w in Tokens(s, delims) <==> Word(s, delims, w)
    decreases |s|
  {
    StrtokWords(s, delims, w);
    var t := Strtok(s, delims);
    if t.0 == "" {
      OnlyWord("", delims, w);
    } else {
      TokenIff(t.1, delims, w);
    }
  }

  // ---------- the table ----------

  /** The k-th name is the first that begins the word. */
  predicate FirstPrefix(p: string, table: seq<Flag>, k: nat) {
    k < |table| && table[k].name <= p && forall j :: 0 <= j < k ==> !(table[j].name <= p)
  }

  predicate Foreign(p: string, table: seq<Flag>) {
    forall k :: 0 <= k < |table| ==> !(table[k].name <= p)
  }

  /** The first name that begins the word stands for this bit. */
  ghost predicate Bears(p: string, table: seq<Flag>, bit: int) {
    bit != 0 && exists k: nat :: FirstPrefix(p, table, k) && table[k].bit == bit
  }

  lemma {:induction false} FindIff(p: string, table: seq<Flag>)
    ensures FindFlag(p, table).None? <==> Foreign(p, table)
    ensures FindFlag(p, table).Some? ==>
      exists k: nat :: FirstPrefix(p, table, k) && FindFlag(p, table) == Some(table[k])
  {
    if table != [] && !(table[0].name <= p) {
      FindIff(p, table[1..]);
      if k: nat :| FirstPrefix(p, table[1..], k) && FindFlag(p, table[1..]) == Some(table[1..][k]) {
        assert forall j :: 1 <= j <= k ==> table[j] == table[1..][j - 1];
        assert FirstPrefix(p, table, k + 1);
      } else {
        assert forall j :: 1 <= j < |table| ==> table[j] == table[1..][j - 1];
      }
    } else if table != [] {
      assert FirstPrefix(p, table, 0);
    }
  }

  lemma BearsIff(p: string, table: seq<Flag>, bit: int)
    ensures Bears(p, table, bit) <==> bit != 0 && FindFlag(p, table).Some? && FindFlag(p, table).value.bit == bit
  {
    FindIff(p, table);
    if k: nat :| FirstPrefix(p, table, k) && table[k].bit == bit {
      FindAt(p, table, k);
    }
  }

  // ---------- bits ----------

  lemma {:induction false} TokensBits(a: Parsed, ts: seq<string>, table: seq<Flag>, values: bool, bit: int)
    ensures bit in ParseTokens(a, ts, table, values).bits <==>
      bit in a.bits || exists w :: w in ts && Bears(w, table, bit)
    decreases |ts|
  {
    if ts != [] {
      var b := ParseFlag(a, ts[0], table, values);
      BearsIff(ts[0], table, bit);
      assert bit in b.bits <==> bit in a.bits || Bears(ts[0], table, bit) by { hide FindFlag, Bears, WithValue; }
      TokensBits(b, ts[1..], table, values, bit);
      hide Bears, ParseFlag;
      assert forall w :: w in ts <==> w == ts[0] || w in ts[1..];
    }
  }

  /** A bit is set exactly when the first table name that begins some word of the text stands for it. */
  lemma FlagBitIff(text: string, table: seq<Flag>, values: bool, bit: int)
    ensures bit in Flags(text, table, values).bits <==> exists w :: Word(text, ",", w) && Bears(w, table, bit)
  {
    var ts := Tokens(text, ",");
    forall w ensures w in ts <==> Word(text, ",", w) { TokenIff(text, ",", w); }
    hide Tokens, Word, Bears, ParseTokens;
    TokensBits(Parsed({}, "", NO_VALUES), ts, table, values, bit);
    TrimmedBits(ParseTokens(Parsed({}, "", NO_VALUES), ts, table, values));
  }

  // ---------- options ----------

  function Unknown(ts: seq<string>, table: seq<Flag>): seq<string> {
    if ts == [] then []
    else (if FindFlag(ts[0], table).None? then [ts[0]] else []) + Unknown(ts[1..], table)
  }

  lemma {:induction false} UnknownIff(ts: seq<string>, table: seq<Flag>, w: string)
    ensures w in Unknown(ts, table) <==> w in ts && Foreign(w, table)
  {
    if ts != [] {
      FindIff(ts[0], table);
      UnknownIff(ts[1..], table, w);
      assert w in ts <==> w == ts[0] || w in ts[1..];
    }
  }

  /** Words, each followed by a comma. */
  function Listed(ts: seq<string>): string {
    if ts == [] then "" else ts[0] + ([','] + Listed(ts[1..]))
  }

  predicate Words(ts: seq<string>) {
    forall i :: 0 <= i < |ts| ==> ts[i] != "" && NoneOf(ts[i], ",")
  }

  lemma WordsParts(ts: seq<string>)
    requires Words(ts) && ts != []
    ensures ts[0] != "" && NoneOf(ts[0], ",") && Words(ts[1..])
  {
    assert forall i :: 0 <= i < |ts| - 1 ==> ts[1..][i] == ts[i + 1];
  }

  lemma {:induction false} TokensListed(ts: seq<string>)
    requires Words(ts) && ts != []
    ensures Listed(ts) != "" && Tokens(Listed(ts)[..|Listed(ts)| - 1], ",") == ts
  {
    hide *;
    var more := Listed(ts[1..]);
    WordsParts(ts);
    ListedParts(ts);
    if ts[1..] == [] {
      OneToken(ts[0]);
      assert [ts[0]] == ts;
    } else {
      TokensListed(ts[1..]);
      FirstOfTwo(ts[0], more[..|more| - 1]);
      assert [ts[0]] + ts[1..] == ts;
    }
  }

  lemma ListedParts(ts: seq<string>)
    requires ts != []
    ensures var s, more := Listed(ts), Listed(ts[1..]);
      && s != ""
      && (ts[1..] == [] ==> s[..|s| - 1] == ts[0])
      && (more != "" ==> s[..|s| - 1] == ts[0] + ([','] + more[..|more| - 1]))
  {
  }

  lemma FirstOfTwo(p: string, t: string)
    requires p != "" && NoneOf(p, ",")
    ensures Tokens(p + ([','] + t), ",") == [p] + Tokens(t, ",")
  {
    StrtokIs(p, ',', t, ",");
    hide Strtok;
  }

  lemma {:induction false} TokensOptions(a: Parsed, ts: seq<string>, table: seq<Flag>, values: bool)
    ensures ParseTokens(a, ts, table, values).options == a.options + Listed(Unknown(ts, table))
    decreases |ts|
  {
    if ts == [] {
      assert a.options + "" == a.options;
    } else {
      var b, us := ParseFlag(a, ts[0], table, values), Unknown(ts[1..], table);
      TokensOptions(b, ts[1..], table, values);
      if FindFlag(ts[0], table).None? {
        assert ([ts[0]] + us)[1..] == us;
        assert b.options + Listed(us) == a.options + (ts[0] + ([','] + Listed(us)));
      } else {
        assert [] + us == us;
      }
    }
  }

  lemma {:induction false} TokensAreWords(s: string)
    ensures Words(Tokens(s, ","))
    decreases |s|
  {
    var t := Strtok(s, ",");
    var u := SkipDelims(s, ",");
    assert t.0 == u[..TokenLen(u, ",")];
    if t.0 != "" { TokensAreWords(t.1); }
  }

  lemma {:induction false} UnknownWords(ts: seq<string>, table: seq<Flag>)
    requires Words(ts)
    ensures Words(Unknown(ts, table))
  {
    if ts != [] {
      WordsParts(ts);
      UnknownWords(ts[1..], table);
      hide FindFlag;
    }
  }

  /** The options left over are the words that no table name begins, in their order. */
  lemma OptionsAre(text: string, table: seq<Flag>, values: bool)
    ensures Tokens(Flags(text, table, values).options, ",") == Unknown(Tokens(text, ","), table)
  {
    var ts := Tokens(text, ",");
    var us := Unknown(ts, table);
    NoTokens();
    hide *;
    TokensOptions(Parsed({}, "", NO_VALUES), ts, table, values);
    TokensAreWords(text);
    UnknownWords(ts, table);
    OptionsTrimmed(text, table, values, us);
    if us != [] { TokensListed(us); }
  }

  lemma NoTokens()
    ensures Tokens("", ",") == []
  {
  }

  lemma OptionsTrimmed(text: string, table: seq<Flag>, values: bool, us: seq<string>)
    requires ParseTokens(Parsed({}, "", NO_VALUES), Tokens(text, ","), table, values).options == "" + Listed(us)
    ensures Flags(text, table, values).options ==
      if Listed(us) == "" then "" else Listed(us)[..|Listed(us)| - 1]
    ensures us == [] ==> Listed(us) == ""
  {
    hide ParseTokens, Tokens;
    assert "" + Listed(us) == Listed(us);
  }

  /** A word of the text is left over exactly when no table name begins it. */
  lemma WordKeptIff(text: string, table: seq<Flag>, values: bool, w: string)
    ensures Word(Flags(text, table, values).options, ",", w) <==> Word(text, ",", w) && Foreign(w, table)
  {
    hide *;
    OptionsAre(text, table, values);
    TokenIff(Flags(text, table, values).options, ",", w);
    TokenIff(text, ",", w);
    UnknownIff(Tokens(text, ","), table, w);
  }

  // ---------- the two tables ----------

  /** The strings differ within their first four characters. */
  predicate Apart(a: string, b: string) {
    || (|a| > 0 && |b| > 0 && a[0] != b[0])
    || (|a| > 1 && |b| > 1 && a[1] != b[1])
    || (|a| > 2 && |b| > 2 && a[2] != b[2])
    || (|a| > 3 && |b| > 3 && a[3] != b[3])
  }

  predicate PrefixFree(table: seq<Flag>) {
    forall i, j :: 0 <= i < j < |table| ==> Apart(table[i].name, table[j].name)
  }

  lemma MountPrefixFree()
    ensures PrefixFree(MOUNT_FLAGS)
  {
    hide *;
    MountFirsts();
    NNames();
    RAndSNames();
    FirstsApart(MOUNT_FLAGS, "nnnnnrrrbrupsssd");
  }

  predicate Firsts(table: seq<Flag>, firsts: string) {
    |firsts| == |table| && forall i :: 0 <= i < |table| ==> table[i].name != "" && table[i].name[0] == firsts[i]
  }

  /** Only names with the same first character need be compared further. */
  lemma FirstsApart(table: seq<Flag>, firsts: string)
    requires Firsts(table, firsts)
    requires forall i, j :: 0 <= i < j < |table| && firsts[i] == firsts[j] ==> Apart(table[i].name, table[j].name)
    ensures PrefixFree(table)
  {
  }

  lemma MountFirsts()
    ensures Firsts(MOUNT_FLAGS, "nnnnnrrrbrupsssd")
  {
  }

  lemma NNames()
    ensures forall i, j :: 0 <= i < j < 5 ==> Apart(MOUNT_FLAGS[i].name, MOUNT_FLAGS[j].name)
  {
  }

  lemma RAndSNames()
    ensures forall i, j :: i in {5, 6, 7} && j in {6, 7, 9} && i < j ==>
      Apart(MOUNT_FLAGS[i].name, MOUNT_FLAGS[j].name)
    ensures forall i, j :: 12 <= i < j < 15 ==> Apart(MOUNT_FLAGS[i].name, MOUNT_FLAGS[j].name)
  {
  }

  lemma MgrPrefixFree()
    ensures PrefixFree(FS_MGR_FLAGS)
  {
    hide *;
    MgrFirsts();
    NAndVNames();
    FirstsApart(FS_MGR_FLAGS, "wcenvlrszvnmd");
  }

  lemma MgrFirsts()
    ensures Firsts(FS_MGR_FLAGS, "wcenvlrszvnmd")
  {
  }

  lemma NAndVNames()
    ensures Apart(FS_MGR_FLAGS[3].name, FS_MGR_FLAGS[10].name) && Apart(FS_MGR_FLAGS[4].name, FS_MGR_FLAGS[9].name)
  {
  }

  /** Some name that stands for the bit begins the word. */
  ghost predicate Begun(p: string, table: seq<Flag>, bit: int) {
    bit != 0 && exists k :: 0 <= k < |table| && table[k].name <= p && table[k].bit == bit
  }

  /** In such a table the order of the entries does not matter. */
  lemma BearsBegun(p: string, table: seq<Flag>, bit: int)
    requires PrefixFree(table)
    ensures Bears(p, table, bit) <==> Begun(p, table, bit)
  {
    if k :| 0 <= k < |table| && table[k].name <= p && table[k].bit == bit {
      assert forall j :: 0 <= j < k ==> Apart(table[j].name, table[k].name);
      assert bit != 0 ==> FirstPrefix(p, table, k);
    }
  }

  /** In both tables: a bit is set exactly when some word begins with a name that stands for it. */
  lemma FlagSetIff(text: string, values: bool, bit: int)
    ensures bit in Flags(text, MOUNT_FLAGS, values).bits <==>
      exists w :: Word(text, ",", w) && Begun(w, MOUNT_FLAGS, bit)
    ensures bit in Flags(text, FS_MGR_FLAGS, values).bits <==>
      exists w :: Word(text, ",", w) && Begun(w, FS_MGR_FLAGS, bit)
  {
    hide *;
    MountPrefixFree();
    MgrPrefixFree();
    FlagBitIff(text, MOUNT_FLAGS, values, bit);
    FlagBitIff(text, FS_MGR_FLAGS, values, bit);
    forall w ensures Bears(w, MOUNT_FLAGS, bit) <==> Begun(w, MOUNT_FLAGS, bit) { BearsBegun(w, MOUNT_FLAGS, bit); }
    forall w ensures Bears(w, FS_MGR_FLAGS, bit) <==> Begun(w, FS_MGR_FLAGS, bit) {
      BearsBegun(w, FS_MGR_FLAGS, bit);
    }
  }

  lemma MultibootNames(w: string)
    ensures Begun(w, FS_MGR_FLAGS, MF_MULTIBOOT) <==> "multiboot" <= w || "noemulatedsd" <= w
  {
    assert forall k :: 0 <= k < 13 && FS_MGR_FLAGS[k].bit == MF_MULTIBOOT ==> k == 10 || k == 11;
    assert FS_MGR_FLAGS[10].name == "noemulatedsd" && FS_MGR_FLAGS[11].name == "multiboot";
  }

  /** MF_MULTIBOOT and MF_NOEMULATEDSD are one bit: an entry counts as multiboot exactly when a word of its fs_mgr
      column begins with either name, and so without the word multiboot when one begins with noemulatedsd. */
  lemma MultibootIff(text: string, values: bool)
    ensures MF_MULTIBOOT in Flags(text, FS_MGR_FLAGS, values).bits <==>
      exists w :: Word(text, ",", w) && ("multiboot" <= w || "noemulatedsd" <= w)
  {
    forall w ensures Begun(w, FS_MGR_FLAGS, MF_MULTIBOOT) <==> "multiboot" <= w || "noemulatedsd" <= w {
      MultibootNames(w);
    }
    hide *;
    FlagSetIff(text, values, MF_MULTIBOOT);
  }

  lemma ReadOnlyNames(w: string)
    ensures Begun(w, MOUNT_FLAGS, MS_RDONLY) <==> "ro" <= w
  {
    assert forall k :: 0 <= k < 16 && MOUNT_FLAGS[k].bit == MS_RDONLY ==> k == 5;
    assert MOUNT_FLAGS[5].name == "ro";
  }

  /** A mount is read-only exactly when an option begins with "ro", be it rootcontext=..., which is then lost. */
  lemma ReadOnlyIff(text: string, values: bool)
    ensures MS_RDONLY in Flags(text, MOUNT_FLAGS, values).bits <==> exists w :: Word(text, ",", w) && "ro" <= w
    ensures forall w :: Word(Flags(text, MOUNT_FLAGS, values).options, ",", w) ==> !("ro" <= w)
  {
    forall w ensures Begun(w, MOUNT_FLAGS, MS_RDONLY) <==> "ro" <= w { ReadOnlyNames(w); }
    assert MOUNT_FLAGS[5].name == "ro";
    hide *;
    FlagSetIff(text, values, MS_RDONLY);
    forall w | Word(Flags(text, MOUNT_FLAGS, values).options, ",", w) ensures !("ro" <= w) {
      WordKeptIff(text, MOUNT_FLAGS, values, w);
      ForeignAt(w, MOUNT_FLAGS, 5);
    }
  }

  lemma ForeignAt(w: string, table: seq<Flag>, k: nat)
    requires Foreign(w, table) && k < |table|
    ensures !(table[k].name <= w)
  {
  }
}
