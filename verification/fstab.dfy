/** The fstab reader of fs_mgr.c and the multiboot rewrite of fstab_patcher.c (the layout without TWRP). */
module Fstab {
  import opened Wrappers
  import opened CNumber
  import opened CacheText

  // ---------- strtok_r() ----------

  function SkipDelims(s: string, delims: string): (r: string)
    ensures |r| <= |s| && (r != "" ==> r[0] !in delims)
  {
    if s != "" && s[0] in delims then SkipDelims(s[1..], delims) else s
  }

  function TokenLen(s: string, delims: string): (n: nat)
    ensures n <= |s| && (n < |s| ==> s[n] in delims) && forall i :: 0 <= i < n ==> s[i] !in delims
  {
    if s == "" || s[0] in delims then 0 else 1 + TokenLen(s[1..], delims)
  }

  /** The next token and the text behind the delimiter that ended it; an empty token when there is none. */
  function Strtok(s: string, delims: string): (r: (string, string))
    ensures r.0 != "" ==> |r.1| < |s|
  {
    var t := SkipDelims(s, delims);
    var n := TokenLen(t, delims);
    (t[..n], if n < |t| then t[n + 1..] else "")
  }

  function Tokens(s: string, delims: string): seq<string>
    decreases |s|
  {
    var (t, rest) := Strtok(s, delims);
    if t == "" then [] else [t] + Tokens(rest, delims)
  }

  // ---------- flag tables ----------

  datatype Flag = Flag(name: string, bit: int)

  const MS_RDONLY := 1
  const MS_NOSUID := 2
  const MS_NODEV := 4
  const MS_NOEXEC := 8
  const MS_SYNCHRONOUS := 16
  const MS_REMOUNT := 32
  const MS_NOATIME := 1024
  const MS_NODIRATIME := 2048
  const MS_BIND := 4096
  const MS_REC := 16384
  const MS_UNBINDABLE := 131072
  const MS_PRIVATE := 262144
  const MS_SLAVE := 524288
  const MS_SHARED := 1048576

  const MOUNT_FLAGS: seq<Flag> := [
    Flag("noatime", MS_NOATIME), Flag("noexec", MS_NOEXEC), Flag("nosuid", MS_NOSUID), Flag("nodev", MS_NODEV),
    Flag("nodiratime", MS_NODIRATIME), Flag("ro", MS_RDONLY), Flag("rw", 0), Flag("remount", MS_REMOUNT),
    Flag("bind", MS_BIND), Flag("rec", MS_REC), Flag("unbindable", MS_UNBINDABLE), Flag("private", MS_PRIVATE),
    Flag("slave", MS_SLAVE), Flag("shared", MS_SHARED), Flag("sync", MS_SYNCHRONOUS), Flag("defaults", 0)]

  const MF_WAIT := 0x1
  const MF_CHECK := 0x2
  const MF_CRYPT := 0x4
  const MF_NONREMOVABLE := 0x8
  const MF_VOLDMANAGED := 0x10
  const MF_LENGTH := 0x20
  const MF_RECOVERYONLY := 0x40
  const MF_SWAPPRIO := 0x80
  const MF_ZRAMSIZE := 0x100
  const MF_VERIFY := 0x200
  const MF_MULTIBOOT := 0x400
  const MF_NOEMULATEDSD := 0x400

  const FS_MGR_FLAGS: seq<Flag> := [
    Flag("wait", MF_WAIT), Flag("check", MF_CHECK), Flag("encryptable=", MF_CRYPT),
      Flag("nonremovable", MF_NONREMOVABLE),
    Flag("voldmanaged=", MF_VOLDMANAGED), Flag("length=", MF_LENGTH), Flag("recoveryonly", MF_RECOVERYONLY),
    Flag("swapprio=", MF_SWAPPRIO), Flag("zramsize=", MF_ZRAMSIZE), Flag("verify", MF_VERIFY),
    Flag("noemulatedsd", MF_NOEMULATEDSD), Flag("multiboot", MF_MULTIBOOT), Flag("defaults", 0)]

  /** struct fs_mgr_flag_values */
  datatype Values = Values(keyLoc: Option<string>, length: int, volume: Option<string>, partnum: int, swapPrio: int,
    zramSize: int)

  const NO_VALUES: Values := Values(None, 0, None, -1, -1, 0)

  /** The flag word as the set of its bits, the file system's own options, and the values. */
  datatype Parsed = Parsed(bits: set<int>, options: string, values: Values)

  /** The first table entry whose name the token begins with. */
  function FindFlag(p: string, table: seq<Flag>): Option<Flag> {
    if table == [] then None
    else if table[0].name <= p then Some(table[0])
    else FindFlag(p, table[1..])
  }

  function AfterEquals(p: string): string {
    var k := First(p, '=');
    if k < |p| then p[k + 1..] else ""
  }

  /** The values that some flags carry behind an equals sign. */
  function WithValue(v: Values, bit: int, p: string): Values {
    if bit == MF_CRYPT then v.(keyLoc := Some(AfterEquals(p)))
    else if bit == MF_LENGTH then v.(length := StrToL(AfterEquals(p)))
    else if bit == MF_VOLDMANAGED then
      var e, c := First(p, '='), First(p, ':');
      if c < |p| then
        v.(volume := Some(if e < c then p[e + 1..c] else AfterEquals(p)),
           partnum := if p[c + 1..] == "auto" then -1 else Signed32(StrToL(p[c + 1..])))
      else v
    else if bit == MF_SWAPPRIO then v.(swapPrio := Signed32(StrToL(AfterEquals(p))))
    else if bit == MF_ZRAMSIZE then v.(zramSize := StrToL(AfterEquals(p)) % TWO32)
    else v
  }

  /** One token of a flag list; bit 0 stands for no bit at all. */
  function ParseFlag(a: Parsed, p: string, table: seq<Flag>, values: bool): Parsed {
    match FindFlag(p, table)
    case None => a.(options := a.options + p + ",")
    case Some(flag) =>
      a.(bits := if flag.bit == 0 then a.bits else a.bits + {flag.bit},
         values := if values then WithValue(a.values, flag.bit, p) else a.values)
  }

  function ParseTokens(a: Parsed, ts: seq<string>, table: seq<Flag>, values: bool): Parsed
    decreases |ts|
  {
    if ts == [] then a else ParseTokens(ParseFlag(a, ts[0], table, values), ts[1..], table, values)
  }

  /** Removes the last trailing comma. */
  function Trimmed(a: Parsed): Parsed {
    if a.options == "" then a else a.(options := a.options[..|a.options| - 1])
  }

  function Flags(text: string, table: seq<Flag>, values: bool): Parsed {
    Trimmed(ParseTokens(Parsed({}, "", NO_VALUES), Tokens(text, ","), table, values))
  }

  /** parse_flags() */
  method ParseFlags(text: string, table: seq<Flag>, values: bool) returns (r: Parsed)
    ensures r == Flags(text, table, values)
  {
    r := Parsed({}, "", NO_VALUES);
    var next := Strtok(text, ",");
    var p, rest := next.0, next.1;
    while p != ""
      invariant ParseTokens(r, (if p == "" then [] else [p] + Tokens(rest, ",")), table, values)
        == ParseTokens(Parsed({}, "", NO_VALUES), Tokens(text, ","), table, values)
      decreases |rest|, p != ""
    {
      var i := 0;
      while i < |table| && !(table[i].name <= p)
        invariant i <= |table| && FindFlag(p, table[i..]) == FindFlag(p, table)
      {
        i := i + 1;
      }
      ghost var ts := [p] + Tokens(rest, ",");
      assert ts[0] == p && ts[1..] == Tokens(rest, ",");
      r := if i == |table| then r.(options := r.options + p + ",")
        else r.(bits := if table[i].bit == 0 then r.bits else r.bits + {table[i].bit},
                values := if values then WithValue(r.values, table[i].bit, p) else r.values);
      next := Strtok(rest, ",");
      p, rest := next.0, next.1;
    }
    r := Trimmed(r);
  }

  // ---------- records ----------

  /** struct fstab_rec, without what TWRP and CWM layouts add; the replacement is set on multiboot's own fstab only. */
  datatype Rec = Rec(
    blkDevice: string, mountPoint: string, fsType: string,
    optionsText: string, mountFlags: set<int>, fsOptions: Option<string>,
    mgrText: string, mgrFlags: set<int>, values: Values,
    replacementBind: bool, replacementDevice: string)

  /** What do_fs_mgr_read_fstab() makes of the five columns of a line. */
  function RecOf(blk: string, mount: string, fs: string, options: string, mgr: string): Rec {
    var o, m := Flags(options, MOUNT_FLAGS, false), Flags(mgr, FS_MGR_FLAGS, true);
    Rec(blk, mount, fs, options, o.bits, if o.options == "" then None
      else Some(o.options), mgr, m.bits, m.values, false, "")
  }

  const BLANKS := " \t"

  /** Skipped: blank or a comment. Broken: a column is missing. */
  datatype Row = Skipped | Broken | Entry(r: Rec)

  function WithoutNewline(line: string): string {
    if line != "" && line[|line| - 1] == '\n' then line[..|line| - 1] else line
  }

  /** A line as the string functions see it: it ends before its newline or a NUL. */
  function LineText(line: string): string {
    var s := WithoutNewline(line);
    s[..First(s, '\0')]
  }

  function LineOf(line: string): Row {
    var s := LineText(line);
    var p := SkipBlank(s);
    if p == "" || p[0] == '#' then Skipped
    else
      var ts := Tokens(s, BLANKS);
      if |ts| < 5 then Broken else Entry(RecOf(ts[0], ts[1], ts[2], ts[3], ts[4]))
  }

  /** The records of the lines, or nothing when a line is bad. */
  function RecsOf(lines: seq<string>): Option<seq<Rec>> {
    if lines == [] then Some([])
    else
      match LineOf(lines[0])
      case Broken => None
      case Skipped => RecsOf(lines[1..])
      case Entry(r) => match RecsOf(lines[1..]) case None => None case Some(rs) => Some([r] + rs)
  }

  /** The lines that getline() delivers. */
  function LinesOf(text: string): seq<string> {
    if text == "" then []
    else
      var k := First(text, '\n');
      if k == |text| then [text] else [text[..k + 1]] + LinesOf(text[k + 1..])
  }

  /** A file without entries is refused. */
  function Fstab(text: string): Option<seq<Rec>> {
    match RecsOf(LinesOf(text))
    case None => None
    case Some(rs) => if rs == [] then None else Some(rs)
  }

  /** do_fs_mgr_read_fstab(): a first pass counts the entries, a second one fills the records. */
  method ReadFstab(text: string) returns (r: Option<seq<Rec>>)
    ensures r == Fstab(text)
  {
    var lines := LinesOf(text);
    var entries := 0;
    hide LineOf, LinesOf;
    for i := 0 to |lines|
      invariant 0 <= entries <= i && (entries == 0 <==> forall k :: 0 <= k < i ==> LineOf(lines[k]).Skipped?)
    {
      if !LineOf(lines[i]).Skipped? {
        entries := entries + 1;
      }
    }
    AllSkipped(lines);
    if entries == 0 {
      return None;
    }
    r := FillRecs(lines);
  }

  /** The second pass. */
  method FillRecs(lines: seq<string>) returns (r: Option<seq<Rec>>)
    ensures r == RecsOf(lines)
  {
    hide LineOf;
    var recs, cnt := [], 0;
    ghost var all := RecsOf(lines);
    assert lines[0..] == lines;
    assert all.Some? ==> [] + all.value == all.value;
    for i := 0 to |lines|
      invariant cnt == |recs|
      invariant all == Joined(recs, RecsOf(lines[i..]))
    {
      RecsNext(lines, i);
      var row := ReadLine(lines[i]);
      match row
      case Skipped =>
      case Broken => return None;
      case Entry(rec) =>
        Prepended(recs, rec, RecsOf(lines[i + 1..]));
        recs, cnt := recs + [rec], cnt + 1;
    }
    assert lines[|lines|..] == [];
    assert recs + [] == recs;
    return Some(recs);
  }

  function Joined(a: seq<Rec>, b: Option<seq<Rec>>): Option<seq<Rec>> {
    match b case None => None case Some(rs) => Some(a + rs)
  }

  lemma RecsNext(lines: seq<string>, i: nat)
    requires i < |lines|
    ensures var l := LineOf(lines[i]);
      RecsOf(lines[i..]) ==
        if l.Broken? then None
        else if l.Skipped? then RecsOf(lines[i + 1..])
        else Joined([l.r], RecsOf(lines[i + 1..]))
  {
    hide LineOf;
    assert lines[i..][0] == lines[i] && lines[i..][1..] == lines[i + 1..];
  }

  lemma Prepended(a: seq<Rec>, r: Rec, rest: Option<seq<Rec>>)
    ensures Joined(a, Joined([r], rest)) == Joined(a + [r], rest)
  {
    if rest.Some? { assert a + ([r] + rest.value) == (a + [r]) + rest.value; }
  }

  /** One line: the comment test, five strtok_r() calls and two parse_flags() calls. */
  method ReadLine(line: string) returns (r: Row)
    ensures r == LineOf(line)
  {
    hide Strtok, Tokens, Flags;
    var s := LineText(line);
    var p := SkipBlank(s);
    if p == "" || p[0] == '#' {
      return Skipped;
    }
    FiveColumns(s);
    var blk := Strtok(s, BLANKS);
    if blk.0 == "" { return Broken; }
    var mount := Strtok(blk.1, BLANKS);
    if mount.0 == "" { return Broken; }
    var fs := Strtok(mount.1, BLANKS);
    if fs.0 == "" { return Broken; }
    var options := Strtok(fs.1, BLANKS);
    if options.0 == "" { return Broken; }
    var o := ParseFlags(options.0, MOUNT_FLAGS, false);
    var mgr := Strtok(options.1, BLANKS);
    if mgr.0 == "" { return Broken; }
    var m := ParseFlags(mgr.0, FS_MGR_FLAGS, true);
    return Entry(Rec(blk.0, mount.0, fs.0, options.0, o.bits, if o.options == "" then None
      else Some(o.options), mgr.0, m.bits, m.values, false, ""));
  }

  lemma TokensStep(s: string)
    ensures var t := Strtok(s, BLANKS);
      Tokens(s, BLANKS) == if t.0 == "" then [] else [t.0] + Tokens(t.1, BLANKS)
  {
    hide Strtok;
  }

  lemma FiveColumns(s: string)
    ensures var ts, a := Tokens(s, BLANKS), Strtok(s, BLANKS);
      var b := Strtok(a.1, BLANKS); var c := Strtok(b.1, BLANKS); var d := Strtok(c.1, BLANKS);
        var e := Strtok(d.1, BLANKS);
      if a.0 == "" || b.0 == "" || c.0 == "" || d.0 == "" || e.0 == "" then |ts| < 5
      else |ts| >= 5 && ts[0] == a.0 && ts[1] == b.0 && ts[2] == c.0 && ts[3] == d.0 && ts[4] == e.0
  {
    hide Strtok, Tokens;
    var a := Strtok(s, BLANKS);
    var b := Strtok(a.1, BLANKS);
    var c := Strtok(b.1, BLANKS);
    var d := Strtok(c.1, BLANKS);
    TokensStep(s);
    TokensStep(a.1);
    TokensStep(b.1);
    TokensStep(c.1);
    TokensStep(d.1);
  }

  lemma {:induction false} AllSkipped(lines: seq<string>)
    ensures (forall k :: 0 <= k < |lines| ==> LineOf(lines[k]).Skipped?) <==> RecsOf(lines) == Some([])
  {
    hide LineOf;
    if lines != [] {
      AllSkipped(lines[1..]);
      assert forall k :: 0 <= k < |lines| - 1 ==> lines[1..][k] == lines[k + 1];
    }
  }

  // ---------- the rewrite ----------

  predicate Matches(r: Rec, path: string) {
    r.mountPoint <= path && (|path| == |r.mountPoint| || path[|r.mountPoint|] == '/')
  }

  /** A mount point takes in itself and what lies below it, and not a name that merely begins with it. */
  lemma MatchesIff(r: Rec, path: string)
    ensures Matches(r, path) <==> path == r.mountPoint || exists rest :: path == r.mountPoint + ("/" + rest)
  {
    var n := |r.mountPoint|;
    if Matches(r, path) && |path| > n {
      assert path == r.mountPoint + ("/" + path[n + 1..]);
    }
  }

  /** The first record whose mount point is the path or a directory above it. */
  function EntryFor(recs: seq<Rec>, path: string): Option<Rec> {
    if recs == [] then None else if Matches(recs[0], path) then Some(recs[0]) else EntryFor(recs[1..], path)
  }

  /** fs_mgr_get_entry_for_mount_point() */
  method GetEntry(recs: seq<Rec>, path: string) returns (r: Option<Rec>)
    ensures r == EntryFor(recs, path)
    ensures r.None? ==> forall i :: 0 <= i < |recs| ==> !Matches(recs[i], path)
    ensures r.Some? ==> exists i ::
      0 <= i < |recs| && recs[i] == r.value && Matches(recs[i], path) && forall j :: 0 <= j < i ==>
        !Matches(recs[j], path)
  {
    assert recs[0..] == recs;
    for i := 0 to |recs|
      invariant EntryFor(recs[i..], path) == EntryFor(recs, path) && forall j :: 0 <= j < i ==> !Matches(recs[j], path)
    {
      assert recs[i..][0] == recs[i] && recs[i..][1..] == recs[i + 1..];
      if Matches(recs[i], path) {
        return Some(recs[i]);
      }
    }
    return None;
  }

  /** file_write_fstabrec(), up to the newline */
  function RowLine(blk: string, mount: string, fs: string, options: string, mgr: string): string {
    blk + ([' '] + (mount + ([' '] + (fs + ([' '] + (options + ([' '] + mgr)))))))
  }

  function RowText(blk: string, mount: string, fs: string, options: string, mgr: string): string {
    RowLine(blk, mount, fs, options, mgr) + "\n"
  }

  /** What the rewrite does with a record: the device and options of its row, and whether a remount row follows. */
  datatype Rewrite = Rewrite(blk: string, options: string, remount: bool)

  const REMOUNT := "remount,"

  function RewriteOf(r: Rec, mb: seq<Rec>, enabled: bool): Rewrite {
    match EntryFor(mb, r.mountPoint)
    case Some(e) =>
      if enabled && MF_MULTIBOOT in e.mgrFlags then
        if e.replacementBind then Rewrite(e.replacementDevice, "bind", r.mountPoint != "/system")
        else Rewrite(e.replacementDevice, r.optionsText, false)
      else Rewrite(r.blkDevice, r.optionsText, false)
    case None => Rewrite(r.blkDevice, r.optionsText, false)
  }

  function PatchedRow(r: Rec, mb: seq<Rec>, enabled: bool): string {
    var w := RewriteOf(r, mb, enabled);
    RowText(w.blk, r.mountPoint, r.fsType, w.options, r.mgrText)
    + if w.remount then RowText(w.blk, r.mountPoint, r.fsType, REMOUNT + r.optionsText, "wait") else ""
  }

  function PatchedText(recs: seq<Rec>, mb: seq<Rec>, enabled: bool): string {
    if recs == [] then "" else PatchedRow(recs[0], mb, enabled) + PatchedText(recs[1..], mb, enabled)
  }

  /** patch_fstab() */
  method PatchFstab(recs: seq<Rec>, mb: seq<Rec>, enabled: bool) returns (f: string)
    ensures f == PatchedText(recs, mb, enabled)
  {
    f := "";
    assert recs[0..] == recs;
    for i := 0 to |recs|
      invariant f + PatchedText(recs[i..], mb, enabled) == PatchedText(recs, mb, enabled)
    {
      assert recs[i..][0] == recs[i] && recs[i..][1..] == recs[i + 1..];
      hide RowText, PatchedRow;
      ghost var before := f;
      f := PatchRow(recs[i], mb, enabled, f);
      Assoc(before, PatchedRow(recs[i], mb, enabled), PatchedText(recs[i + 1..], mb, enabled));
    }
    assert recs[|recs|..] == [];
    assert f + "" == f;
  }

  /** The loop's body: what is written for one record. */
  method PatchRow(orig: Rec, mb: seq<Rec>, enabled: bool, f0: string) returns (f: string)
    ensures f == f0 + PatchedRow(orig, mb, enabled)
  {
    hide RowText;
    var blk, options, useBind := orig.blkDevice, orig.optionsText, false;
    if enabled {
      var rec := GetEntry(mb, orig.mountPoint);
      if rec.Some? && MF_MULTIBOOT in rec.value.mgrFlags {
        blk := rec.value.replacementDevice;
        if rec.value.replacementBind {
          options := "bind";
          useBind := true;
        }
      }
    }
    f := f0 + RowText(blk, orig.mountPoint, orig.fsType, options, orig.mgrText);
    if useBind && orig.mountPoint != "/system" {
      f := f + RowText(blk, orig.mountPoint, orig.fsType, REMOUNT + orig.optionsText, "wait");
    }
  }

  // ---------- reading the rewritten file ----------

  /** A column, as strtok_r() cuts it from a line. */
  predicate Column(s: string) { s != "" && NoneOf(s, " \t\n\0") }

  predicate Columns(blk: string, mount: string, fs: string, options: string, mgr: string) {
    Column(blk) && Column(mount) && Column(fs) && Column(options) && Column(mgr)
  }

  /** The first character that isspace() does not pass over. */
  function Lead(s: string): Option<char> {
    var p := SkipBlank(s);
    if p == "" then None else Some(p[0])
  }

  /** The lead of a record's row: nothing when all columns consist of carriage returns, vertical tabs and form feeds. */
  function LeadOf(r: Rec): Option<char> {
    Lead(RowLine(r.blkDevice, r.mountPoint, r.fsType, r.optionsText, r.mgrText))
  }

  /** A record of five columns, as the reader makes it. */
  predicate WellFormed(r: Rec) {
    && Columns(r.blkDevice, r.mountPoint, r.fsType, r.optionsText, r.mgrText) && LeadOf(r) != Some('#')
    && r == RecOf(r.blkDevice, r.mountPoint, r.fsType, r.optionsText, r.mgrText)
  }

  /** The replacement devices are device names. */
  predicate Usable(mb: seq<Rec>) {
    forall i :: 0 <= i < |mb| && MF_MULTIBOOT in mb[i].mgrFlags ==>
      Column(mb[i].replacementDevice) && Lead(mb[i].replacementDevice).Some?
      && Lead(mb[i].replacementDevice) != Some('#')
  }

  /** The record's device is replaced. */
  predicate Replaced(r: Rec, mb: seq<Rec>, enabled: bool) {
    var e := EntryFor(mb, r.mountPoint);
    enabled && e.Some? && MF_MULTIBOOT in e.value.mgrFlags
  }

  /** The records that the rewritten file holds for one record. */
  function Reread(r: Rec, mb: seq<Rec>, enabled: bool): seq<Rec> {
    var w := RewriteOf(r, mb, enabled);
    [RecOf(w.blk, r.mountPoint, r.fsType, w.options, r.mgrText)]
    + if w.remount then [RecOf(w.blk, r.mountPoint, r.fsType, REMOUNT + r.optionsText, "wait")] else []
  }

  function RereadAll(recs: seq<Rec>, mb: seq<Rec>, enabled: bool): seq<Rec> {
    if recs == [] then [] else Reread(recs[0], mb, enabled) + RereadAll(recs[1..], mb, enabled)
  }

  /** The record's row is not taken for a blank line. */
  predicate Shown(r: Rec, mb: seq<Rec>, enabled: bool) {
    LeadOf(r).Some? || Replaced(r, mb, enabled)
  }

  function RereadShown(recs: seq<Rec>, mb: seq<Rec>, enabled: bool): seq<Rec> {
    if recs == [] then []
    else
      var rows := if Shown(recs[0], mb, enabled) then Reread(recs[0], mb, enabled) else [];
      rows + RereadShown(recs[1..], mb, enabled)
  }

  predicate NoneOf(s: string, delims: string) { forall i :: 0 <= i < |s| ==> s[i] !in delims }

  lemma {:induction false} TokenLenIs(s: string, t: string, delims: string)
    requires NoneOf(s, delims) && (t == "" || t[0] in delims)
    ensures TokenLen(s + t, delims) == |s|
  {
    if s == "" {
      assert s + t == t;
    } else {
      assert NoneOf(s[1..], delims) by { assert forall i :: 0 <= i < |s| - 1 ==> s[1..][i] == s[i + 1]; }
      TokenLenIs(s[1..], t, delims);
      assert (s + t)[1..] == s[1..] + t && (s + t)[0] == s[0] && s[0] !in delims;
    }
  }

  /** A token, a delimiter and the rest. */
  lemma StrtokIs(s: string, d: char, t: string, delims: string)
    requires s != "" && NoneOf(s, delims) && d in delims
    ensures Strtok(s + ([d] + t), delims) == (s, t) && Strtok(s, delims) == (s, "")
  {
    TokenLenIs(s, [d] + t, delims);
    TokenLenIs(s, "", delims);
    assert s + "" == s;
    assert SkipDelims(s + ([d] + t), delims) == s + ([d] + t) && SkipDelims(s, delims) == s;
    var u := s + ([d] + t);
    assert u[..|s|] == s && u[|s| + 1..] == t;
  }

  // ---------- leads and columns ----------

  function Or<T>(a: Option<T>, b: Option<T>): Option<T> { if a.Some? then a else b }

  lemma {:induction false} LeadOver(a: string, b: string)
    ensures Lead(a + b) == Or(Lead(a), Lead(b))
  {
    if a == "" {
      assert a + b == b;
    } else if IsSpace(a[0]) {
      assert (a + b)[1..] == a[1..] + b;
      LeadOver(a[1..], b);
    } else {
      assert (a + b)[0] == a[0];
    }
  }

  lemma LeadBehind(a: string, d: char, b: string)
    requires d in BLANKS
    ensures Lead(a + ([d] + b)) == Or(Lead(a), Lead(b))
  {
    LeadOver(a, [d] + b);
    LeadOver([d], b);
    assert IsSpace(d) && [d][1..] == "";
  }

  lemma RowLead(blk: string, mount: string, fs: string, options: string, mgr: string)
    ensures Lead(RowLine(blk, mount, fs, options, mgr))
      == Or(Lead(blk), Or(Lead(mount), Or(Lead(fs), Or(Lead(options), Lead(mgr)))))
  {
    hide Lead;
    LeadBehind(options, ' ', mgr);
    LeadBehind(fs, ' ', options + ([' '] + mgr));
    LeadBehind(mount, ' ', fs + ([' '] + (options + ([' '] + mgr))));
    LeadBehind(blk, ' ', mount + ([' '] + (fs + ([' '] + (options + ([' '] + mgr))))));
  }

  lemma {:induction false} SkipDelimsKeeps(s: string, more: string)
    requires NoneOf(s, more)
    ensures Lead(SkipDelims(s, BLANKS)) == Lead(s) && NoneOf(SkipDelims(s, BLANKS), more)
  {
    if s != "" && s[0] in BLANKS {
      assert forall i :: 0 <= i < |s| - 1 ==> s[1..][i] == s[i + 1];
      SkipDelimsKeeps(s[1..], more);
      assert IsSpace(s[0]);
    }
  }

  /** What strtok_r() cuts off is a column, and the lead of the text is that of the column or of the rest. */
  lemma StrtokColumn(s: string)
    requires NoneOf(s, "\n\0")
    ensures var t := Strtok(s, BLANKS);
      && Lead(s) == Or(Lead(t.0), Lead(t.1)) && (t.0 == "" || Column(t.0)) && NoneOf(t.1, "\n\0")
  {
    var u := SkipDelims(s, BLANKS);
    SkipDelimsKeeps(s, "\n\0");
    var n := TokenLen(u, BLANKS);
    if n < |u| {
      LeadBehind(u[..n], u[n], u[n + 1..]);
      assert u == u[..n] + ([u[n]] + u[n + 1..]);
    } else {
      assert u == u[..n];
    }
    assert forall i :: 0 <= i < n ==> u[..n][i] !in BLANKS && u[..n][i] !in "\n\0";
  }

  /** The columns of an accepted line are columns, and their lead is no '#'. */
  lemma LineWellFormed(line: string)
    requires NoneOf(WithoutNewline(line), "\n")
    ensures LineOf(line).Entry? ==> WellFormed(LineOf(line).r)
  {
    if LineOf(line).Entry? {
      var s := LineText(line);
      LineTextClean(line);
      LineLead(line);
      hide *;
      FiveColumns(s);
      var a := Strtok(s, BLANKS);
      var b := Strtok(a.1, BLANKS);
      var c := Strtok(b.1, BLANKS);
      var d := Strtok(c.1, BLANKS);
      var e := Strtok(d.1, BLANKS);
      StrtokColumn(s);
      StrtokColumn(a.1);
      StrtokColumn(b.1);
      StrtokColumn(c.1);
      StrtokColumn(d.1);
      RowLead(a.0, b.0, c.0, d.0, e.0);
      LineEntry(line, a.0, b.0, c.0, d.0, e.0);
      OrCut(Lead(a.0), Lead(b.0), Lead(c.0), Lead(d.0), Lead(e.0), Lead(e.1), Some('#'));
      ColumnsWellFormed(a.0, b.0, c.0, d.0, e.0);
    }
  }

  lemma OrCut<T>(a: Option<T>, b: Option<T>, c: Option<T>, d: Option<T>, e: Option<T>, x: Option<T>, y: Option<T>)
    requires y.Some? && Or(a, Or(b, Or(c, Or(d, Or(e, x))))) != y
    ensures Or(a, Or(b, Or(c, Or(d, e)))) != y
  {
  }

  lemma LineTextClean(line: string)
    requires NoneOf(WithoutNewline(line), "\n")
    ensures NoneOf(LineText(line), "\n\0")
  {
    var s := WithoutNewline(line);
    assert forall i :: 0 <= i < First(s, '\0') ==> s[i] !in "\n" && s[i] != '\0';
  }

  lemma LineLead(line: string)
    ensures LineOf(line).Entry? ==> Lead(LineText(line)) != Some('#')
  {
    hide Tokens, RecOf, LineText;
  }

  lemma LineEntry(line: string, blk: string, mount: string, fs: string, options: string, mgr: string)
    requires LineOf(line).Entry?
    requires var ts := Tokens(LineText(line), BLANKS);
      |ts| >= 5 ==> ts[0] == blk && ts[1] == mount && ts[2] == fs && ts[3] == options && ts[4] == mgr
    ensures LineOf(line) == Entry(RecOf(blk, mount, fs, options, mgr)) && |Tokens(LineText(line), BLANKS)| >= 5
  {
    hide Tokens, RecOf, LineText;
  }

  lemma ColumnsWellFormed(blk: string, mount: string, fs: string, options: string, mgr: string)
    requires Columns(blk, mount, fs, options, mgr) && Lead(RowLine(blk, mount, fs, options, mgr)) != Some('#')
    ensures WellFormed(RecOf(blk, mount, fs, options, mgr))
  {
    hide Column, RowLine, Flags, Lead;
  }

  lemma {:induction false} LinesClean(text: string)
    ensures forall l :: l in LinesOf(text) ==> NoneOf(WithoutNewline(l), "\n")
  {
    if text != "" {
      var k := First(text, '\n');
      if k < |text| {
        assert WithoutNewline(text[..k + 1]) == text[..k];
        LinesClean(text[k + 1..]);
      } else {
        assert text[|text| - 1] != '\n';
      }
    }
  }

  lemma {:induction false} RecsWellFormed(lines: seq<string>)
    requires forall l :: l in lines ==> NoneOf(WithoutNewline(l), "\n")
    ensures RecsOf(lines).Some? ==> forall i :: 0 <= i < |RecsOf(lines).value| ==> WellFormed(RecsOf(lines).value[i])
  {
    hide LineOf, WellFormed, WithoutNewline, NoneOf;
    if lines != [] {
      LineWellFormed(lines[0]);
      RecsWellFormed(lines[1..]);
    }
  }

  /** Every record that the reader delivers is well formed, whatever the text. */
  lemma ReaderWellFormed(text: string)
    requires Fstab(text).Some?
    ensures Fstab(text).value != [] && forall i :: 0 <= i < |Fstab(text).value| ==> WellFormed(Fstab(text).value[i])
  {
    hide RecsOf, LinesOf, WellFormed;
    LinesClean(text);
    RecsWellFormed(LinesOf(text));
  }

  // ---------- written rows ----------

  lemma NoneOver(a: string, b: string, delims: string)
    requires NoneOf(a, delims) && NoneOf(b, delims)
    ensures NoneOf(a + b, delims)
  {
  }

  lemma ColumnClean(s: string)
    requires Column(s)
    ensures s != "" && NoneOf(s, BLANKS) && NoneOf(s, "\n\0")
  {
    assert forall i :: 0 <= i < |s| ==> s[i] !in " \t\n\0";
    assert " \t\n\0"[0] == ' ' && " \t\n\0"[1] == '\t' && " \t\n\0"[2] == '\n' && " \t\n\0"[3] == '\0';
  }

  lemma ColumnsParts(blk: string, mount: string, fs: string, options: string, mgr: string)
    ensures Columns(blk, mount, fs, options, mgr) <==>
      Column(blk) && Column(mount) && Column(fs) && Column(options) && Column(mgr)
  {
    hide Column;
  }

  lemma RowClean(blk: string, mount: string, fs: string, options: string, mgr: string)
    requires Columns(blk, mount, fs, options, mgr)
    ensures NoneOf(RowLine(blk, mount, fs, options, mgr), "\n\0")
  {
    ColumnClean(blk);
    ColumnClean(mount);
    ColumnClean(fs);
    ColumnClean(options);
    ColumnClean(mgr);
    var s4 := options + ([' '] + mgr);
    var s3 := fs + ([' '] + s4);
    var s2 := mount + ([' '] + s3);
    assert NoneOf([' '], "\n\0");
    hide *;
    NoneOver([' '], mgr, "\n\0");
    NoneOver(options, [' '] + mgr, "\n\0");
    NoneOver([' '], s4, "\n\0");
    NoneOver(fs, [' '] + s4, "\n\0");
    NoneOver([' '], s3, "\n\0");
    NoneOver(mount, [' '] + s3, "\n\0");
    NoneOver([' '], s2, "\n\0");
    NoneOver(blk, [' '] + s2, "\n\0");
    RowLineIs(blk, mount, fs, options, mgr);
  }

  lemma RowLineIs(blk: string, mount: string, fs: string, options: string, mgr: string)
    ensures RowLine(blk, mount, fs, options, mgr)
      == blk + ([' '] + (mount + ([' '] + (fs + ([' '] + (options + ([' '] + mgr)))))))
    ensures RowText(blk, mount, fs, options, mgr) == RowLine(blk, mount, fs, options, mgr) + "\n"
  {
  }

  /** The row of five columns, as the reader takes it. */
  function RowRead(blk: string, mount: string, fs: string, options: string, mgr: string): Row {
    var l := Lead(RowLine(blk, mount, fs, options, mgr));
    if l.None? || l == Some('#') then Skipped else Entry(RecOf(blk, mount, fs, options, mgr))
  }

  lemma RowReads(blk: string, mount: string, fs: string, options: string, mgr: string)
    requires Columns(blk, mount, fs, options, mgr)
    ensures LineOf(RowText(blk, mount, fs, options, mgr)) == RowRead(blk, mount, fs, options, mgr)
  {
    var s4 := options + ([' '] + mgr);
    var s3 := fs + ([' '] + s4);
    var s2 := mount + ([' '] + s3);
    var s1 := blk + ([' '] + s2);
    ColumnClean(blk);
    ColumnClean(mount);
    ColumnClean(fs);
    ColumnClean(options);
    ColumnClean(mgr);
    RowClean(blk, mount, fs, options, mgr);
    assert ' ' in BLANKS;
    hide *;
    RowLineIs(blk, mount, fs, options, mgr);
    StrtokIs(blk, ' ', s2, BLANKS);
    StrtokIs(mount, ' ', s3, BLANKS);
    StrtokIs(fs, ' ', s4, BLANKS);
    StrtokIs(options, ' ', mgr, BLANKS);
    StrtokIs(mgr, ' ', "", BLANKS);
    FiveColumns(s1);
    LineIs(s1, blk, mount, fs, options, mgr);
  }

  lemma LineIs(s: string, blk: string, mount: string, fs: string, options: string, mgr: string)
    requires s == RowLine(blk, mount, fs, options, mgr) && NoneOf(s, "\n\0")
    requires var ts := Tokens(s, BLANKS);
      |ts| >= 5 && ts[0] == blk && ts[1] == mount && ts[2] == fs && ts[3] == options && ts[4] == mgr
    ensures LineOf(s + "\n") == RowRead(blk, mount, fs, options, mgr)
  {
    hide Tokens, RecOf, RowLine;
    assert (s + "\n")[..|s|] == s;
    assert WithoutNewline(s + "\n") == s;
    assert First(s, '\0') == |s| by { assert '\0' in "\n\0"; }
    assert s[..|s|] == s;
  }

  lemma {:induction false} FirstNewline(s: string, t: string)
    requires NoneOf(s, "\n\0")
    ensures First(s + (['\n'] + t), '\n') == |s|
  {
    if s == "" {
      assert s + (['\n'] + t) == ['\n'] + t;
    } else {
      assert NoneOf(s[1..], "\n\0") by { assert forall i :: 0 <= i < |s| - 1 ==> s[1..][i] == s[i + 1]; }
      FirstNewline(s[1..], t);
      assert (s + (['\n'] + t))[1..] == s[1..] + (['\n'] + t) && (s + (['\n'] + t))[0] == s[0];
      assert '\n' in "\n\0";
    }
  }

  lemma LinesNext(s: string, t: string)
    requires NoneOf(s, "\n\0")
    ensures LinesOf((s + "\n") + t) == [s + "\n"] + LinesOf(t)
  {
    hide First;
    FirstNewline(s, t);
    var u := (s + "\n") + t;
    assert u == s + (['\n'] + t) && u[..|s| + 1] == s + "\n" && u[|s| + 1..] == t;
  }

  function RowRecs(row: Row): seq<Rec> {
    if row.Entry? then [row.r] else []
  }

  /** The first line of a text is a written row. */
  lemma RowFirst(blk: string, mount: string, fs: string, options: string, mgr: string, rest: string)
    requires Columns(blk, mount, fs, options, mgr)
    ensures RecsOf(LinesOf(RowText(blk, mount, fs, options, mgr) + rest)) ==
      Joined(RowRecs(RowRead(blk, mount, fs, options, mgr)), RecsOf(LinesOf(rest)))
  {
    hide *;
    RowReads(blk, mount, fs, options, mgr);
    RowClean(blk, mount, fs, options, mgr);
    var s := RowLine(blk, mount, fs, options, mgr);
    RowLineIs(blk, mount, fs, options, mgr);
    LinesNext(s, rest);
    RowUnbroken(blk, mount, fs, options, mgr);
    RecsFirst(s + "\n", LinesOf(rest));
  }

  lemma RowUnbroken(blk: string, mount: string, fs: string, options: string, mgr: string)
    ensures !RowRead(blk, mount, fs, options, mgr).Broken?
  {
    hide RecOf, Lead, RowLine;
  }

  lemma RecsFirst(line: string, lines: seq<string>)
    requires !LineOf(line).Broken?
    ensures RecsOf([line] + lines) == Joined(RowRecs(LineOf(line)), RecsOf(lines))
  {
    hide LineOf;
    assert ([line] + lines)[1..] == lines;
    assert RecsOf(lines).Some? ==> [] + RecsOf(lines).value == RecsOf(lines).value;
  }

  lemma NewColumns(options: string)
    requires Column(options)
    ensures Column("bind") && Column("wait") && Column(REMOUNT + options)
  {
  }

  /** The rows of one record, whatever rows follow. */
  lemma PatchedRowReads(r: Rec, mb: seq<Rec>, enabled: bool, rest: string)
    requires WellFormed(r) && Usable(mb)
    ensures RecsOf(LinesOf(PatchedRow(r, mb, enabled) + rest)) ==
      Joined(if Shown(r, mb, enabled) then Reread(r, mb, enabled) else [], RecsOf(LinesOf(rest)))
  {
    var w := RewriteOf(r, mb, enabled);
    var row2 := RowText(w.blk, r.mountPoint, r.fsType, REMOUNT + r.optionsText, "wait");
    var rec2 := RecOf(w.blk, r.mountPoint, r.fsType, REMOUNT + r.optionsText, "wait");
    var rec := RecOf(w.blk, r.mountPoint, r.fsType, w.options, r.mgrText);
    var row := RowText(w.blk, r.mountPoint, r.fsType, w.options, r.mgrText);
    var more := if w.remount then row2 else "";
    assert PatchedRow(r, mb, enabled) == row + more;
    assert Reread(r, mb, enabled) == [rec] + if w.remount then [rec2] else [];
    hide *;
    RewriteColumns(r, mb, enabled);
    RewriteRead(r, mb, enabled);
    Assoc(row, more, rest);
    RowFirst(w.blk, r.mountPoint, r.fsType, w.options, r.mgrText, more + rest);
    if w.remount {
      RowFirst(w.blk, r.mountPoint, r.fsType, REMOUNT + r.optionsText, "wait", rest);
      JoinedTwice([rec], [rec2], RecsOf(LinesOf(rest)));
    } else {
      assert "" + rest == rest && [rec] + [] == [rec];
    }
  }

  lemma JoinedTwice(a: seq<Rec>, b: seq<Rec>, c: Option<seq<Rec>>)
    ensures Joined(a, Joined(b, c)) == Joined(a + b, c)
  {
    if c.Some? { assert a + (b + c.value) == (a + b) + c.value; }
  }

  lemma RewriteColumns(r: Rec, mb: seq<Rec>, enabled: bool)
    requires WellFormed(r) && Usable(mb)
    ensures var w := RewriteOf(r, mb, enabled);
      && Columns(w.blk, r.mountPoint, r.fsType, w.options, r.mgrText)
      && Columns(w.blk, r.mountPoint, r.fsType, REMOUNT + r.optionsText, "wait")
  {
    EntryForIn(mb, r.mountPoint);
    NewColumns(r.optionsText);
    hide Column, RecOf, Lead, LeadOf;
  }

  /** A row with a replaced device is shown; another one when its record has a lead. */
  lemma RewriteRead(r: Rec, mb: seq<Rec>, enabled: bool)
    requires WellFormed(r) && Usable(mb)
    ensures var w := RewriteOf(r, mb, enabled);
      && RowRecs(RowRead(w.blk, r.mountPoint, r.fsType, w.options, r.mgrText)) == (if Shown(r, mb, enabled)
        then [RecOf(w.blk, r.mountPoint, r.fsType, w.options, r.mgrText)] else [])
      && (w.remount ==>
        && Shown(r, mb, enabled)
        && RowRecs(RowRead(w.blk, r.mountPoint, r.fsType, REMOUNT + r.optionsText, "wait"))
          == [RecOf(w.blk, r.mountPoint, r.fsType, REMOUNT + r.optionsText, "wait")])
  {
    var w := RewriteOf(r, mb, enabled);
    EntryForIn(mb, r.mountPoint);
    RowLead(w.blk, r.mountPoint, r.fsType, w.options, r.mgrText);
    RowLead(w.blk, r.mountPoint, r.fsType, REMOUNT + r.optionsText, "wait");
    hide Column, Lead, RowLine, RecOf;
  }

  lemma {:induction false} EntryForIn(recs: seq<Rec>, path: string)
    ensures EntryFor(recs, path).Some? ==> EntryFor(recs, path).value in recs
  {
    if recs != [] { EntryForIn(recs[1..], path); }
  }

  lemma {:induction false} PatchedReads(recs: seq<Rec>, mb: seq<Rec>, enabled: bool)
    requires (forall i :: 0 <= i < |recs| ==> WellFormed(recs[i])) && Usable(mb)
    ensures RecsOf(LinesOf(PatchedText(recs, mb, enabled))) == Some(RereadShown(recs, mb, enabled))
  {
    hide WellFormed, Usable, PatchedRow, Reread, Shown, LinesOf;
    if recs == [] {
      NoLines();
    } else {
      assert forall i :: 0 <= i < |recs| - 1 ==> recs[1..][i] == recs[i + 1];
      PatchedReads(recs[1..], mb, enabled);
      PatchedRowReads(recs[0], mb, enabled, PatchedText(recs[1..], mb, enabled));
    }
  }

  lemma NoLines()
    ensures RecsOf(LinesOf("")) == Some([])
  {
  }

  /** No record is missing exactly when all are shown. */
  lemma {:induction false} ShownAll(recs: seq<Rec>, mb: seq<Rec>, enabled: bool)
    ensures var a, b := RereadShown(recs, mb, enabled), RereadAll(recs, mb, enabled);
      |a| <= |b| && (a == b <==> |a| == |b|) && (a == b <==> forall i :: 0 <= i < |recs| ==>
        Shown(recs[i], mb, enabled))
  {
    hide Shown;
    if recs != [] {
      ShownAll(recs[1..], mb, enabled);
      assert forall i :: 1 <= i < |recs| ==> recs[i] == recs[1..][i - 1];
      assert (forall i :: 0 <= i < |recs| ==> Shown(recs[i], mb, enabled)) <==>
        Shown(recs[0], mb, enabled) && forall i :: 0 <= i < |recs| - 1 ==> Shown(recs[1..][i], mb, enabled);
      assert |Reread(recs[0], mb, enabled)| > 0;
    }
  }

  /** Re-reading the file that patch_fstab() writes for the records of any text yields the rewritten records, in order,
      exactly when each of them has a visible column or its device replaced. */
  lemma PatchRoundTrip(text: string, mb: seq<Rec>, enabled: bool)
    requires Fstab(text).Some? && Usable(mb)
    ensures var recs := Fstab(text).value;
      Fstab(PatchedText(recs, mb, enabled)) == Some(RereadAll(recs, mb, enabled)) <==>
        forall i :: 0 <= i < |recs| ==> LeadOf(recs[i]).Some? || Replaced(recs[i], mb, enabled)
  {
    hide RecsOf, LinesOf, PatchedText, RereadAll, RereadShown, WellFormed, Usable, LeadOf, Replaced;
    ReaderWellFormed(text);
    var recs := Fstab(text).value;
    PatchedReads(recs, mb, enabled);
    ShownAll(recs, mb, enabled);
    RereadSome(recs, mb, enabled);
  }

  lemma RereadSome(recs: seq<Rec>, mb: seq<Rec>, enabled: bool)
    requires recs != []
    ensures RereadAll(recs, mb, enabled) != []
  {
  }

  /** An entry of five carriage returns is accepted for the word behind them, which is not written. */
  lemma InvisibleRow()
    ensures var text := "\r \r \r \r \r x";
      && Fstab(text) == Some([RecOf("\r", "\r", "\r", "\r", "\r")])
      && Fstab(PatchedText(Fstab(text).value, [], false)) == None
  {
    hide *;
    var text, r := "\r \r \r \r \r x", RecOf("\r", "\r", "\r", "\r", "\r");
    InvisibleText();
    InvisibleLine(text);
    OneLine(text);
    InvisibleShown();
    EntryRecs(text, r);
    RecsFirst(text, []);
    JustOne(text, r);
    ReaderWellFormed(text);
    PatchedReads([r], [], false);
    NoFile(PatchedText([r], [], false));
  }

  lemma InvisibleText()
    ensures RowLine("\r", "\r", "\r", "\r", "\r" + ([' '] + "x")) == "\r \r \r \r \r x"
  {
  }

  lemma EntryRecs(line: string, r: Rec)
    requires LineOf(line) == Entry(r)
    ensures RowRecs(LineOf(line)) == [r] && Usable([])
  {
    hide LineOf;
  }

  lemma InvisibleLine(text: string)
    requires text == RowLine("\r", "\r", "\r", "\r", "\r" + ([' '] + "x"))
    ensures LineOf(text) == Entry(RecOf("\r", "\r", "\r", "\r", "\r")) && NoneOf(text, "\n\0")
  {
    var s5 := "\r" + ([' '] + "x");
    var s4 := "\r" + ([' '] + s5);
    var s3 := "\r" + ([' '] + s4);
    var s2 := "\r" + ([' '] + s3);
    assert NoneOf("\r", BLANKS) && NoneOf(text, "\n\0");
    assert Lead("\r") == None by { assert "\r"[1..] == ""; }
    assert Lead("x") == Some('x');
    assert ' ' in BLANKS && Or(None, Some('x')) == Some('x');
    PlainLine(text);
    hide *;
    RowLineIs("\r", "\r", "\r", "\r", s5);
    RowLead("\r", "\r", "\r", "\r", s5);
    LeadBehind("\r", ' ', "x");
    StrtokIs("\r", ' ', s2, BLANKS);
    StrtokIs("\r", ' ', s3, BLANKS);
    StrtokIs("\r", ' ', s4, BLANKS);
    StrtokIs("\r", ' ', s5, BLANKS);
    StrtokIs("\r", ' ', "x", BLANKS);
    FiveColumns(text);
    LineTakes(text, "\r", "\r", "\r", "\r", "\r");
  }

  lemma PlainLine(s: string)
    requires NoneOf(s, "\n\0")
    ensures LineText(s) == s
  {
    assert '\n' in "\n\0" && '\0' in "\n\0";
  }

  lemma LineTakes(line: string, blk: string, mount: string, fs: string, options: string, mgr: string)
    requires Lead(LineText(line)) !in {None, Some('#')}
    requires var ts := Tokens(LineText(line), BLANKS);
      |ts| >= 5 && ts[0] == blk && ts[1] == mount && ts[2] == fs && ts[3] == options && ts[4] == mgr
    ensures LineOf(line) == Entry(RecOf(blk, mount, fs, options, mgr))
  {
    hide Tokens, RecOf, LineText;
  }

  lemma OneLine(text: string)
    requires text != "" && NoneOf(text, "\n\0")
    ensures LinesOf(text) == [text]
  {
    assert '\n' in "\n\0";
  }

  lemma InvisibleShown()
    ensures RereadShown([RecOf("\r", "\r", "\r", "\r", "\r")], [], false) == []
  {
    assert Lead("\r") == None by { assert "\r"[1..] == ""; }
    RowLead("\r", "\r", "\r", "\r", "\r");
    hide Lead, RowLine, Flags, Reread;
    assert [RecOf("\r", "\r", "\r", "\r", "\r")][1..] == [];
  }

  lemma JustOne(text: string, r: Rec)
    requires LinesOf(text) == [text] && RecsOf([text] + []) == Joined([r], RecsOf([]))
    ensures Fstab(text) == Some([r])
  {
    assert [text] + [] == [text] && RecsOf([]) == Some([]) && [r] + [] == [r];
    hide LinesOf, LineOf;
  }

  lemma NoFile(text: string)
    requires RecsOf(LinesOf(text)) == Some([])
    ensures Fstab(text) == None
  {
  }

  // ---------- what is kept ----------

  /** "remount," in front of a list of options adds one flag and changes nothing else. */
  lemma RemountFlags(options: string)
    ensures var f, g := Flags(options, MOUNT_FLAGS, false), Flags(REMOUNT + options, MOUNT_FLAGS, false);
      g.bits == f.bits + {MS_REMOUNT} && g.options == f.options && g.values == f.values
  {
    hide *;
    RemountTokens(options);
    RemountFlag();
    FlagFirst(Parsed({}, "", NO_VALUES), "remount", Tokens(options, ","), MOUNT_FLAGS, Flag("remount", MS_REMOUNT));
    BitsApart(Parsed({}, "", NO_VALUES), Parsed({} + {MS_REMOUNT}, "", NO_VALUES), Tokens(options, ","));
    FlagsAre(options, MOUNT_FLAGS, false);
    FlagsAre(REMOUNT + options, MOUNT_FLAGS, false);
    RemountBit();
    TrimmedAlike(ParseTokens(Parsed({}, "", NO_VALUES), Tokens(options, ","), MOUNT_FLAGS, false), MS_REMOUNT);
  }

  lemma RemountBit()
    ensures MS_REMOUNT != 0 && MS_BIND != 0
  {
  }

  lemma TrimmedAlike(a: Parsed, bit: int)
    ensures Trimmed(a.(bits := a.bits + {bit})) == Trimmed(a).(bits := Trimmed(a).bits + {bit})
  {
  }

  lemma FlagsAre(text: string, table: seq<Flag>, values: bool)
    ensures Flags(text, table, values) == Trimmed(ParseTokens(Parsed({}, "", NO_VALUES), Tokens(text, ","), table,
      values))
  {
    hide Trimmed, ParseTokens, Tokens;
  }

  lemma RemountTokens(options: string)
    ensures Tokens(REMOUNT + options, ",") == ["remount"] + Tokens(options, ",")
  {
    hide Strtok;
    StrtokIs("remount", ',', options, ",");
    assert REMOUNT + options == "remount" + ([','] + options);
  }

  lemma OneToken(p: string)
    requires p != "" && NoneOf(p, ",")
    ensures Tokens(p, ",") == [p]
  {
    hide Strtok;
    StrtokIs(p, ',', "", ",");
    assert Tokens("", ",") == [];
  }

  /** A flag at the head of a list of tokens. */
  lemma FlagFirst(a: Parsed, p: string, ts: seq<string>, table: seq<Flag>, flag: Flag)
    requires FindFlag(p, table) == Some(flag)
    ensures ParseTokens(a, [p] + ts, table, false)
      == ParseTokens(if flag.bit == 0 then a else a.(bits := a.bits + {flag.bit}), ts, table, false)
    ensures forall values :: ParseTokens(a, [p], table, values).bits == if flag.bit == 0 then a.bits
      else a.bits + {flag.bit}
    ensures forall values :: ParseTokens(a, [p], table, values).options == a.options
  {
    hide FindFlag, WithValue;
    assert ([p] + ts)[0] == p && ([p] + ts)[1..] == ts;
    assert [p][1..] == [];
    assert ParseFlag(a, p, table, false) == if flag.bit == 0 then a else a.(bits := a.bits + {flag.bit});
  }

  /** The entry found is the first whose name begins the word. */
  lemma {:induction false} FindAt(p: string, table: seq<Flag>, k: nat)
    requires k < |table| && table[k].name <= p && forall j :: 0 <= j < k ==> !(table[j].name <= p)
    ensures FindFlag(p, table) == Some(table[k])
  {
    if k > 0 {
      assert forall j :: 0 <= j < k - 1 ==> table[1..][j] == table[j + 1];
      FindAt(p, table[1..], k - 1);
    }
  }

  /** None of the entries before it in the table begins the word. */
  lemma RemountFlag()
    ensures FindFlag("remount", MOUNT_FLAGS) == Some(Flag("remount", MS_REMOUNT))
  {
    hide FindFlag;
    var p := "remount";
    assert forall j :: 0 <= j < 7 ==>
      |MOUNT_FLAGS[j].name| >= 2 && (MOUNT_FLAGS[j].name[0] != p[0] || MOUNT_FLAGS[j].name[1] != p[1]);
    FindAt(p, MOUNT_FLAGS, 7);
  }

  lemma BindFlag()
    ensures FindFlag("bind", MOUNT_FLAGS) == Some(Flag("bind", MS_BIND))
  {
    hide FindFlag;
    var p := "bind";
    assert forall j :: 0 <= j < 8 ==> |MOUNT_FLAGS[j].name| >= 2 && MOUNT_FLAGS[j].name[0] != p[0];
    FindAt(p, MOUNT_FLAGS, 8);
  }

  lemma {:induction false} BitsApart(a: Parsed, b: Parsed, ts: seq<string>)
    requires b == a.(bits := a.bits + {MS_REMOUNT})
    ensures var c, d := ParseTokens(a, ts, MOUNT_FLAGS, false), ParseTokens(b, ts, MOUNT_FLAGS, false);
      d == c.(bits := c.bits + {MS_REMOUNT})
    decreases |ts|
  {
    if ts != [] {
      var a1, b1 := ParseFlag(a, ts[0], MOUNT_FLAGS, false), ParseFlag(b, ts[0], MOUNT_FLAGS, false);
      var f := FindFlag(ts[0], MOUNT_FLAGS);
      hide FindFlag;
      if f.Some? { assert a.bits + {MS_REMOUNT} + {f.value.bit} == a.bits + {f.value.bit} + {MS_REMOUNT}; }
      BitsApart(a1, b1, ts[1..]);
    }
  }

  /** A record's first row keeps its mount point, type and fs_mgr columns; only a match with a multiboot entry changes
      its device, and only a bind match its options. */
  lemma MainRowKept(r: Rec, mb: seq<Rec>, enabled: bool)
    requires WellFormed(r)
    ensures var q, e := Reread(r, mb, enabled)[0], EntryFor(mb, r.mountPoint);
      && q.mountPoint == r.mountPoint && q.fsType == r.fsType
      && q.mgrText == r.mgrText && q.mgrFlags == r.mgrFlags && q.values == r.values
      && (!(enabled && e.Some? && MF_MULTIBOOT in e.value.mgrFlags) ==> q == r)
      && (enabled && e.Some? && MF_MULTIBOOT in e.value.mgrFlags ==> q.blkDevice == e.value.replacementDevice)
      && (enabled && e.Some? && MF_MULTIBOOT in e.value.mgrFlags && e.value.replacementBind ==>
        q.optionsText == "bind" && q.mountFlags == {MS_BIND})
      && (!(e.Some? && e.value.replacementBind) ==> q.mountFlags == r.mountFlags && q.fsOptions == r.fsOptions)
  {
    BindFlags();
    hide Flags;
  }

  lemma BindFlags()
    ensures Flags("bind", MOUNT_FLAGS, false) == Parsed({MS_BIND}, "", NO_VALUES)
  {
    hide *;
    BindOneToken();
    BindFlag();
    RemountBit();
    FlagsAre("bind", MOUNT_FLAGS, false);
    NoFlags(Parsed({} + {MS_BIND}, "", NO_VALUES));
    FlagFirst(Parsed({}, "", NO_VALUES), "bind", [], MOUNT_FLAGS, Flag("bind", MS_BIND));
    assert ["bind"] + [] == ["bind"];
    assert {} + {MS_BIND} == {MS_BIND};
  }

  lemma BindOneToken()
    ensures Tokens("bind", ",") == ["bind"]
  {
    OneToken("bind");
  }

  lemma NoFlags(a: Parsed)
    ensures ParseTokens(a, [], MOUNT_FLAGS, false) == a && (a.options == "" ==> Trimmed(a) == a)
  {
  }

  /** The extra row: exactly after a bind match other than /system; the original mount flags and MS_REMOUNT, the same
      options of the file system. */
  lemma RemountRow(r: Rec, mb: seq<Rec>, enabled: bool)
    requires WellFormed(r)
    ensures var e, rows := EntryFor(mb, r.mountPoint), Reread(r, mb, enabled);
      var bind := enabled && e.Some? && MF_MULTIBOOT in e.value.mgrFlags && e.value.replacementBind
        && r.mountPoint != "/system";
      && |rows| == (if bind then 2 else 1)
      && (bind ==>
        && rows[1].blkDevice == e.value.replacementDevice && rows[1].mountPoint == r.mountPoint
          && rows[1].fsType == r.fsType
        && rows[1].mountFlags == r.mountFlags + {MS_REMOUNT} && rows[1].fsOptions == r.fsOptions)
  {
    RemountFlags(r.optionsText);
    hide Flags;
  }

  lemma TrimmedBits(a: Parsed)
    ensures Trimmed(a).bits == a.bits
  {
  }
}
