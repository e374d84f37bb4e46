/** save.c and read.c on the cache itself. */
module CacheReadWrite {
  import opened Wrappers
  import opened TagIndex
  import opened TagCache
  import opened DevCache
  import opened DevGet
  import opened CacheRun
  import opened CNumber
  import opened CacheText
  import opened CacheFile
  import opened CacheParse

  ghost function FieldsOf(d: Dev): Fields
    reads d`devno, d`time, d`utime, d`pri, d`tags, d.tags`val
  {
    Fields(d.devno, d.time, d.utime, d.pri, d.Pairs())
  }

  // ---------- what the other devices hold ----------

  ghost function Contents(ds: seq<Dev>): map<Dev, Fields>
    reads ds`devno, ds`time, ds`utime, ds`pri, ds`tags, TagsOf(ds)`val
  {
    map d | d in ds :: FieldsOf(d)
  }

  /** Every device but `dev` holds what it held. */
  ghost predicate Untouched(ds: seq<Dev>, dev: Dev?, was: map<Dev, Fields>)
    reads ds`devno, ds`time, ds`utime, ds`pri, ds`tags, TagsOf(ds)`val
  {
    forall d: Dev :: d in ds && d != dev ==> d in was && was[d] == FieldsOf(d)
  }

  /** `was`, taken apart into numbers and tags. */
  ghost predicate WasParts(ds: seq<Dev>, dev: Dev?, was: map<Dev, Fields>, nums: seq<Nums>, snap: map<Dev, Snap>) {
    |nums| == |ds| && forall j :: 0 <= j < |ds| && ds[j] != dev ==>
      ds[j] in was && ds[j] in snap
      && was[ds[j]] == Fields(nums[j].devno, nums[j].time, nums[j].utime, nums[j].pri, snap[ds[j]].pairs)
  }

  lemma PartsBefore(ds: seq<Dev>, dev: Dev?, was: map<Dev, Fields>)
    requires Untouched(ds, dev, was)
    ensures WasParts(ds, dev, was, Numbers(ds), Snapshot(ds))
  {
  }

  lemma PartsAfter(ds: seq<Dev>, dev: Dev?, was: map<Dev, Fields>, nums: seq<Nums>, snap: map<Dev, Snap>)
    requires WasParts(ds, dev, was, nums, snap) && Numbers(ds) == nums && Same(ds, dev, snap)
    ensures Untouched(ds, dev, was)
  {
    forall d: Dev | d in ds && d != dev ensures d in was && was[d] == FieldsOf(d) {
      var j :| 0 <= j < |ds| && ds[j] == d;
    }
  }

  lemma FieldsByNumbers(ds: seq<Dev>, dev: Dev, nums: seq<Nums>, f: Fields)
    requires dev in ds && |nums| == |ds| && forall j :: 0 <= j < |ds| && ds[j] == dev ==>
      nums[j] == Nums(f.devno, f.time, f.utime, f.pri)
    requires Numbers(ds) == nums
    ensures FieldsOf(dev) == f.(pairs := dev.Pairs())
  {
    var j :| 0 <= j < |ds| && ds[j] == dev;
    hide Dev.Pairs;
  }

  // ---------- writing ----------

  /** save_quoted(); the stream is the text written so far. */
  method SaveQuoted(data: string, file0: string) returns (file: string)
    ensures file == file0 + Quoted(data)
  {
    file := file0 + "\"";
    assert data[..0] == "" && file == file0 + ("\"" + Escape(data[..0]));
    for p := 0 to |data|
      invariant file == file0 + ("\"" + Escape(data[..p]))
    {
      EscapeNext(data, p);
      ghost var before := Escape(data[..p]);
      if data[p] == '"' || data[p] == '\\' {
        file := file + "\\";
      }
      file := file + [data[p]];
      assert file == file0 + ("\"" + (before + EscapeChar(data[p])));
    }
    assert data[..|data|] == data;
    file := file + "\"";
  }

  lemma EscapeNext(data: string, p: nat)
    requires p < |data|
    ensures Escape(data[..p + 1]) == Escape(data[..p]) + EscapeChar(data[p])
  {
    assert data[..p + 1] == data[..p] + [data[p]];
    EscapeParts(data[..p], [data[p]]);
    assert [data[p]][1..] == "";
    assert Escape([data[p]]) == EscapeChar(data[p]);
  }

  lemma {:induction false} EscapeParts(a: string, b: string)
    ensures Escape(a + b) == Escape(a) + Escape(b)
  {
    if a == "" {
      assert a + b == b;
    } else {
      assert (a + b)[1..] == a[1..] + b;
      EscapeParts(a[1..], b);
      Assoc(EscapeChar(a[0]), Escape(a[1..]), Escape(b));
    }
  }

  lemma {:induction false} AttrsParts(a: seq<Pair>, b: seq<Pair>)
    ensures AttrsText(a + b) == AttrsText(a) + AttrsText(b)
  {
    if a == [] {
      assert a + b == b;
    } else {
      assert (a + b)[1..] == a[1..] + b;
      AttrsParts(a[1..], b);
      Assoc(AttrText(a[0]), AttrsText(a[1..]), AttrsText(b));
    }
  }

  lemma AttrsOne(p: Pair)
    ensures AttrsText([p]) == AttrText(p)
  {
    hide AttrText;
    assert [p][1..] == [];
  }

  /** fprintf() of one attribute whose text needs no escaping. */
  method SaveNumber(file0: string, name: string, value: string) returns (file: string)
    requires Plain(value)
    ensures file == file0 + AttrText((name, value))
  {
    PlainEscape(value);
    file := file0 + " " + name + "=\"" + value + "\"";
  }

  lemma {:induction false} PlainEscape(s: string)
    requires Plain(s)
    ensures Escape(s) == s
  {
    if s != "" {
      assert Plain(s[1..]) by { assert forall i :: 0 <= i < |s| - 1 ==> s[1..][i] == s[i + 1]; }
      PlainEscape(s[1..]);
      assert s == [s[0]] + s[1..];
    }
  }

  /** save_dev() */
  method SaveDev(dev: Dev, file0: string) returns (file: string)
    ensures file == file0 + SaveText(dev.name, FieldsOf(dev))
  {
    if dev.name == "" || dev.name[0] != '/' {
      return file0;
    }
    hide *;
    ghost var f := FieldsOf(dev);
    file := SaveHead(dev, file0);
    FieldsPairs(dev);
    for p := 0 to |dev.tags|
      invariant file == file0 + (DEVICE + AttrsText(HeadAttrs(f) + f.pairs[..p]))
    {
      var tag := dev.tags[p];
      TagNext(f, HeadAttrs(f), p);
      file := SaveTag(tag.name, tag.val, file);
      Append(file0, AttrsText(HeadAttrs(f) + f.pairs[..p]), AttrText(f.pairs[p]));
    }
    assert f.pairs[..|dev.tags|] == f.pairs;
    file := file + ">" + dev.name + "</device>\n";
    SaveTextIs(dev.name, f, file0);
  }

  lemma FieldsPairs(dev: Dev)
    ensures var f := FieldsOf(dev);
      |f.pairs| == |dev.tags| && (forall i :: 0 <= i < |dev.tags| ==> f.pairs[i] == (dev.tags[i].name, dev.tags[i].val))
      && HeadAttrs(f) + f.pairs[..0] == HeadAttrs(f)
  {
    hide HeadAttrs;
  }

  lemma Append(file0: string, x: string, y: string)
    ensures (file0 + (DEVICE + x)) + y == file0 + (DEVICE + (x + y))
  {
    Assoc(file0, DEVICE + x, y);
    Assoc(DEVICE, x, y);
  }

  lemma SaveTextIs(name: string, f: Fields, file0: string)
    requires name != "" && name[0] == '/'
    ensures var a := AttrsText(HeadAttrs(f) + f.pairs);
      file0 + SaveText(name, f) == (file0 + (DEVICE + a)) + ">" + name + "</device>\n"
  {
    hide AttrsText, HeadAttrs;
    var a := AttrsText(HeadAttrs(f) + f.pairs);
    var t := ">" + name + TRAILER + "\n";
    assert SaveText(name, f) == (DEVICE + a) + t;
    Assoc(file0, DEVICE + a, t);
  }

  lemma TagNext(f: Fields, head: seq<Pair>, p: nat)
    requires p < |f.pairs|
    ensures AttrsText(head + f.pairs[..p + 1]) == AttrsText(head + f.pairs[..p]) + AttrText(f.pairs[p])
  {
    hide AttrsText, AttrText;
    AttrsOne(f.pairs[p]);
    AttrsParts(head + f.pairs[..p], [f.pairs[p]]);
    assert head + f.pairs[..p + 1] == (head + f.pairs[..p]) + [f.pairs[p]];
  }

  /** One tag: NAME="VALUE". */
  method SaveTag(name: string, val: string, file0: string) returns (file: string)
    ensures file == file0 + AttrText((name, val))
  {
    hide Quoted;
    file := file0 + " ";
    file := file + name;
    file := file + "=";
    ghost var before := file;
    file := SaveQuoted(val, file);
    assert before == file0 + (" " + name + "=");
    assert AttrText((name, val)) == (" " + name + "=") + Quoted(val);
  }

  /** The device number, the times and, unless it is zero, the priority. */
  method SaveHead(dev: Dev, file0: string) returns (file: string)
    ensures file == file0 + (DEVICE + AttrsText(HeadAttrs(FieldsOf(dev))))
  {
    hide *;
    ghost var f := FieldsOf(dev);
    ghost var a, b, c := ("DEVNO", Hex4(dev.devno)), ("TIME", Dec(dev.time) + "." + Dec(dev.utime)),
        ("PRI", Dec(dev.pri));
    HeadText(dev, a, b, c);
    file := file0 + DEVICE;
    assert DEVICE + "" == DEVICE && "" + AttrText(a) == AttrText(a);
    file := SaveNumber(file, "DEVNO", Hex4(dev.devno));
    Append(file0, "", AttrText(a));
    file := SaveNumber(file, "TIME", Dec(dev.time) + "." + Dec(dev.utime));
    Append(file0, AttrText(a), AttrText(b));
    if dev.pri != 0 {
      file := SaveNumber(file, "PRI", Dec(dev.pri));
      Append(file0, AttrText(a) + AttrText(b), AttrText(c));
    }
  }

  lemma HeadText(dev: Dev, a: Pair, b: Pair, c: Pair)
    requires a == ("DEVNO", Hex4(dev.devno)) && b == ("TIME", Dec(dev.time) + "." + Dec(dev.utime))
      && c == ("PRI", Dec(dev.pri))
    ensures Plain(a.1) && Plain(b.1) && Plain(c.1)
    ensures AttrsText(HeadAttrs(FieldsOf(dev))) == AttrText(a) + AttrText(b) + if dev.pri != 0 then AttrText(c) else ""
  {
    hide Dec, Hex4;
    NumbersPlain(dev.time, dev.devno);
    NumbersPlain(dev.utime, 0);
    NumbersPlain(dev.pri, 0);
    var f := FieldsOf(dev);
    HeadAttrsAre(f, a, b, c);
    assert Plain(b.1);
    hide *;
    AttrsOne(a);
    AttrsOne(b);
    AttrsOne(c);
    AttrsParts([a], [b]);
    AttrsParts([a] + [b], [c]);
  }

  /** What blkid_flush_cache() writes for a device: nothing unless it has a type and is not removable. */
  ghost function DevText(d: Dev): string
    reads d`bidType, d`removable, d`devno, d`time, d`utime, d`pri, d`tags, d.tags`val
  {
    if d.bidType.Some? && !d.removable then SaveText(d.name, FieldsOf(d)) else ""
  }

  ghost function FlushText(ds: seq<Dev>): string
    reads ds, TagsOf(ds)`val
  {
    if ds == [] then "" else DevText(ds[0]) + FlushText(ds[1..])
  }

  ghost function Texts(ds: seq<Dev>): (r: seq<string>)
    reads ds, TagsOf(ds)`val
    ensures |r| == |ds| && forall i :: 0 <= i < |ds| ==> r[i] == DevText(ds[i])
  {
    if ds == [] then [] else [DevText(ds[0])] + Texts(ds[1..])
  }

  function Concat(ts: seq<string>): string {
    if ts == [] then "" else ts[0] + Concat(ts[1..])
  }

  lemma {:induction false} FlushIsConcat(ds: seq<Dev>)
    ensures FlushText(ds) == Concat(Texts(ds))
  {
    if ds != [] {
      FlushIsConcat(ds[1..]);
      assert ([DevText(ds[0])] + Texts(ds[1..]))[1..] == Texts(ds[1..]);
    }
  }

  lemma {:induction false} ConcatNext(ts: seq<string>, p: nat)
    requires p < |ts|
    ensures Concat(ts[..p + 1]) == Concat(ts[..p]) + ts[p]
  {
    if p == 0 {
      assert ts[..1][1..] == [] && ts[..1][0] == ts[0] && ts[..0] == [];
    } else {
      ConcatNext(ts[1..], p - 1);
      assert ts[..p + 1][1..] == ts[1..][..p] && ts[..p][1..] == ts[1..][..p - 1];
      Assoc(ts[0], Concat(ts[1..][..p - 1]), ts[p]);
    }
  }

  /** blkid_flush_cache(): nothing is written for an empty or an unchanged cache; otherwise the devices, and the change
      is noted as saved. */
  method FlushCache(cache: Cache) returns (written: bool, file: string)
    modifies cache`changed
    ensures written <==> cache.devs != [] && old(cache.changed)
    ensures written ==> file == old(FlushText(cache.devs))
    ensures cache.changed == (old(cache.changed) && !written)
  {
    written, file := false, "";
    if cache.devs != [] && cache.changed {
      written := true;
      file := WriteDevs(cache);
      cache.changed := false;
    }
  }

  /** The writing loop. */
  method WriteDevs(cache: Cache) returns (file: string)
    ensures file == old(FlushText(cache.devs))
  {
    ghost var texts := Texts(cache.devs);
    FlushIsConcat(cache.devs);
    file := "";
    for p := 0 to |cache.devs|
      invariant file == Concat(texts[..p])
      invariant forall i :: 0 <= i < |cache.devs| ==> DevText(cache.devs[i]) == texts[i]
    {
      var dev := cache.devs[p];
      ConcatNext(texts, p);
      hide SaveText, Concat, Texts, FlushText;
      assert DevText(dev) == texts[p];
      if dev.bidType.Some? && !dev.removable {
        file := SaveDev(dev, file);
      }
    }
    assert texts[..|cache.devs|] == texts;
  }

  /** In a valid cache exactly the devices with a TYPE tag have a type. */
  lemma FlushedHaveType(cache: Cache, d: Dev)
    requires cache.Valid() && d in cache.devs
    ensures d.bidType.Some? <==> HasType(d.Pairs())
  {
    assert d.Shortcuts();
    LookupNone(d.Pairs(), "TYPE");
  }

  // ---------- reading ----------

  /** The C string at `i`, as a value. */
  method StrDup(buf: array<char>, i: nat, ghost s: string) returns (t: string)
    requires CStr(buf[..], i, s)
    ensures t == s && '\0' !in t
  {
    var n := StrLen(buf, i, s);
    t := buf[i..i + n];
  }

  /** blkid_set_tag() for one token. */
  method StoreTag(cache: Cache, dev: Dev, name: string, value: string, ghost k: set<object>, ghost was: map<Dev,
      Fields>)
    returns (ghost more: set<object>)
    requires cache.Valid() && dev in cache.devs && Within(cache, k) && '\0' !in value && Untouched(cache.devs, dev, was)
    modifies k
    ensures cache.Valid() && fresh(more) && Within(cache, k + more) && cache.devs == old(cache.devs)
    ensures FieldsOf(dev) == old(FieldsOf(dev)).(pairs := SetValue(old(FieldsOf(dev)).pairs, name, value))
    ensures Untouched(cache.devs, dev, was)
  {
    hide *;
    ghost var f, ds, nums, snap := FieldsOf(dev), cache.devs, Numbers(cache.devs), Snapshot(cache.devs);
    FieldsParts(dev, f);
    PartsBefore(ds, dev, was);
    WholeValue(value);
    StoredValue(value);
    SetValueIsSetPair(f.pairs, name, value);
    NumbersOf(ds, dev, f);
    more := StepSetTag(cache, dev, name, Some(value), |value|, k);
    PartsAfter(ds, dev, was, nums, snap);
    FieldsByNumbers(ds, dev, nums, f);
  }

  lemma NumbersOf(ds: seq<Dev>, dev: Dev, f: Fields)
    requires f == FieldsOf(dev)
    ensures forall j :: 0 <= j < |ds| && ds[j] == dev ==> Numbers(ds)[j] == Nums(f.devno, f.time, f.utime, f.pri)
  {
    hide Dev.Pairs;
  }

  /** The plain fields. */
  method StoreNumbers(cache: Cache, dev: Dev, devno: nat, pri: int, time: int, utime: int, ghost k: set<object>,
      ghost was: map<Dev, Fields>)
    requires cache.Valid() && Within(cache, k) && Untouched(cache.devs, dev, was)
    modifies dev`devno, dev`pri, dev`time, dev`utime, dev`removable
    ensures cache.Valid() && Within(cache, k) && Untouched(cache.devs, dev, was)
    ensures FieldsOf(dev) == Fields(devno, time, utime, pri, old(FieldsOf(dev)).pairs)
  {
    hide Cache.Valid, Within, PairsOf;
    StoreFields(cache, dev, devno, pri, time, utime, dev.removable, k);
  }

  /** The assignment of one token: a field of the device, or a tag. */
  method StoreToken(cache: Cache, dev: Dev, name: string, value: string, ghost k: set<object>, ghost was: map<Dev,
      Fields>)
    returns (ghost more: set<object>)
    requires cache.Valid() && dev in cache.devs && Within(cache, k) && '\0' !in value && Untouched(cache.devs, dev, was)
    modifies k
    ensures cache.Valid() && fresh(more) && Within(cache, k + more) && cache.devs == old(cache.devs)
    ensures FieldsOf(dev) == Apply(old(FieldsOf(dev)), name, value) && Untouched(cache.devs, dev, was)
  {
    hide *;
    more := {};
    assert k + {} == k;
    ghost var f := FieldsOf(dev);
    WithinDev(cache, k, dev);
    FieldsParts(dev, f);
    if name == "DEVNO" {
      StoreNumbers(cache, dev, StrToULL(value).0, dev.pri, dev.time, dev.utime, k, was);
    } else if name == "PRI" {
      StoreNumbers(cache, dev, dev.devno, Signed32(StrToL(value)), dev.time, dev.utime, k, was);
    } else if name == "TIME" {
      var end := StrToULL(value).1;
      var utime := dev.utime;
      if end != "" && end[0] == '.' {
        utime := Signed64(StrToULL(end[1..]).0);
      }
      StoreNumbers(cache, dev, dev.devno, dev.pri, Signed64(StrToULL(value).0), utime, k, was);
    } else {
      more := StoreTag(cache, dev, name, value, k, was);
    }
    FieldsParts(dev, FieldsOf(dev));
    ApplyIs(f, FieldsOf(dev), name, value);
  }

  lemma StoredValue(value: string)
    ensures TagCache.Stored(Some(value), |value|) == Some(StrNDup(value, |value|))
  {
  }

  lemma FieldsParts(dev: Dev, f: Fields)
    requires f == FieldsOf(dev)
    ensures f == Fields(dev.devno, dev.time, dev.utime, dev.pri, dev.Pairs())
  {
  }

  lemma ApplyIs(f: Fields, g: Fields, name: string, value: string)
    requires
      if name == "DEVNO" then g == f.(devno := StrToULL(value).0)
      else if name == "PRI" then g == f.(pri := Signed32(StrToL(value)))
      else if name == "TIME" then
        var end := StrToULL(value).1;
        g == f.(time := Signed64(StrToULL(value).0), utime := if end != ""
          && end[0] == '.' then Signed64(StrToULL(end[1..]).0) else f.utime)
      else g == f.(pairs := SetValue(f.pairs, name, value))
    ensures g == Apply(f, name, value)
  {
    hide StrToULL, StrToL, SetValue, Signed64, Signed32;
  }

  /** parse_tag(): 1 and the device changed, 0 when no token is left, an error; `over` when the cursor left the line. */
  method ParseTag(cache: Cache, dev: Dev, buf: array<char>, cp: nat, ghost s: string, ghost k: set<object>,
      ghost was: map<Dev, Fields>)
    returns (rc: int, over: bool, next: nat, ghost more: set<object>)
    requires cache.Valid() && dev in cache.devs && Within(cache, k) && buf !in k && CStr(buf[..], cp, s)
    requires Untouched(cache.devs, dev, was)
    modifies k, buf
    ensures cache.Valid() && fresh(more) && Within(cache, k + more) && cache.devs == old(cache.devs)
    ensures Untouched(cache.devs, dev, was)
    ensures over <==> TokenOf(s).Overrun?
    ensures !over && rc <= 0 ==> (rc == 0) == TokenOf(s).NoToken? && (rc < 0) == TokenOf(s).Bad?
    ensures over || rc <= 0 ==> FieldsOf(dev) == old(FieldsOf(dev))
    ensures !over && rc > 0 ==> TokenOf(s).Token? && CStr(buf[..], next, TokenOf(s).rest)
    ensures !over && rc > 0 ==> FieldsOf(dev) == Apply(old(FieldsOf(dev)), TokenOf(s).name, TokenOf(s).value)
  {
    hide *;
    more := {};
    assert k + {} == k;
    var name, value;
    rc, over, name, value, next := ReadToken(cache, dev, buf, cp, s, k, was);
    if over || rc <= 0 {
      return;
    }
    ghost var b := buf[..];
    more := StoreToken(cache, dev, name, value, k, was);
    assert buf[..] == b;
  }

  /** parse_token(), which leaves the cache alone; the name and value it found. */
  method ReadToken(cache: Cache, dev: Dev, buf: array<char>, cp: nat, ghost s: string, ghost k: set<object>,
      ghost was: map<Dev, Fields>)
    returns (rc: int, over: bool, name: string, value: string, next: nat)
    requires cache.Valid() && dev in cache.devs && Within(cache, k) && buf !in k && CStr(buf[..], cp, s)
    requires Untouched(cache.devs, dev, was)
    modifies buf
    ensures cache.Valid() && Within(cache, k) && FieldsOf(dev) == old(FieldsOf(dev)) && Untouched(cache.devs, dev, was)
    ensures over <==> TokenOf(s).Overrun?
    ensures !over && rc <= 0 ==> (rc == 0) == TokenOf(s).NoToken? && (rc < 0) == TokenOf(s).Bad?
    ensures !over && rc > 0 ==>
      TokenOf(s).Token? && name == TokenOf(s).name && value == TokenOf(s).value && '\0' !in value
    ensures !over && rc > 0 ==> CStr(buf[..], next, TokenOf(s).rest)
  {
    hide Lookup, PairsOf, Distinct, Snapshot, Dev.Shortcuts, TokenCut, CStr, TokenOf;
    rc, over, name, value, next := TokenStrings(buf, cp, s);
  }

  method TokenStrings(buf: array<char>, cp: nat, ghost s: string)
      returns (rc: int, over: bool, name: string, value: string, next: nat)
    requires CStr(buf[..], cp, s)
    modifies buf
    ensures over <==> TokenOf(s).Overrun?
    ensures !over && rc <= 0 ==> (rc == 0) == TokenOf(s).NoToken? && (rc < 0) == TokenOf(s).Bad?
    ensures !over && rc > 0 ==>
      TokenOf(s).Token? && name == TokenOf(s).name && value == TokenOf(s).value && '\0' !in value
    ensures !over && rc > 0 ==> CStr(buf[..], next, TokenOf(s).rest)
  {
    hide *;
    name, value := "", "";
    ghost var was := buf[..];
    var n, v;
    rc, over, n, v, next := ParseToken(buf, cp, s);
    TokenCases(buf[..], was, cp, s, rc, over, n, v, next);
    if !over && rc > 0 {
      name := StrDup(buf, n, TokenOf(s).name);
      value := StrDup(buf, v, TokenOf(s).value);
    }
  }

  lemma TokenCases(b: seq<char>, was: seq<char>, cp: nat, s: string, rc: int, over: bool, name: nat, value: nat,
      next: nat)
    requires TokenCut(b, was, cp, s, rc, over, name, value, next)
    ensures over <==> TokenOf(s).Overrun?
    ensures !over && rc <= 0 ==> (rc == 0) == TokenOf(s).NoToken? && (rc < 0) == TokenOf(s).Bad?
    ensures !over && rc > 0 ==> TokenOf(s).Token?
    ensures TokenOf(s).Token? ==>
      CStr(b, name, TokenOf(s).name) && CStr(b, value, TokenOf(s).value) && CStr(b, next, TokenOf(s).rest)
  {
    hide CStr, Outside, TokenOf;
  }

  /** The parse_tag() loop. */
  method ParseTags(cache: Cache, dev: Dev, buf: array<char>, cp0: nat, ghost s0: string, ghost k: set<object>,
      ghost was: map<Dev, Fields>)
    returns (rc: int, over: bool, ghost more: set<object>)
    requires cache.Valid() && dev in cache.devs && Within(cache, k) && buf !in k && CStr(buf[..], cp0, s0)
    requires Untouched(cache.devs, dev, was)
    modifies k, buf
    ensures cache.Valid() && fresh(more) && Within(cache, k + more) && cache.devs == old(cache.devs)
    ensures Untouched(cache.devs, dev, was)
    ensures FieldsOf(dev) == ReadAttrs(s0, old(FieldsOf(dev))).f
    ensures over <==> ReadAttrs(s0, old(FieldsOf(dev))).end.Overrun?
    ensures !over ==> rc <= 0 && (rc == 0) == ReadAttrs(s0, old(FieldsOf(dev))).end.NoToken?
  {
    hide *;
    ghost var f0 := FieldsOf(dev);
    ghost var s := s0;
    var cp := cp0;
    more := {};
    assert k + {} == k;
    rc, over := 1, false;
    while rc > 0 && !over
      invariant cache.Valid() && Within(cache, k + more) && fresh(more) && buf !in k + more
        && cache.devs == old(cache.devs)
      invariant Untouched(cache.devs, dev, was)
      invariant !over && rc > 0 ==> CStr(buf[..], cp, s) && ReadAttrs(s0, f0) == ReadAttrs(s, FieldsOf(dev))
      invariant over || rc <= 0 ==> ReadAttrs(s0, f0) == Attrs(FieldsOf(dev), TokenOf(s))
      invariant over ==> TokenOf(s).Overrun?
      invariant !over && rc <= 0 ==> (rc == 0) == TokenOf(s).NoToken? && !TokenOf(s).Overrun?
      decreases |s|, rc > 0 && !over
    {
      ghost var fresher;
      AttrsStep(s, FieldsOf(dev));
      rc, over, cp, fresher := ParseTag(cache, dev, buf, cp, s, k + more, was);
      assert k + more + fresher == k + (more + fresher);
      more := more + fresher;
      if rc > 0 && !over {
        s := TokenOf(s).rest;
      }
    }
  }

  lemma AttrsStep(s: string, f: Fields)
    ensures TokenOf(s).Token? ==> |TokenOf(s).rest| < |s|
    ensures TokenOf(s).Token? ==>
      ReadAttrs(s, f) == ReadAttrs(TokenOf(s).rest, Apply(f, TokenOf(s).name, TokenOf(s).value))
    ensures !TokenOf(s).Token? ==> ReadAttrs(s, f) == Attrs(f, TokenOf(s))
  {
    hide TokenOf, Apply;
  }

  const ERR_MEM: int := 12

  /** What blkid_parse_line() promises of a line that names a device. `f0` is what the device held before the line. */
  ghost predicate LineRead(cache: Cache, before: seq<Dev>, dev: Dev, attrs: string, f0: Fields, rc: int, over: bool)
    reads cache`devs, dev`devno, dev`time, dev`utime, dev`pri, dev`tags, dev.tags`val
  {
    var r := ReadAttrs(attrs, f0);
    && dev in before && over == r.end.Overrun?
    && (!over ==> rc <= 0 && (rc == 0) == r.end.NoToken?)
    && (over || HasType(r.f.pairs) ==> cache.devs == before && FieldsOf(dev) == r.f)
    && (!over && !HasType(r.f.pairs) ==> cache.devs == Without(before, dev))
  }

  /** The tags of the line, and `if (dev->bid_type == NULL) blkid_free_dev(dev)`. */
  method ReadDevice(cache: Cache, dev: Dev, buf: array<char>, cp: nat, ghost attrs: string, ghost k: set<object>,
      ghost was: map<Dev, Fields>)
    returns (rc: int, over: bool, ghost more: set<object>)
    requires cache.Valid() && dev in cache.devs && Within(cache, k) && buf !in k && CStr(buf[..], cp, attrs)
    requires Untouched(cache.devs, dev, was)
    modifies k, buf
    ensures cache.Valid() && fresh(more) && Within(cache, k + more)
    ensures Untouched(old(cache.devs), dev, was)
    ensures LineRead(cache, old(cache.devs), dev, attrs, old(FieldsOf(dev)), rc, over)
  {
    hide *;
    ghost var f0, before := FieldsOf(dev), cache.devs;
    rc, over, more := ParseTags(cache, dev, buf, cp, attrs, k, was);
    TypeThere(cache, dev);
    if !over && dev.bidType.None? {
      ghost var nums, snap := Numbers(before), Snapshot(before);
      PartsBefore(before, dev, was);
      StepFreeDev(cache, dev, k + more);
      PartsAfter(before, dev, was, nums, snap);
    }
    LineReadIs(cache, before, dev, attrs, f0, rc, over);
  }

  lemma TypeThere(cache: Cache, d: Dev)
    requires cache.Valid() && d in cache.devs
    ensures d.bidType.Some? <==> HasType(FieldsOf(d).pairs)
  {
    FlushedHaveType(cache, d);
  }

  lemma LineReadIs(cache: Cache, before: seq<Dev>, dev: Dev, attrs: string, f0: Fields, rc: int, over: bool)
    requires dev in before && over == ReadAttrs(attrs, f0).end.Overrun?
    requires !over ==> rc <= 0 && (rc == 0) == ReadAttrs(attrs, f0).end.NoToken?
    requires over || HasType(ReadAttrs(attrs, f0).f.pairs) ==>
      cache.devs == before && FieldsOf(dev) == ReadAttrs(attrs, f0).f
    requires !over && !HasType(ReadAttrs(attrs, f0).f.pairs) ==> cache.devs == Without(before, dev)
    ensures LineRead(cache, before, dev, attrs, f0, rc, over)
  {
    hide ReadAttrs, HasType, Without, FieldsOf;
  }

  /** parse_dev() with the lookup of the device: the cursor on its attributes. */
  method FindLineDev(cache: Cache, buf: array<char>, ghost line: string, accessible: string -> bool,
      ghost k: set<object>,
      ghost was: map<Dev, Fields>)
    returns (rc: int, dev: Dev?, cp: nat, ghost more: set<object>)
    requires cache.Valid() && Within(cache, k) && buf !in k && CStr(buf[..], 0, line)
      && Untouched(cache.devs, null, was)
    modifies k, buf
    ensures cache.Valid() && fresh(more) && Within(cache, k + more) && Untouched(old(cache.devs), null, was)
    ensures dev == null ==> cache.devs == old(cache.devs) && rc <= 0
    ensures dev == null <==>
      (LineOf(line).Line? ==> !Known(old(cache.devs), LineOf(line).name) && !accessible(LineOf(line).name))
    ensures dev == null ==> (rc == 0) == LineOf(line).Skip?
    ensures dev != null ==>
      LineOf(line).Line? && dev.name == LineOf(line).name && dev in cache.devs && CStr(buf[..], cp, LineOf(line).attrs)
    ensures dev != null && Known(old(cache.devs), dev.name) ==>
      dev in old(cache.devs) && cache.devs == old(cache.devs) && FieldsOf(dev) == old(FieldsOf(dev))
    ensures dev != null && !Known(old(cache.devs), dev.name) ==>
      fresh(dev) && cache.devs == old(cache.devs) + [dev] && FieldsOf(dev) == NEW
  {
    assert ERR_MEM > 0;
    hide *;
    var name;
    WithinSelf(cache, k);
    rc, name, cp := ReadHeader(cache, buf, line, k, was);
    LineCases(buf[..], line, rc, name, cp);
    dev, more := null, {};
    assert k + {} == k;
    if rc <= 0 {
      return;
    }
    dev, more := LineDev(cache, name, accessible(name), k, was);
    if dev == null {
      rc := -ERR_MEM;
    }
  }

  /** blkid_get_dev(cache, name, BLKID_DEV_CREATE) */
  method LineDev(cache: Cache, name: string, accessible: bool, ghost k: set<object>, ghost was: map<Dev, Fields>)
    returns (dev: Dev?, ghost more: set<object>)
    requires cache.Valid() && Within(cache, k) && Untouched(cache.devs, null, was)
    modifies cache`devs, cache`changed
    ensures cache.Valid() && fresh(more) && Within(cache, k + more) && Untouched(old(cache.devs), null, was)
    ensures dev == null ==> cache.devs == old(cache.devs)
    ensures dev == null <==> !Known(old(cache.devs), name) && !accessible
    ensures dev != null ==> dev.name == name && dev in cache.devs
    ensures dev != null && Known(old(cache.devs), name) ==>
      dev in old(cache.devs) && cache.devs == old(cache.devs) && FieldsOf(dev) == old(FieldsOf(dev))
    ensures dev != null && !Known(old(cache.devs), name) ==>
      fresh(dev) && cache.devs == old(cache.devs) + [dev] && FieldsOf(dev) == NEW
  {
    hide *;
    ghost var ds, nums, snap := cache.devs, Numbers(cache.devs), Snapshot(cache.devs);
    PartsBefore(ds, null, was);
    KnownIs(ds, name);
    assert allocated(TagsOf(ds));
    WithinParts(cache, k);
    ghost var tags := TagsOf(ds);
    EachUntouched(ds, was);
    dev := FindOrCreate(cache, name, true, accessible);
    more := if dev == null || dev in ds then {} else {dev};
    PartsAfter(ds, null, was, nums, snap);
    EachUntouched(ds, was);
    AllTagsKnown(cache.devs);
    WithinAgain(cache, k + more, tags);
    if dev != null && dev !in ds { NewFields(dev); }
  }

  lemma KnownIs(ds: seq<Dev>, name: string)
    ensures Known(ds, name) <==> exists d: Dev :: d in ds && d.name == name
  {
  }

  lemma EachUntouched(ds: seq<Dev>, was: map<Dev, Fields>)
    requires Untouched(ds, null, was)
    ensures forall d: Dev :: d in ds ==> d in was && was[d] == FieldsOf(d)
  {
    hide FieldsOf;
  }

  lemma NewFields(dev: Dev)
    requires dev.tags == [] && dev.devno == 0 && dev.time == INT_MIN && dev.utime == 0 && dev.pri == 0
    ensures FieldsOf(dev) == NEW
  {
  }

  /** parse_dev() leaves the cache alone up to that lookup. */
  method ReadHeader(cache: Cache, buf: array<char>, ghost line: string, ghost k: set<object>, ghost was: map<Dev,
      Fields>)
    returns (rc: int, name: string, cp: nat)
    requires cache.Valid() && Within(cache, k) && buf !in k && CStr(buf[..], 0, line)
      && Untouched(cache.devs, null, was)
    modifies buf
    ensures cache.Valid() && Within(cache, k) && LineCut(buf[..], line, rc, name, cp)
      && Untouched(cache.devs, null, was)
    ensures forall d: Dev :: d in cache.devs ==> FieldsOf(d) == old(FieldsOf(d))
  {
    hide Lookup, PairsOf, Distinct, Snapshot, Dev.Shortcuts, LineCut, CStr;
    rc, name, cp := ParseDev(buf, line);
  }

  lemma LineCases(b: seq<char>, line: string, rc: int, name: string, cp: nat)
    requires LineCut(b, line, rc, name, cp)
    ensures (rc > 0) == LineOf(line).Line? && (rc == 0) == LineOf(line).Skip?
    ensures rc > 0 ==> name == LineOf(line).name && CStr(b, cp, LineOf(line).attrs)
  {
    hide LineOf, CStr;
  }

  ghost predicate Known(ds: seq<Dev>, name: string) { exists d: Dev :: d in ds && d.name == name }

  /** blkid_parse_line() on a valid cache: nothing for a line without a device; otherwise the device it names, found or
      created, gets the line's fields and tags, and is freed again when that leaves it without a TYPE. */
  method ParseLine(cache: Cache, buf: array<char>, ghost line: string, accessible: string -> bool, ghost k: set<object>)
    returns (rc: int, over: bool, dev: Dev?, ghost more: set<object>)
    requires cache.Valid() && Within(cache, k) && buf !in k && CStr(buf[..], 0, line)
    modifies k, buf
    ensures cache.Valid() && fresh(more) && Within(cache, k + more)
    ensures Untouched(old(cache.devs), dev, old(Contents(cache.devs)))
    ensures dev == null <==>
      (LineOf(line).Line? ==> !Known(old(cache.devs), LineOf(line).name) && !accessible(LineOf(line).name))
    ensures dev == null ==> cache.devs == old(cache.devs) && !over && rc <= 0 && (rc == 0) == LineOf(line).Skip?
    ensures dev != null ==> dev.name == LineOf(line).name
    ensures dev != null && Known(old(cache.devs), dev.name) ==> dev in old(cache.devs)
    ensures dev != null && Known(old(cache.devs), dev.name) ==>
      LineRead(cache, old(cache.devs), dev, LineOf(line).attrs, old(FieldsOf(dev)), rc, over)
    ensures dev != null && !Known(old(cache.devs), dev.name) ==>
      LineRead(cache, old(cache.devs) + [dev], dev, LineOf(line).attrs, NEW, rc, over)
  {
    hide *;
    ghost var ds, was := cache.devs, Contents(cache.devs);
    AllContents(ds);
    var cp;
    rc, dev, cp, more := FindLineDev(cache, buf, line, accessible, k, was);
    over := false;
    if dev == null {
      return;
    }
    ghost var now := cache.devs;
    ghost var rest;
    OthersOf(ds, now, dev, was);
    rc, over, rest := ReadDevice(cache, dev, buf, cp, LineOf(line).attrs, k + more, was);
    OthersIn(ds, now, dev, was);
    assert k + more + rest == k + (more + rest);
    more := more + rest;
  }

  lemma AllContents(ds: seq<Dev>)
    ensures Untouched(ds, null, Contents(ds))
  {
    hide FieldsOf;
  }

  lemma OthersOf(ds: seq<Dev>, now: seq<Dev>, dev: Dev, was: map<Dev, Fields>)
    requires Untouched(ds, null, was) && (now == ds || now == ds + [dev])
    ensures Untouched(now, dev, was)
  {
    hide FieldsOf;
  }

  lemma OthersIn(ds: seq<Dev>, now: seq<Dev>, dev: Dev, was: map<Dev, Fields>)
    requires Untouched(now, dev, was) && (now == ds || now == ds + [dev])
    ensures Untouched(ds, dev, was)
  {
    hide FieldsOf;
  }

  /** A line that save_dev() wrote, of a device whose name and tags the line can carry. */
  ghost predicate SavedLine(line: string, e: Entry) {
    line == SaveText(e.0, e.1) && Printable(e.0, e.1) && UniqueNames(e.1.pairs) && HasType(e.1.pairs)
  }

  /** Reading a line. When it is the line of a saved device that the cache does not hold, the device is there again,
      last in the ring, with its name, numbers and tags, provided its file is accessible. */
  method ReadSaved(cache: Cache, buf: array<char>, ghost line: string, ghost e: Entry, accessible: string -> bool,
      ghost k: set<object>)
    returns (over: bool, dev: Dev?, ghost more: set<object>)
    requires cache.Valid() && Within(cache, k) && buf !in k && CStr(buf[..], 0, line)
    modifies k, buf
    ensures cache.Valid() && fresh(more) && Within(cache, k + more)
    ensures SavedLine(line, e) && !Known(old(cache.devs), e.0) ==>
      && !over && (dev != null <==> accessible(e.0))
      && (dev != null ==> dev.name == e.0 && FieldsOf(dev) == e.1 && cache.devs == old(cache.devs) + [dev])
      && (dev == null ==> cache.devs == old(cache.devs))
    ensures Untouched(old(cache.devs), dev, old(Contents(cache.devs)))
    ensures LineStep(old(cache.devs), old(Contents(cache.devs)), cache.devs, line, dev, Held(dev))
    ensures LineExact(old(cache.devs), old(Contents(cache.devs)), cache.devs, line, accessible, over, dev, Held(dev))
  {
    hide *;
    ghost var ds, was := cache.devs, Contents(cache.devs);
    SavedBack(line, e);
    ContentsAre(ds);
    var rc;
    rc, over, dev, more := ParseLine(cache, buf, line, accessible, k);
    HeldIs(dev);
    StepIs(cache, ds, was, line, dev, Held(dev), rc, over);
    ExactIs(cache, ds, was, line, accessible, dev, Held(dev), rc, over);
    if dev != null && SavedLine(line, e) && !Known(ds, e.0) {
      LineReadBack(cache, ds + [dev], dev, LineOf(line).attrs, e.1, rc, over);
    }
  }

  lemma SavedBack(line: string, e: Entry)
    ensures SavedLine(line, e) ==>
      LineOf(line).Line? && LineOf(line).name == e.0 && HasType(e.1.pairs)
      && ReadAttrs(LineOf(line).attrs, NEW) == Attrs(e.1, NoToken)
  {
    if SavedLine(line, e) { SaveReadsBack(e.0, e.1); }
    hide LineOf, ReadAttrs, SaveText, Printable, HasType, UniqueNames;
  }

  lemma LineReadBack(cache: Cache, before: seq<Dev>, dev: Dev, attrs: string, f: Fields, rc: int, over: bool)
    requires LineRead(cache, before, dev, attrs, NEW, rc, over) && ReadAttrs(attrs, NEW) == Attrs(f, NoToken)
      && HasType(f.pairs)
    ensures cache.devs == before && FieldsOf(dev) == f && !over
  {
    hide ReadAttrs, HasType, FieldsOf;
  }

  /** What reading any line does to the ring, given what its devices held before; `held` is what `dev` holds after. */
  ghost predicate LineStep(ds: seq<Dev>, was: map<Dev, Fields>, now: seq<Dev>, line: string, dev: Dev?, held: Fields) {
    if dev == null then now == ds
    else
      && LineOf(line).Line? && dev.name == LineOf(line).name
      && if dev in ds then
           now == Without<Dev>(ds, dev)
           || (now == ds && dev in was && held == ReadAttrs(LineOf(line).attrs, was[dev]).f)
         else now == ds || (now == ds + [dev] && held == ReadAttrs(LineOf(line).attrs, NEW).f)
  }

  /** ... and exactly which of these, and when the cursor leaves the line. */
  ghost predicate LineExact(ds: seq<Dev>, was: map<Dev, Fields>, now: seq<Dev>, line: string,
      accessible: string -> bool, over: bool, dev: Dev?, held: Fields)
  {
    var l := LineOf(line);
    if dev == null then now == ds && !over && (l.Line? ==> !Known(ds, l.name) && !accessible(l.name))
    else
      && l.Line? && dev.name == l.name && (dev in ds <==> Known(ds, l.name)) && (dev in ds ==> dev in was)
      && (dev !in ds ==> accessible(l.name))
      && var before, r := if dev in ds then ds else ds + [dev], ReadAttrs(l.attrs, if dev in ds then was[dev] else NEW);
      && over == r.end.Overrun? && (over || HasType(r.f.pairs) ==> now == before && held == r.f)
      && (!over && !HasType(r.f.pairs) ==> dev in before && now == Without<Dev>(before, dev))
  }

  lemma LineExactIs(ds: seq<Dev>, was: map<Dev, Fields>, now: seq<Dev>, line: string, accessible: string -> bool,
      over: bool, dev: Dev?, held: Fields)
    requires LineExact(ds, was, now, line, accessible, over, dev, held)
    ensures dev == null ==>
      now == ds && !over && (LineOf(line).Line? ==> !Known(ds, LineOf(line).name) && !accessible(LineOf(line).name))
    ensures dev != null ==> LineOf(line).Line? && dev.name == LineOf(line).name && (dev in ds <==> Known(ds, dev.name))
    ensures dev != null && dev in ds ==>
      && dev in was
      && var r := ReadAttrs(LineOf(line).attrs, was[dev]);
      && over == r.end.Overrun? && (over || HasType(r.f.pairs) ==> now == ds && held == r.f)
      && (!over && !HasType(r.f.pairs) ==> now == Without<Dev>(ds, dev))
    ensures dev != null && dev !in ds ==>
      && accessible(dev.name)
      && var r := ReadAttrs(LineOf(line).attrs, NEW);
      && over == r.end.Overrun? && (over || HasType(r.f.pairs) ==> now == ds + [dev] && held == r.f)
      && (!over && !HasType(r.f.pairs) ==> now == Without<Dev>(ds + [dev], dev))
  {
    hide LineOf, ReadAttrs, HasType, Without;
  }

  lemma ExactIs(cache: Cache, ds: seq<Dev>, was: map<Dev, Fields>, line: string, accessible: string -> bool, dev: Dev?,
      held: Fields, rc: int, over: bool)
    requires dev == null <==>
      (LineOf(line).Line? ==> !Known(ds, LineOf(line).name) && !accessible(LineOf(line).name))
    requires dev == null ==> cache.devs == ds && !over
    requires dev != null ==> dev.name == LineOf(line).name
    requires dev != null && Known(ds, dev.name) ==> dev in ds && dev in was
    requires dev != null && Known(ds, dev.name) ==>
      LineRead(cache, ds, dev, LineOf(line).attrs, was[dev], rc, over)
    requires dev != null && !Known(ds, dev.name) ==>
      LineRead(cache, ds + [dev], dev, LineOf(line).attrs, NEW, rc, over)
    requires dev != null ==> held == FieldsOf(dev)
    ensures LineExact(ds, was, cache.devs, line, accessible, over, dev, held)
  {
    hide LineOf, ReadAttrs, FieldsOf, HasType, Without;
    if dev != null {
      KnownIs(ds, dev.name);
    }
  }

  lemma ContentsAre(ds: seq<Dev>)
    ensures forall d: Dev :: d in ds ==> d in Contents(ds) && Contents(ds)[d] == FieldsOf(d)
  {
    hide FieldsOf;
  }

  ghost function Held(dev: Dev?): Fields
    reads if dev == null then {} else {dev}
    reads if dev == null then {} else set t: Tag | t in dev.tags
  {
    if dev == null then NEW else FieldsOf(dev)
  }

  lemma HeldIs(dev: Dev?)
    ensures dev != null ==> Held(dev) == FieldsOf(dev)
  {
    hide FieldsOf;
  }

  lemma StepIs(cache: Cache, ds: seq<Dev>, was: map<Dev, Fields>, line: string, dev: Dev?, held: Fields, rc: int,
      over: bool)
    requires dev == null ==> cache.devs == ds
    requires dev != null ==> LineOf(line).Line? && dev.name == LineOf(line).name
    requires dev != null && Known(ds, dev.name) ==> dev in ds && dev in was
    requires dev != null && Known(ds, dev.name) ==>
      LineRead(cache, ds, dev, LineOf(line).attrs, was[dev], rc, over)
    requires dev != null && !Known(ds, dev.name) ==>
      LineRead(cache, ds + [dev], dev, LineOf(line).attrs, NEW, rc, over)
    requires dev != null ==> held == FieldsOf(dev)
    ensures LineStep(ds, was, cache.devs, line, dev, held)
  {
    hide LineOf, ReadAttrs, FieldsOf, HasType, Without;
    if dev != null {
      KnownIs(ds, dev.name);
      if dev in ds {
        LineReadParts(cache, ds, dev, LineOf(line).attrs, was[dev], rc, over);
      } else {
        LineReadParts(cache, ds + [dev], dev, LineOf(line).attrs, NEW, rc, over);
        LastWithout(ds, dev);
      }
    }
  }

  lemma LineReadParts(cache: Cache, before: seq<Dev>, dev: Dev, attrs: string, f0: Fields, rc: int, over: bool)
    requires LineRead(cache, before, dev, attrs, f0, rc, over)
    ensures dev in before
    ensures cache.devs == Without(before, dev) || (cache.devs == before && FieldsOf(dev) == ReadAttrs(attrs, f0).f)
  {
    hide ReadAttrs, HasType, Without, FieldsOf;
  }

  lemma {:induction false} LastWithout(ds: seq<Dev>, dev: Dev)
    requires dev !in ds
    ensures Without(ds + [dev], dev) == ds
  {
    var all := ds + [dev];
    var k := IndexOf(all, dev);
    assert forall i :: 0 <= i < |ds| ==> all[i] == ds[i];
    assert k == |ds|;
  }
}
