/** The tag lists of libblkid's cache (tag.c, dev.c): every tag of a cached device sits in two rings at once,
    the device's own ring and the ring of all tags with its name. Rings are sequences here; `ring` names the
    head whose ring a tag's `bit_names` node is linked into. */
module TagIndex {
  import opened Wrappers

  const INT_MIN := -0x8000_0000

  type Pair = (string, string)

  // ---------- association lists: what a device's tag ring means ----------

  ghost function Lookup(ps: seq<Pair>, name: string): Option<string> {
    if ps == [] then None else if ps[0].0 == name then Some(ps[0].1) else Lookup(ps[1..], name)
  }

  /** The list after `blkid_set_tag(dev, name, v)`: replaced in place, appended at the end, or removed. */
  ghost function SetPair(ps: seq<Pair>, name: string, v: Option<string>): seq<Pair> {
    if ps == [] then (if v.Some? then [(name, v.value)] else [])
    else if ps[0].0 == name then (if v.Some? then [(name, v.value)] else []) + ps[1..]
    else [ps[0]] + SetPair(ps[1..], name, v)
  }

  ghost predicate UniqueNames(ps: seq<Pair>) {
    forall i, j :: 0 <= i < j < |ps| ==> ps[i].0 != ps[j].0
  }

  lemma {:induction false} LookupNone(ps: seq<Pair>, name: string)
    ensures Lookup(ps, name).None? <==> forall i :: 0 <= i < |ps| ==> ps[i].0 != name
  {
    if ps != [] { LookupNone(ps[1..], name); assert forall i :: 0 <= i < |ps| - 1 ==> ps[1..][i] == ps[i + 1]; }
  }

  lemma {:induction false} LookupAt(ps: seq<Pair>, k: nat)
    requires UniqueNames(ps) && k < |ps|
    ensures Lookup(ps, ps[k].0) == Some(ps[k].1)
  {
    if k > 0 { LookupAt(ps[1..], k - 1); }
  }

  /** Setting a tag is a map update: every later lookup sees exactly the new value of that one name. */
  lemma {:induction false} LookupSet(ps: seq<Pair>, name: string, v: Option<string>, other: string)
    requires UniqueNames(ps)
    ensures Lookup(SetPair(ps, name, v), other) == if other == name then v else Lookup(ps, other)
  {
    if ps == [] {
      if v.Some? { assert [(name, v.value)][1..] == []; }
    } else if ps[0].0 == name {
      var t := ps[1..];
      assert forall i :: 0 <= i < |t| ==> t[i] == ps[i + 1] && t[i].0 != name;
      LookupNone(t, name);
      if v.Some? { assert ([(name, v.value)] + t)[1..] == t; } else { assert [] + t == t; }
    } else {
      LookupSet(ps[1..], name, v, other);
      var r := SetPair(ps[1..], name, v);
      assert ([ps[0]] + r)[1..] == r;
    }
  }

  /** ... and no name ever occurs twice. */
  lemma {:induction false} SetKeepsUnique(ps: seq<Pair>, name: string, v: Option<string>)
    requires UniqueNames(ps)
    ensures UniqueNames(SetPair(ps, name, v))
  {
    if ps != [] {
      UniqueCons(ps[0], ps[1..]);
      assert [ps[0]] + ps[1..] == ps;
      if ps[0].0 != name {
        SetKeepsUnique(ps[1..], name, v);
        LookupSet(ps[1..], name, v, ps[0].0);
        UniqueCons(ps[0], SetPair(ps[1..], name, v));
      } else if v.Some? {
        UniqueCons((name, v.value), ps[1..]);
      } else {
        assert [] + ps[1..] == ps[1..];
      }
    }
  }

  lemma UniqueCons(p: Pair, r: seq<Pair>)
    ensures UniqueNames([p] + r) <==> UniqueNames(r) && Lookup(r, p.0).None?
  {
    var c := [p] + r;
    LookupNone(r, p.0);
    hide Lookup;
    assert forall i :: 0 <= i < |r| ==> c[i + 1] == r[i];
    if UniqueNames(c) {
      forall i, j | 0 <= i < j < |r| ensures r[i].0 != r[j].0 {
        assert c[i + 1].0 != c[j + 1].0;
      }
      forall i | 0 <= i < |r| ensures r[i].0 != p.0 {
        assert c[0].0 != c[i + 1].0;
      }
    }
  }

  lemma {:induction false} SetAt(ps: seq<Pair>, k: nat, v: Option<string>)
    requires UniqueNames(ps) && k < |ps|
    ensures SetPair(ps, ps[k].0, v) == ps[..k] + (if v.Some? then [(ps[k].0, v.value)] else []) + ps[k + 1..]
  {
    if k > 0 { SetAt(ps[1..], k - 1, v); }
  }

  lemma {:induction false} SetAbsent(ps: seq<Pair>, name: string, v: Option<string>)
    requires forall i :: 0 <= i < |ps| ==> ps[i].0 != name
    ensures SetPair(ps, name, v) == ps + if v.Some? then [(name, v.value)] else []
  {
    if ps != [] { SetAbsent(ps[1..], name, v); }
  }

  // ---------- removing one element ----------

  /** Both ways of setting the name at place `k`. */
  lemma SetsAt(ps: seq<Pair>, k: nat, val: string)
    requires UniqueNames(ps) && k < |ps|
    ensures SetPair(ps, ps[k].0, None) == ps[..k] + ps[k + 1..]
    ensures SetPair(ps, ps[k].0, Some(val)) == ps[k := (ps[k].0, val)]
    ensures Lookup(ps, ps[k].0) == Some(ps[k].1)
    ensures ps[k].1 == val ==> ps == SetPair(ps, ps[k].0, Some(val))
  {
    hide *;
    SetAt(ps, k, None);
    SetAt(ps, k, Some(val));
    LookupAt(ps, k);
    Replaced(ps, k, (ps[k].0, val));
    Replaced(ps, k, ps[k]);
  }

  lemma Replaced<T>(s: seq<T>, k: nat, x: T)
    requires k < |s|
    ensures s[..k] + [x] + s[k + 1..] == s[k := x]
    ensures s[..k] + [] + s[k + 1..] == s[..k] + s[k + 1..]
    ensures x == s[k] ==> s[k := x] == s
  {
  }

  function IndexOf<T(==)>(s: seq<T>, x: T): (k: nat)
    requires x in s
    ensures k < |s| && s[k] == x && forall i :: 0 <= i < k ==> s[i] != x
  {
    if s[0] == x then 0 else 1 + IndexOf(s[1..], x)
  }

  function Without<T(==)>(s: seq<T>, x: T): seq<T>
    requires x in s
  {
    var k := IndexOf(s, x);
    s[..k] + s[k + 1..]
  }

  ghost predicate Distinct<T>(s: seq<T>) {
    forall i, j :: 0 <= i < j < |s| ==> s[i] != s[j]
  }

  lemma WithoutMembers<T>(s: seq<T>, x: T)
    requires x in s && Distinct(s)
    ensures Distinct(Without(s, x)) && x !in Without(s, x)
    ensures forall y :: y in Without(s, x) <==> y in s && y != x
  {
    var k := IndexOf(s, x);
    var r := Without(s, x);
    forall y | y in s && y != x ensures y in r {
      var i :| 0 <= i < |s| && s[i] == y;
      assert if i < k then r[i] == y else r[i - 1] == y;
    }
  }

  /** strndup(): the value up to its first NUL, at most `n` characters. */
  function StrNDup(s: string, n: nat): (r: string)
    ensures r <= s && |r| <= n && '\0' !in r
    ensures |r| < |s| ==> |r| == n || s[|r|] == '\0'
  {
    if n == 0 || s == "" || s[0] == '\0' then "" else [s[0]] + StrNDup(s[1..], n - 1)
  }

  lemma {:induction false} WholeValue(s: string)
    requires '\0' !in s
    ensures StrNDup(s, |s|) == s
  {
    if s != "" {
      assert s[0] in s && forall c :: c in s[1..] ==> c in s;
      WholeValue(s[1..]);
    }
  }

  // ---------- the structs ----------

  class Head {
    const name: string
    var members: seq<Tag>

    constructor (name: string)
      ensures this.name == name && members == []
    {
      this.name := name;
      members := [];
    }
  }

  class Tag {
    const name: string
    const dev: Dev
    var val: string
    var ring: Head?
    /** false once the struct has been freed */
    var live: bool

    constructor (name: string, val: string, dev: Dev)
      ensures this.name == name && this.val == val && this.dev == dev && ring == null && live
    {
      this.name, this.val, this.dev := name, val, dev;
      ring, live := null, true;
    }
  }

  ghost function PairsOf(ts: seq<Tag>): (ps: seq<Pair>)
    reads ts`val
    ensures |ps| == |ts|
    ensures forall i :: 0 <= i < |ts| ==> ps[i] == (ts[i].name, ts[i].val)
  {
    if ts == [] then [] else [(ts[0].name, ts[0].val)] + PairsOf(ts[1..])
  }

  lemma PairsWithout(ts: seq<Tag>, k: nat)
    requires k < |ts|
    ensures PairsOf(ts[..k] + ts[k + 1..]) == PairsOf(ts)[..k] + PairsOf(ts)[k + 1..]
  {
    hide PairsOf;
    var rest, ps := ts[..k] + ts[k + 1..], PairsOf(ts);
    forall i | 0 <= i < |rest| ensures PairsOf(rest)[i] == (ps[..k] + ps[k + 1..])[i] {
      assert rest[i] == ts[if i < k then i else i + 1];
    }
  }

  class Dev {
    const name: string
    const cache: Cache?
    var tags: seq<Tag>
    /** bid_type, bid_label, bid_uuid: the source's pointers to the values of three tags, NULL if absent */
    var bidType: Option<string>
    var bidLabel: Option<string>
    var bidUuid: Option<string>
    var pri: int
    var devno: nat
    var time: int
    var utime: int
    var verified: bool
    var removable: bool
    var live: bool

    /** blkid_new_dev(), followed by the assignments of blkid_get_dev() */
    constructor (name: string, cache: Cache?, time: int)
      ensures this.name == name && this.cache == cache && this.time == time
      ensures tags == [] && bidType.None? && bidLabel.None? && bidUuid.None? && live && !verified && !removable
      ensures pri == 0 && devno == 0 && utime == 0
    {
      this.name, this.cache, this.time := name, cache, time;
      tags := [];
      bidType, bidLabel, bidUuid := None, None, None;
      pri, devno, utime := 0, 0, 0;
      verified, removable, live := false, false, true;
    }

    /** The device's tags as name/value pairs, in ring order. */
    ghost function Pairs(): (ps: seq<Pair>)
      reads this`tags, tags`val
    {
      PairsOf(tags)
    }

    /** Own ring: live tags of this device, one per name. */
    ghost predicate Ok()
      reads this`live, this`tags, tags`live
    {
      && live && Distinct(tags)
      && (forall t: Tag :: t in tags ==> t.live && t.dev == this)
      && (forall t: Tag, u: Tag :: t in tags && u in tags && t.name == u.name ==> t == u)
    }

    /** The shortcut fields agree with the tags. */
    ghost predicate Shortcuts()
      reads this`tags, this`bidType, this`bidLabel, this`bidUuid, tags`val
    {
      bidType == Lookup(Pairs(), "TYPE") && bidLabel == Lookup(Pairs(), "LABEL") && bidUuid == Lookup(Pairs(), "UUID")
    }

    /** Removing, replacing or appending a tag sets its name in the pair list. */
    lemma PairsChange(t: Tag, val: string)
      requires Ok() && t in tags
      ensures PairsOf(Without(tags, t)) == SetPair(Pairs(), t.name, None)
      ensures Lookup(Pairs(), t.name) == Some(t.val)
      ensures t.val == val ==> Pairs() == SetPair(Pairs(), t.name, Some(val))
      ensures Pairs()[IndexOf(tags, t) := (t.name, val)] == SetPair(Pairs(), t.name, Some(val))
    {
      PairsUnique();
      var ps, k := Pairs(), IndexOf(tags, t);
      assert ps[k] == (t.name, t.val) && ps == PairsOf(tags) && Without(tags, t) == tags[..k] + tags[k + 1..];
      hide *;
      SetsAt(ps, k, val);
      PairsWithout(tags, k);
    }

    lemma PairsUnique()
      requires Ok()
      ensures UniqueNames(Pairs()) && Distinct(tags)
    {
      forall i, j | 0 <= i < j < |tags| ensures tags[i].name != tags[j].name {
        assert tags[i] in tags && tags[j] in tags && tags[i] != tags[j];
      }
    }
  }

  ghost function TagsOf(ds: seq<Dev>): (r: set<Tag>)
    reads ds`tags
    ensures forall d, t :: d in ds && t in d.tags ==> t in r
  {
    set d, t | d in ds && t in d.tags :: t
  }

  ghost function MembersOf(hs: seq<Head>): (r: set<Tag>)
    reads hs`members
    ensures forall h, t :: h in hs && t in h.members ==> t in r
  {
    set h, t | h in hs && t in h.members :: t
  }

  /** One device's tags and shortcuts at one moment. */
  datatype Snap = Snap(tags: seq<Tag>, pairs: seq<Pair>, bidType: Option<string>, bidLabel: Option<string>,
    bidUuid: Option<string>)

  ghost function SnapOf(d: Dev): Snap
    reads d`tags, d`bidType, d`bidLabel, d`bidUuid, d.tags`val
  {
    Snap(d.tags, d.Pairs(), d.bidType, d.bidLabel, d.bidUuid)
  }

  ghost predicate SnapShortcuts(s: Snap) {
    s.bidType == Lookup(s.pairs, "TYPE") && s.bidLabel == Lookup(s.pairs, "LABEL")
      && s.bidUuid == Lookup(s.pairs, "UUID")
  }

  ghost predicate GoodSnapshot(ds: seq<Dev>, snap: map<Dev, Snap>) {
    forall d: Dev :: d in ds ==> d in snap && SnapShortcuts(snap[d])
  }

  lemma ValidSnapshot(cache: Cache)
    requires cache.Valid()
    ensures GoodSnapshot(cache.devs, Snapshot(cache.devs))
  {
    forall d | d in cache.devs ensures SnapShortcuts(SnapOf(d)) { assert d.Shortcuts(); }
  }

  /** The invariant again, when the other devices are as they were. */
  lemma ValidAgain(cache: Cache, ds: seq<Dev>, dev: Dev, snap: map<Dev, Snap>)
    requires ds == cache.devs && cache.Indexed(ds) && cache.OneDevPerName()
    requires Same(ds, dev, snap) && GoodSnapshot(ds, snap)
    requires dev in ds ==> dev.Shortcuts()
    ensures cache.Valid()
  {
    forall d | d in ds ensures d.Shortcuts() {
      if d != dev { assert snap[d] == SnapOf(d) && SnapShortcuts(snap[d]); }
    }
  }

  ghost function Snapshot(ds: seq<Dev>): map<Dev, Snap>
    reads ds`tags, ds`bidType, ds`bidLabel, ds`bidUuid, TagsOf(ds)`val
  {
    map d | d in ds :: SnapOf(d)
  }

  /** Every device but `dev` still has the tags, values and shortcuts of the snapshot. */
  ghost predicate Same(ds: seq<Dev>, dev: Dev?, snap: map<Dev, Snap>)
    reads ds`tags, ds`bidType, ds`bidLabel, ds`bidUuid, TagsOf(ds)`val
  {
    forall d: Dev :: d in ds && d != dev ==> d in snap && snap[d] == SnapOf(d)
  }

  /** Two snapshots agree on every device but `dev`. */
  ghost predicate Agree(ds: seq<Dev>, dev: Dev?, a: map<Dev, Snap>, b: map<Dev, Snap>) {
    forall d: Dev :: d in ds && d != dev ==> d in a && d in b && a[d] == b[d]
  }

  lemma SnapshotAgrees(ds: seq<Dev>, dev: Dev?, b: map<Dev, Snap>)
    requires Same(ds, dev, b)
    ensures Agree(ds, dev, Snapshot(ds), b)
  {
  }

  lemma SameTransitive(ds: seq<Dev>, dev: Dev?, a: map<Dev, Snap>, b: map<Dev, Snap>)
    requires Same(ds, dev, a) && Agree(ds, dev, a, b)
    ensures Same(ds, dev, b)
  {
  }

  class Cache {
    var devs: seq<Dev>
    var heads: seq<Head>
    /** BLKID_BIC_FL_CHANGED, BLKID_BIC_FL_PROBED */
    var changed: bool
    var probed: bool

    /** blkid_get_cache(), before the file is read */
    constructor ()
      ensures Valid() && devs == [] && heads == [] && !changed && !probed
    {
      devs, heads, changed, probed := [], [], false, false;
    }

    ghost predicate OneHeadPerName()
      reads this`heads
    {
      forall g: Head, h: Head :: g in heads && h in heads && g.name == h.name ==> g == h
    }

    /** Every tag of the devices `ds` is in exactly the ring of its own head. */
    ghost predicate TagsIndexed(ds: seq<Dev>)
      reads this`heads, heads`members, ds`tags, TagsOf(ds)`ring
    {
      forall d: Dev, t: Tag :: d in ds && t in d.tags ==>
        t.ring != null && t.ring in heads && t.ring.name == t.name && t in t.ring.members
    }

    /** Every ring reaches only live tags of the devices `ds`, each still in its device's own ring. */
    ghost predicate RingsSound(ds: seq<Dev>)
      reads this`heads, heads`members, MembersOf(heads)`live, MembersOf(heads)`ring, ds`tags
    {
      forall h: Head, t: Tag :: h in heads && t in h.members ==>
        t.live && t.ring == h && t.name == h.name && t.dev in ds && t in t.dev.tags
    }

    ghost predicate RingsDistinct()
      reads this`heads, heads`members
    {
      forall h: Head :: h in heads ==> Distinct(h.members)
    }

    ghost predicate DevsOk(ds: seq<Dev>)
      reads ds`live, ds`tags, TagsOf(ds)`live
    {
      Distinct(ds) && forall d: Dev :: d in ds ==> d.Ok() && d.cache == this
    }

    /** The two-way index over the devices `ds`; shortcuts aside. */
    ghost predicate Indexed(ds: seq<Dev>)
      reads this`heads, heads`members, ds`live, ds`tags, TagsOf(ds)`live, TagsOf(ds)`ring, MembersOf(heads)`live,
        MembersOf(heads)`ring
    {
      OneHeadPerName() && RingsDistinct() && DevsOk(ds) && TagsIndexed(ds) && RingsSound(ds)
    }

    ghost predicate ShortcutsOk(ds: seq<Dev>)
      reads ds`tags, ds`bidType, ds`bidLabel, ds`bidUuid, TagsOf(ds)`val
    {
      forall d: Dev :: d in ds ==> d.Shortcuts()
    }

    /** One device per name. */
    ghost predicate OneDevPerName()
      reads this`devs
    {
      forall d: Dev, e: Dev :: d in devs && e in devs && d.name == e.name ==> d == e
    }

    /** The cache invariant. */
    ghost predicate Valid()
      reads this`devs, this`heads, heads`members, devs`live, devs`tags, devs`bidType, devs`bidLabel, devs`bidUuid
      reads TagsOf(devs)`live, TagsOf(devs)`ring, TagsOf(devs)`val, MembersOf(heads)`live, MembersOf(heads)`ring
    {
      Indexed(devs) && ShortcutsOk(devs) && OneDevPerName()
    }
  }
}
