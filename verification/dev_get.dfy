/** blkid_get_dev() of devname.c: find or create a device, refresh it, and sweep out stale look-alikes. */
module DevGet {
  import opened TagIndex
  import opened TagCache
  import opened DevCache
  import opened DevVerify
  import opened DevValue
  import opened GetValue

  /** The stale-entry rule: same TYPE, and LABEL and UUID either both equal or both absent. */
  ghost predicate Alike(d: Dev, e: Dev)
    reads d`bidType, d`bidLabel, d`bidUuid, e`bidType, e`bidLabel, e`bidUuid
  {
    d.bidType.Some? && d.bidType == e.bidType && d.bidLabel == e.bidLabel && d.bidUuid == e.bidUuid
  }

  /** The four `continue` tests of the sweep. */
  predicate LooksAlike(dev: Dev, dev2: Dev): (alike: bool)
    reads dev`bidType, dev`bidLabel, dev`bidUuid, dev2`bidType, dev2`bidLabel, dev2`bidUuid
    ensures alike == Alike(dev, dev2)
  {
    if dev.bidType.None? || dev2.bidType.None? || dev.bidType != dev2.bidType then false
    else if dev.bidLabel.Some? && dev2.bidLabel.Some? && dev.bidLabel != dev2.bidLabel then false
    else if dev.bidUuid.Some? && dev2.bidUuid.Some? && dev.bidUuid != dev2.bidUuid then false
    else if (dev.bidLabel.Some? && dev2.bidLabel.None?) || (dev.bidLabel.None? && dev2.bidLabel.Some?) then false
    else if (dev.bidUuid.Some? && dev2.bidUuid.None?) || (dev.bidUuid.None? && dev2.bidUuid.Some?) then false
    else true
  }

  /** The search of blkid_get_dev(), and blkid_new_dev() when asked to create: only accessible names get a device. */
  method FindOrCreate(cache: Cache, name: string, create: bool, accessible: bool) returns (dev: Dev?)
    requires cache.Valid()
    modifies cache`devs, cache`changed
    ensures cache.Valid()
    ensures dev != null ==> dev in cache.devs && dev.name == name
    ensures (exists d: Dev :: d in old(cache.devs) && d.name == name) ==> dev in old(cache.devs)
    ensures dev == null || dev in old(cache.devs) ==>
      cache.devs == old(cache.devs) && cache.changed == old(cache.changed)
    ensures dev != null && dev !in old(cache.devs) ==>
      create && accessible && fresh(dev) && cache.devs == old(cache.devs) + [dev] && cache.changed && dev.tags == []
      && dev.time == INT_MIN && dev.pri == 0 && dev.devno == 0 && dev.utime == 0 && !dev.verified && !dev.removable
        && dev.cache == cache
    ensures dev == null ==> !create || !accessible
    ensures forall i :: 0 <= i < |cache.devs| ==>
      cache.devs[i] in old(cache.devs) || (fresh(cache.devs[i]) && cache.devs[i].name == name)
    ensures TagsOf(cache.devs) == old(TagsOf(cache.devs))
    ensures Same(old(cache.devs), null, old(Snapshot(cache.devs)))
    ensures Vals(cache.devs) == FoundVals(old(Vals(cache.devs)), name, create, accessible)
    ensures At(cache.devs, PlaceOf(Vals(cache.devs), name), dev)
  {
    hide *;
    assert allocated(TagsOf(cache.devs)) && allocated(MembersOf(cache.heads)) && allocated(cache.devs)
      && allocated(cache.heads);
    ghost var ds, vs := cache.devs, Vals(cache.devs);
    NamesAre(ds);
    for i := 0 to |cache.devs|
      invariant forall k :: 0 <= k < i ==> cache.devs[k].name != name
    {
      if cache.devs[i].name == name {
        FoundAt(vs, name, i, create, accessible);
        AllSame(cache, null);
        AtIs(ds, i, ds[i]);
        return cache.devs[i];
      }
    }
    NotFound(vs, name);
    if !create || !accessible {
      FoundNone(vs, name, create, accessible);
      AllSame(cache, null);
      AtIs(ds, |ds|, null);
      return null;
    }
    var d := new Dev(name, cache, INT_MIN);
    NewIs(d);
    AppendDev(cache, d);
    FoundNew(ds, vs, d);
    AtIs(ds + [d], |ds|, d);
    dev := d;
  }

  /** The device at a place, null behind the last. */
  ghost predicate At(ds: seq<Dev>, i: nat, dev: Dev?) {
    if dev == null then i == |ds| else i < |ds| && ds[i] == dev
  }

  lemma AtIs(ds: seq<Dev>, i: nat, dev: Dev?)
    ensures At(ds, i, dev) <==> if dev == null then i == |ds| else i < |ds| && ds[i] == dev
  {
  }

  lemma NewIs(d: Dev)
    requires d.tags == [] && d.time == INT_MIN && d.pri == 0 && d.devno == 0 && d.utime == 0
    requires !d.verified && !d.removable
    ensures ValOf(d) == NewVal(d.name)
  {
  }

  lemma NotFound(vs: seq<DevVal>, name: string)
    requires forall k :: 0 <= k < |vs| ==> vs[k].name != name
    ensures PlaceOf(vs, name) == |vs|
  {
  }

  lemma FoundAt(vs: seq<DevVal>, name: string, i: nat, create: bool, accessible: bool)
    requires i < |vs| && vs[i].name == name && forall k :: 0 <= k < i ==> vs[k].name != name
    ensures PlaceOf(vs, name) == i && FoundVals(vs, name, create, accessible) == vs
  {
    assert PlaceOf(vs, name) == i;
  }

  lemma FoundNone(vs: seq<DevVal>, name: string, create: bool, accessible: bool)
    requires !create || !accessible
    ensures FoundVals(vs, name, create, accessible) == vs
  {
  }

  lemma FoundNew(ds: seq<Dev>, vs: seq<DevVal>, d: Dev)
    requires PlaceOf(vs, d.name) == |vs| && |vs| == |ds| && Others(ds, null, vs) && ValOf(d) == NewVal(d.name)
    ensures Vals(ds + [d]) == FoundVals(vs, d.name, true, true)
    ensures PlaceOf(Vals(ds + [d]), d.name) == |ds|
  {
    hide ValOf, PlaceOf;
    assert Vals(ds + [d]) == vs + [NewVal(d.name)];
    var us := vs + [NewVal(d.name)];
    assert forall k :: 0 <= k < |vs| ==> us[k] == vs[k];
    assert NewVal(d.name).name == d.name;
    var p := PlaceOf(us, d.name);
    assert us[|vs|].name == d.name;
    assert !(p < |vs|);
  }

  lemma GrowIndexed(cache: Cache, ds: seq<Dev>, d: Dev)
    requires cache.Indexed(ds) && d.tags == [] && d.live && d.cache == cache && d !in ds
    ensures cache.Indexed(ds + [d])
  {
    var more := ds + [d];
    assert Distinct(more);
    hide Distinct;
    forall h: Head, t: Tag | h in cache.heads && t in h.members
      ensures t.live && t.ring == h && t.name == h.name && t.dev in more && t in t.dev.tags
    {
    }
  }

  /** list_add_tail() on the device ring. */
  method AppendDev(cache: Cache, d: Dev)
    requires cache.Valid() && d.tags == [] && d.live && d.cache == cache && d !in cache.devs
    requires d.bidType.None? && d.bidLabel.None? && d.bidUuid.None?
    requires forall e: Dev :: e in cache.devs ==> e.name != d.name
    modifies cache`devs, cache`changed
    ensures cache.Valid() && cache.devs == old(cache.devs) + [d] && cache.changed
    ensures Others(old(cache.devs), null, old(Vals(cache.devs))) && ValOf(d) == old(ValOf(d))
    ensures TagsOf(cache.devs) == old(TagsOf(cache.devs))
    ensures Same(old(cache.devs), null, old(Snapshot(cache.devs)))
  {
    hide *;
    NewDevFits(cache, d);
    AllSame(cache, null);
    ghost var ds := cache.devs;
    cache.devs := cache.devs + [d];
    cache.changed := true;
    Appended(cache, ds, d);
  }

  lemma Appended(cache: Cache, ds: seq<Dev>, d: Dev)
    requires cache.devs == ds + [d] && cache.Indexed(ds + [d]) && cache.ShortcutsOk(ds + [d]) && d.tags == []
    requires forall e: Dev, f: Dev :: e in ds + [d] && f in ds + [d] && e.name == f.name ==> e == f
    ensures cache.Valid() && TagsOf(ds + [d]) == TagsOf(ds)
  {
    hide Cache.Indexed, Cache.ShortcutsOk;
  }

  lemma NewDevFits(cache: Cache, d: Dev)
    requires cache.Valid() && d.tags == [] && d.live && d.cache == cache && d !in cache.devs
    requires d.bidType.None? && d.bidLabel.None? && d.bidUuid.None?
    requires forall e: Dev :: e in cache.devs ==> e.name != d.name
    ensures cache.Indexed(cache.devs + [d]) && cache.ShortcutsOk(cache.devs + [d])
    ensures forall e: Dev, f: Dev :: e in cache.devs + [d] && f in cache.devs + [d] && e.name == f.name ==> e == f
    ensures Same(cache.devs, null, Snapshot(cache.devs))
  {
    assert d.Pairs() == [] && d.Shortcuts();
    GrowIndexed(cache, cache.devs, d);
    hide Cache.Indexed, Dev.Shortcuts, SnapOf;
  }

  ghost predicate TagsKnown(ds: seq<Dev>, known: set<Tag>)
    reads ds`tags
  {
    forall d: Dev, t: Tag :: d in ds && t in d.tags ==> t in known
  }

  /** `dev2 = blkid_verify(cache, dev2); if (dev2 && !VERIFIED) blkid_free_dev(dev2)`. */
  method VerifyOrFree(cache: Cache, dev: Dev, w: World, ghost known: set<Tag>)
      returns (kept: bool, ghost more: set<Tag>)
    requires TagsKnown([dev], known)
    requires cache.Valid() && dev in cache.devs && !dev.verified
    modifies cache`heads, cache`changed, cache`devs, cache.heads`members, dev.tags`val, dev.tags`live
    modifies dev`live, dev`tags, dev`bidType, dev`bidLabel, dev`bidUuid, dev`time, dev`utime, dev`devno, dev`verified
    ensures cache.Valid() && (kept ==> dev.verified)
    ensures cache.devs == if kept then old(cache.devs) else Without(old(cache.devs), dev)
    ensures Others(old(cache.devs), dev, old(Vals(cache.devs)))
    ensures Reexamined(old(ValOf(dev)), w) == if kept then [ValOf(dev)] else []
    ensures Same(old(cache.devs), dev, old(Snapshot(cache.devs)))
    ensures forall h: Head :: h in cache.heads ==> h in old(cache.heads) || fresh(h)
    ensures fresh(more) && (kept ==> TagsKnown([dev], known + more))
  {
    hide *;
    ghost var ds, before, vs, v := cache.devs, Snapshot(cache.devs), Vals(cache.devs), ValOf(dev);
    ghost var was := SnapOf(dev);
    SnapTags(dev, was);
    PlainOf(dev);
    OwnTags(dev, known);
    var r := Verify(cache, dev, w);
    kept := r != null && r.verified;
    more := set t | t in dev.tags && fresh(t);
    if r != null {
      PlainOf(dev);
      TagsAre(dev, known + more);
    }
    ReexaminedBy(v, w);
    if r != null && !r.verified {
      UnverifiedKept(v, w);
      SnapTags(dev, was);
      HeadsInHeads(cache);
      DropUnverified(cache, r, before, vs);
    }
  }

  /** A device that comes out unverified has been kept. */
  lemma UnverifiedKept(v: DevVal, w: World)
    ensures var x := VerifiedVal(v, w);
      x.Some? && !x.value.verified ==> OutcomeOf(v.time, v.utime, v.verified, w).Keep? && x.value == v
  {
  }

  lemma SnapTags(dev: Dev, was: Snap)
    requires SnapOf(dev) == was
    ensures dev.tags == was.tags
  {
  }

  lemma OwnTags(dev: Dev, known: set<Tag>)
    requires TagsKnown([dev], known)
    ensures forall t: Tag :: t in dev.tags ==> t in known
  {
    assert dev in [dev];
  }

  lemma ReexaminedBy(v: DevVal, w: World)
    ensures var x := VerifiedVal(v, w);
      Reexamined(v, w) == if x.Some? && x.value.verified then [x.value] else []
  {
    hide VerifiedVal;
  }

  /** `blkid_free_dev(dev2)` */
  method DropUnverified(cache: Cache, dev: Dev, ghost before: map<Dev, Snap>, ghost vs: seq<DevVal>)
    requires cache.Valid() && dev in cache.devs && Same(cache.devs, dev, before) && Others(cache.devs, dev, vs)
    modifies cache`devs, dev`live, dev`tags, dev.tags`live, cache.heads`members
    ensures cache.Valid() && cache.devs == Without(old(cache.devs), dev)
    ensures Same(old(cache.devs), dev, before) && Others(old(cache.devs), dev, vs)
  {
    hide *;
    ghost var ds, now, us := cache.devs, Snapshot(cache.devs), Vals(cache.devs);
    SnapshotAgrees(ds, dev, before);
    OthersAgree(ds, dev, vs);
    DropDev(cache, dev);
    SameTransitive(ds, dev, now, before);
    OthersTransitive(ds, dev, us, vs);
  }

  /** The devices the sweep has passed: each is verified or no look-alike of `dev`. */
  ghost predicate Passed(dev: Dev, ds: seq<Dev>)
    reads dev`bidType, dev`bidLabel, dev`bidUuid, ds`verified, ds`bidType, ds`bidLabel, ds`bidUuid
  {
    forall d: Dev :: d in ds ==> d.verified || !Alike(dev, d)
  }

  ghost predicate Subset(a: seq<Dev>, b: seq<Dev>) {
    forall d: Dev :: d in a ==> d in b
  }

  /** One round of the sweep: the device at place `i` of the ring. */
  method SweepStep(cache: Cache, dev: Dev, dev2: Dev, w: World, ghost i: nat, ghost rest: seq<Dev>,
      ghost known: set<Tag>, ghost v: DevVal)
    returns (kept: bool, ghost more: set<Tag>)
    requires dev2 !in rest && TagsKnown(rest, known) && TagsKnown([dev2], known)
    requires cache.Valid() && dev in cache.devs && dev.verified && i < |cache.devs| && dev2 == cache.devs[i]
    requires Passed(dev, cache.devs[..i]) && ValOf(dev) == v
    modifies cache`heads, cache`changed, cache`devs, cache.heads, dev2, dev2.tags
    ensures cache.Valid() && dev in cache.devs && dev.verified
    ensures cache.devs == if kept then old(cache.devs) else old(cache.devs)[..i] + old(cache.devs)[i + 1..]
    ensures Passed(dev, cache.devs[..if kept then i + 1 else i]) && TagsKnown(rest, known)
    ensures fresh(more) && (kept ==> TagsKnown([dev2], known + more))
    ensures forall h: Head :: h in cache.heads ==> h in old(cache.heads) || fresh(h)
    ensures ValOf(dev) == v && SweptAt(old(Vals(cache.devs)), Vals(cache.devs), i, v, w, kept)
  {
    hide *;
    ghost var ds, vs := cache.devs, Vals(cache.devs);
    SweepPlace(cache, dev, dev2, ds, i);
    ValHere(cache, dev, ds, i, v);
    if dev2.verified || !LooksAlike(dev, dev2) {
      PassedOne(dev, ds[..i], dev2);
      assert known + {} == known;
      SparedAt(vs, i, v, w);
      return true, {};
    }
    kept, more := VerifyOrFree(cache, dev2, w, known);
    assert Passed(dev, ds[..i]);
    if kept {
      PassedOne(dev, ds[..i], dev2);
    }
    AfterStep(ds, vs, i, dev, v, w, kept);
  }

  /** One device of the sweep, on values. */
  ghost predicate SweptAt(vs: seq<DevVal>, now: seq<DevVal>, i: nat, v: DevVal, w: World, kept: bool) {
    && i < |vs| && now == vs[..i] + (if Spared(v, vs[i]) then [vs[i]] else Reexamined(vs[i], w)) + vs[i + 1..]
    && |now| == if kept then |vs| else |vs| - 1
  }

  lemma SparedAt(vs: seq<DevVal>, i: nat, v: DevVal, w: World)
    requires i < |vs| && Spared(v, vs[i])
    ensures SweptAt(vs, vs, i, v, w, true)
  {
    hide Spared;
  }

  /** The values of the two devices that the sweep compares. */
  lemma ValHere(cache: Cache, dev: Dev, ds: seq<Dev>, i: nat, v: DevVal)
    requires cache.Valid() && ds == cache.devs && dev in ds && i < |ds| && ValOf(dev) == v
    ensures |Vals(ds)| == |ds| && Vals(ds)[i] == ValOf(ds[i]) && v.verified == dev.verified
    ensures Spared(v, Vals(ds)[i]) <==> ds[i].verified || !LooksAlike(dev, ds[i])
    ensures exists j :: 0 <= j < |ds| && ds[j] == dev && Vals(ds)[j] == v
    ensures Distinct(ds)
  {
    assert dev.Shortcuts() && ds[i] in ds && ds[i].Shortcuts();
    var j :| 0 <= j < |ds| && ds[j] == dev;
    assert Vals(ds)[j] == v;
    hide Cache.Valid, Distinct, Lookup;
  }

  /** After a look-alike has been verified, and perhaps freed. */
  lemma AfterStep(ds: seq<Dev>, vs: seq<DevVal>, i: nat, dev: Dev, v: DevVal, w: World, kept: bool)
    requires i < |ds| && Others(ds, ds[i], vs) && Distinct(ds) && |vs| == |ds| && !Spared(v, vs[i])
    requires Reexamined(vs[i], w) == if kept then [ValOf(ds[i])] else []
    requires dev != ds[i] && exists j :: 0 <= j < |ds| && ds[j] == dev && vs[j] == v
    ensures ValOf(dev) == v
    ensures SweptAt(vs, Vals(if kept then ds else Without(ds, ds[i])), i, v, w, kept)
  {
    hide *;
    OtherStays(ds, ds[i], vs, dev, v);
    if kept {
      ValsChanged(ds, i, vs);
      ReplacedAt(vs, i, v, w, ValOf(ds[i]));
    } else {
      ValsLeft(ds, i, vs);
      RemovedAt(vs, i, v, w);
    }
  }

  lemma OtherStays(ds: seq<Dev>, p: Dev, vs: seq<DevVal>, dev: Dev, v: DevVal)
    requires Others(ds, p, vs) && |vs| == |ds| && dev != p && exists j :: 0 <= j < |ds| && ds[j] == dev && vs[j] == v
    ensures ValOf(dev) == v
  {
    hide ValOf;
  }

  lemma ReplacedAt(vs: seq<DevVal>, i: nat, v: DevVal, w: World, x: DevVal)
    requires i < |vs| && !Spared(v, vs[i]) && Reexamined(vs[i], w) == [x]
    ensures SweptAt(vs, vs[i := x], i, v, w, true)
  {
    hide Spared, Reexamined;
    assert vs[i := x] == vs[..i] + [x] + vs[i + 1..];
  }

  lemma RemovedAt(vs: seq<DevVal>, i: nat, v: DevVal, w: World)
    requires i < |vs| && !Spared(v, vs[i]) && Reexamined(vs[i], w) == []
    ensures SweptAt(vs, Removed(vs, i), i, v, w, false)
  {
    hide Spared, Reexamined;
    assert Removed(vs, i) == vs[..i] + [] + vs[i + 1..];
  }

  lemma SweepPlace(cache: Cache, dev: Dev, dev2: Dev, ds: seq<Dev>, i: nat)
    requires cache.Valid() && ds == cache.devs && dev in ds && i < |ds| && dev2 == ds[i]
    ensures ds[..i + 1] == ds[..i] + [dev2]
    ensures dev2 in ds && Without(ds, dev2) == ds[..i] + ds[i + 1..] && Without(ds, dev2)[..i] == ds[..i]
    ensures forall j :: 0 <= j < i ==> ds[..i][j] != dev2
    ensures dev != dev2 ==> dev in Without(ds, dev2)
    ensures forall j :: 0 <= j < |dev2.tags| ==> dev2.tags[j] in dev2.tags
    ensures forall j :: 0 <= j < |cache.heads| ==> cache.heads[j] in cache.heads
    ensures !LooksAlike(dev, dev2) ==> !Alike(dev, dev2)
  {
    assert Distinct(ds) && IndexOf(ds, dev2) == i;
    hide Cache.Valid;
    WithoutMembers(ds, dev2);
  }

  lemma PassedOne(dev: Dev, ds: seq<Dev>, d: Dev)
    requires Passed(dev, ds) && (d.verified || !Alike(dev, d))
    ensures Passed(dev, ds + [d])
  {
  }

  /** The sweep of blkid_get_dev(): a safe walk of the device ring that may free the device it stands on. It ends with
      no unverified look-alike of `dev` left, and never frees `dev`. */
  method Sweep(cache: Cache, dev: Dev, worlds: nat -> World)
    requires cache.Valid() && dev in cache.devs && dev.verified
    modifies cache`heads, cache`changed, cache`devs, cache.heads, cache.devs, TagsOf(cache.devs)
    ensures cache.Valid() && dev in cache.devs && dev.verified
    ensures Passed(dev, cache.devs)
    ensures Subset(cache.devs, old(cache.devs))
    ensures forall t: Tag :: t in TagsOf(cache.devs) ==> t in old(TagsOf(cache.devs)) || fresh(t)
    ensures forall h: Head :: h in cache.heads ==> h in old(cache.heads) || fresh(h)
    ensures ValOf(dev) == old(ValOf(dev))
    ensures Vals(cache.devs) == Swept(old(Vals(cache.devs)), old(ValOf(dev)), worlds)
  {
    hide *;
    ghost var all, tags, known := cache.devs, TagsOf(cache.devs), TagsOf(cache.devs);
    ghost var vs, v := Vals(cache.devs), ValOf(dev);
    SweepStarts(cache, dev, known);
    NoneSwept(vs, v, worlds);
    HeadsInHeads(cache);
    var i, n := 0, 0;
    while i < |cache.devs|
      invariant i <= |cache.devs| && Sweeping(cache, dev, i, all, known) && fresh(known - tags)
      invariant forall j :: 0 <= j < |cache.heads| ==> cache.heads[j] in old(cache.heads) || fresh(cache.heads[j])
      invariant ValOf(dev) == v && SweptSoFar(vs, Vals(cache.devs), n, i, v, worlds)
      decreases |cache.devs| - i
    {
      SweepFootprint(cache, dev, i, all, known, tags);
      var kept;
      ghost var more;
      ghost var now := Vals(cache.devs);
      kept, more := SweepOne(cache, dev, i, worlds(n), all, known, v);
      HeadsInHeads(cache);
      SweptMore(vs, now, Vals(cache.devs), n, i, v, worlds, kept);
      if kept {
        i := i + 1;
      }
      n, known := n + 1, known + more;
    }
    SweptWhole(vs, Vals(cache.devs), n, i, v, worlds);
    SweptAll(cache, dev, i, all, known);
    TagsOfKnown(cache.devs, known);
    assert forall t: Tag :: t in known && t !in tags ==> t in known - tags;
  }

  /** The first `n` of the old devices have been passed, which left the first `i` of the present ones. */
  ghost predicate SweptSoFar(vs: seq<DevVal>, now: seq<DevVal>, n: nat, i: nat, v: DevVal, worlds: nat -> World) {
    n <= |vs| && now == Swept(vs[..n], v, worlds) + vs[n..] && i == |Swept(vs[..n], v, worlds)|
  }

  lemma NoneSwept(vs: seq<DevVal>, v: DevVal, worlds: nat -> World)
    ensures SweptSoFar(vs, vs, 0, 0, v, worlds)
  {
    assert vs[..0] == [] && vs[0..] == vs;
  }

  lemma SweptMore(vs: seq<DevVal>, was: seq<DevVal>, now: seq<DevVal>, n: nat, i: nat, v: DevVal,
      worlds: nat -> World, kept: bool)
    requires SweptSoFar(vs, was, n, i, v, worlds) && SweptAt(was, now, i, v, worlds(n), kept)
    ensures SweptSoFar(vs, now, n + 1, if kept then i + 1 else i, v, worlds)
  {
    hide Swept, Spared, Reexamined;
    SweptNext(vs, v, worlds, n);
    var a := Swept(vs[..n], v, worlds);
    assert was[i] == vs[n] && was[..i] == a && was[i + 1..] == vs[n + 1..];
  }

  lemma SweptWhole(vs: seq<DevVal>, now: seq<DevVal>, n: nat, i: nat, v: DevVal, worlds: nat -> World)
    requires SweptSoFar(vs, now, n, i, v, worlds) && i >= |now|
    ensures now == Swept(vs, v, worlds)
  {
    hide Swept;
    assert vs[..n] == vs && vs[n..] == [];
    assert Swept(vs, v, worlds) + [] == Swept(vs, v, worlds);
  }

  lemma SweepStarts(cache: Cache, dev: Dev, known: set<Tag>)
    requires cache.Valid() && dev in cache.devs && dev.verified && known == TagsOf(cache.devs)
    ensures Sweeping(cache, dev, 0, cache.devs, known)
  {
    hide Cache.Valid, TagsOf;
    AllTagsKnown(cache.devs);
  }

  /** The sweep's invariant: the first `i` devices of the ring have been passed. */
  ghost predicate Sweeping(cache: Cache, dev: Dev, i: nat, all: seq<Dev>, known: set<Tag>)
    reads *
  {
    && cache.Valid() && dev in cache.devs && dev.verified
    && i <= |cache.devs| && Passed(dev, cache.devs[..i])
    && Subset(cache.devs, all) && TagsKnown(cache.devs, known)
  }

  lemma SweptAll(cache: Cache, dev: Dev, i: nat, all: seq<Dev>, known: set<Tag>)
    requires Sweeping(cache, dev, i, all, known) && i >= |cache.devs|
    ensures cache.Valid() && dev in cache.devs && dev.verified && Passed(dev, cache.devs)
    ensures Subset(cache.devs, all) && TagsKnown(cache.devs, known)
  {
    assert cache.devs[..i] == cache.devs;
  }

  lemma SweepFootprint(cache: Cache, dev: Dev, i: nat, all: seq<Dev>, known: set<Tag>, tags: set<Tag>)
    requires Sweeping(cache, dev, i, all, known) && i < |cache.devs|
    ensures cache.devs[i] in all
    ensures forall j :: 0 <= j < |cache.devs[i].tags| ==>
      cache.devs[i].tags[j] in tags || cache.devs[i].tags[j] in known - tags
  {
    assert cache.devs[i] in cache.devs;
    forall j | 0 <= j < |cache.devs[i].tags| ensures cache.devs[i].tags[j] in known {
      assert cache.devs[i].tags[j] in cache.devs[i].tags;
    }
    hide *;
  }

  method SweepOne(cache: Cache, dev: Dev, i: nat, w: World, ghost all: seq<Dev>, ghost known: set<Tag>,
      ghost v: DevVal)
    returns (kept: bool, ghost more: set<Tag>)
    requires Sweeping(cache, dev, i, all, known) && i < |cache.devs| && ValOf(dev) == v
    modifies cache`heads, cache`changed, cache`devs, cache.heads, cache.devs[i], cache.devs[i].tags
    ensures Sweeping(cache, dev, if kept then i + 1 else i, all, known + more) && fresh(more)
    ensures |cache.devs| == if kept then |old(cache.devs)| else |old(cache.devs)| - 1
    ensures ValOf(dev) == v && SweptAt(old(Vals(cache.devs)), Vals(cache.devs), i, v, w, kept)
    ensures forall h: Head :: h in cache.heads ==> h in old(cache.heads) || fresh(h)
  {
    hide *;
    var p := cache.devs[i];
    ghost var ds, rest := cache.devs, cache.devs[..i] + cache.devs[i + 1..];
    SweepSplit(cache, dev, i, all, known);
    kept, more := SweepStep(cache, dev, p, w, i, rest, known, v);
    if kept {
      TagsKnownOne(ds, i, known, known + more);
    } else {
      TagsKnownMore(rest, known, known + more);
    }
    SweepAgain(cache, dev, if kept then i + 1 else i, all, known + more);
  }

  lemma SweepSplit(cache: Cache, dev: Dev, i: nat, all: seq<Dev>, known: set<Tag>)
    requires Sweeping(cache, dev, i, all, known) && i < |cache.devs|
    ensures var ds := cache.devs;
      && cache.Valid() && dev in ds && dev.verified && Passed(dev, ds[..i]) && Subset(ds, all)
      && var rest := ds[..i] + ds[i + 1..];
      && Subset(rest, all) && ds[i] !in rest && TagsKnown(rest, known) && TagsKnown([ds[i]], known)
      && |rest| == |ds| - 1
  {
    var ds := cache.devs;
    RestOf(ds, i, all);
    assert Distinct(ds) && ds[i] in ds;
    hide Cache.Valid, Passed;
  }

  lemma SweepAgain(cache: Cache, dev: Dev, i: nat, all: seq<Dev>, known: set<Tag>)
    requires cache.Valid() && dev in cache.devs && dev.verified && i <= |cache.devs| && Passed(dev, cache.devs[..i])
    requires Subset(cache.devs, all) && TagsKnown(cache.devs, known)
    ensures Sweeping(cache, dev, i, all, known)
  {
  }

  lemma RestOf(ds: seq<Dev>, i: nat, all: seq<Dev>)
    requires i < |ds| && Subset(ds, all)
    ensures var rest := ds[..i] + ds[i + 1..];
      Subset(rest, all) && Subset(rest, ds) && (Distinct(ds) ==> ds[i] !in rest)
  {
    var rest := ds[..i] + ds[i + 1..];
    forall j | 0 <= j < |rest| ensures rest[j] == ds[if j < i then j else j + 1] {
    }
  }

  lemma TagsOfKnown(ds: seq<Dev>, known: set<Tag>)
    requires TagsKnown(ds, known)
    ensures TagsOf(ds) <= known
  {
  }

  lemma TagsKnownMore(ds: seq<Dev>, a: set<Tag>, b: set<Tag>)
    requires TagsKnown(ds, a) && a <= b
    ensures TagsKnown(ds, b)
  {
  }

  lemma TagsKnownOne(ds: seq<Dev>, i: nat, a: set<Tag>, b: set<Tag>)
    requires i < |ds| && TagsKnown(ds[..i] + ds[i + 1..], a) && a <= b && TagsKnown([ds[i]], b)
    ensures TagsKnown(ds, b)
  {
    var rest := ds[..i] + ds[i + 1..];
    forall d: Dev | d in ds ensures d == ds[i] || d in rest {
      var j :| 0 <= j < |ds| && ds[j] == d;
      if j != i { assert rest[if j < i then j else j - 1] == d; }
    }
  }

  /** The refresh and sweep of BLKID_DEV_VERIFY. */
  method VerifyAndSweep(cache: Cache, dev: Dev, worlds: nat -> World, ghost i: nat) returns (r: Dev?)
    requires cache.Valid() && i < |cache.devs| && dev == cache.devs[i]
    modifies cache`heads, cache`changed, cache`devs, cache.heads, cache.devs, TagsOf(cache.devs)
    ensures cache.Valid()
    ensures r != null ==> r == dev && r in cache.devs
    ensures r != null && r.verified ==> Passed(r, cache.devs)
    ensures Subset(cache.devs, old(cache.devs))
    ensures forall t: Tag :: t in TagsOf(cache.devs) ==> t in old(TagsOf(cache.devs)) || fresh(t)
    ensures forall h: Head :: h in cache.heads ==> h in old(cache.heads) || fresh(h)
    ensures r == null <==> VerifiedVal(old(ValOf(dev)), worlds(0)).None?
    ensures Vals(cache.devs) == VerifiedVals(old(Vals(cache.devs)), i, worlds)
  {
    hide *;
    ghost var ds, tags, vs := cache.devs, TagsOf(cache.devs), Vals(cache.devs);
    AllTagsKnown(ds);
    DevInside(cache, dev);
    RingDistinct(cache);
    ghost var more;
    r, more := VerifyKnown(cache, dev, worlds(0), tags);
    TagsOfKnown(cache.devs, tags + more);
    AfterVerify(ds, vs, i, worlds(0));
    VerifiedValsIs(vs, i, worlds);
    if r != null { PlainOf(dev); }
    if r == null || !r.verified {
      return;
    }
    ghost var mid := cache.devs;
    HeadsInHeads(cache);
    SubsetIndex(mid, ds);
    TagsSplit(TagsOf(mid), tags, more);
    Sweep(cache, r, Later(worlds));
    SubsetTransitive(cache.devs, mid, ds);
  }

  lemma RingDistinct(cache: Cache)
    requires cache.Valid()
    ensures Distinct(cache.devs)
    ensures forall i :: 0 <= i < |cache.devs| ==> cache.devs[i] in cache.devs
  {
  }

  lemma VerifiedValsIs(us: seq<DevVal>, i: nat, worlds: nat -> World)
    requires i < |us|
    ensures var x := VerifiedVal(us[i], worlds(0));
      VerifiedVals(us, i, worlds) ==
        if x.None? then Removed(us, i)
        else if !x.value.verified then us[i := x.value]
        else Swept(us[i := x.value], x.value, Later(worlds))
  {
    hide VerifiedVal, Swept;
  }

  /** The values after the i-th device has been verified. */
  lemma AfterVerify(ds: seq<Dev>, vs: seq<DevVal>, i: nat, w: World)
    requires i < |ds| && |vs| == |ds| && Distinct(ds) && Others(ds, ds[i], vs)
    requires var x := VerifiedVal(vs[i], w); x.Some? ==> ValOf(ds[i]) == x.value
    ensures var x := VerifiedVal(vs[i], w);
      Vals(if x.None? then Without(ds, ds[i]) else ds) == if x.None? then Removed(vs, i) else vs[i := x.value]
  {
    hide *;
    ValsChanged(ds, i, vs);
    ValsLeft(ds, i, vs);
  }

  /** blkid_verify(), with the tags the cache can reach afterwards. */
  method VerifyKnown(cache: Cache, dev: Dev, w: World, ghost known: set<Tag>) returns (r: Dev?, ghost more: set<Tag>)
    requires cache.Valid() && dev in cache.devs && TagsKnown(cache.devs, known)
    modifies cache`heads, cache`changed, cache`devs, cache.heads, dev, dev.tags
    ensures cache.Valid() && TagsKnown(cache.devs, known + more) && fresh(more)
    ensures var v := VerifiedVal(old(ValOf(dev)), w);
      && r == (if v.None? then null else dev)
      && cache.devs == (if v.None? then Without(old(cache.devs), dev) else old(cache.devs))
      && (v.Some? ==> ValOf(dev) == v.value)
    ensures old(OutcomeOf(dev.time, dev.utime, dev.verified, w)).Keep? ==> SnapOf(dev) == old(SnapOf(dev))
    ensures Same(old(cache.devs), dev, old(Snapshot(cache.devs))) && dev.pri == old(dev.pri)
    ensures Others(old(cache.devs), dev, old(Vals(cache.devs)))
    ensures Subset(cache.devs, old(cache.devs))
    ensures forall h: Head :: h in cache.heads ==> h in old(cache.heads) || fresh(h)
  {
    hide *;
    ghost var ds, i := cache.devs, IndexOf(cache.devs, dev);
    ghost var rest := ds[..i] + ds[i + 1..];
    KnownParts(cache, dev, i, known);
    r := Verify(cache, dev, w);
    more := set t | t in dev.tags && fresh(t);
    if r != null {
      TagsAre(dev, known + more);
      TagsKnownOne(ds, i, known, known + more);
    } else {
      TagsKnownMore(rest, known, known + more);
    }
  }

  lemma TagsAre(dev: Dev, known: set<Tag>)
    requires forall t: Tag :: t in dev.tags ==> t in known
    ensures TagsKnown([dev], known)
  {
  }

  /** What is known before one device is verified: its own tags, and those of the others. */
  lemma KnownParts(cache: Cache, dev: Dev, i: nat, known: set<Tag>)
    requires cache.Valid() && dev in cache.devs && TagsKnown(cache.devs, known) && i == IndexOf(cache.devs, dev)
    ensures i < |cache.devs| && cache.devs[i] == dev
    ensures var rest := cache.devs[..i] + cache.devs[i + 1..];
      && Without(cache.devs, dev) == rest && dev !in rest && TagsKnown(rest, known)
      && Subset(rest, cache.devs) && Subset(cache.devs, cache.devs)
    ensures forall t: Tag :: t in dev.tags ==> t in known
  {
    assert Distinct(cache.devs);
    RestOf(cache.devs, i, cache.devs);
    hide Cache.Valid, Distinct;
  }

  /** blkid_get_dev(): a device is returned when the name is known, or may be created, and verification, if asked for,
      does not drop it; what becomes of all devices is a function of their values. */
  method GetDev(cache: Cache, name: string, create: bool, verify: bool, accessible: bool, worlds: nat -> World)
      returns (dev: Dev?)
    requires cache.Valid()
    modifies cache`heads, cache`changed, cache`devs, cache.heads, cache.devs, TagsOf(cache.devs)
    ensures cache.Valid()
    ensures dev != null ==> dev in cache.devs && dev.name == name
    ensures Vals(cache.devs) == GotVals(old(Vals(cache.devs)), name, create, verify, accessible, worlds)
    ensures dev != null <==> Gets(old(Vals(cache.devs)), name, create, verify, accessible, worlds)
    ensures !verify ==>
      (dev != null <==> (create && accessible) || exists d: Dev :: d in old(cache.devs) && d.name == name)
    ensures !verify ==> cache.devs == old(cache.devs) + if dev != null && dev !in old(cache.devs) then [dev] else []
    ensures verify && dev != null && dev.verified ==> Passed(dev, cache.devs)
    ensures forall i :: 0 <= i < |cache.devs| ==>
      cache.devs[i] in old(cache.devs) || (fresh(cache.devs[i]) && cache.devs[i].name == name)
    ensures forall t: Tag :: t in TagsOf(cache.devs) ==> t in old(TagsOf(cache.devs)) || fresh(t)
    ensures forall h: Head :: h in cache.heads ==> h in old(cache.heads) || fresh(h)
  {
    hide *;
    ghost var before, tags, vs := cache.devs, TagsOf(cache.devs), Vals(cache.devs);
    KnownIs(before, name);
    dev := FindOrCreate(cache, name, create, accessible);
    ghost var us := Vals(cache.devs);
    ghost var i := PlaceOf(us, name);
    PlaceHere(cache.devs, i, dev);
    GotIs(vs, name, create, verify, accessible, worlds);
    if !verify || dev == null {
      assert before + [] == before;
      return;
    }
    ghost var mid := cache.devs;
    HeadsInHeads(cache);
    assert TagsOf(cache.devs) == tags;
    dev := VerifyAndSweep(cache, dev, worlds, i);
    SubsetIndex(cache.devs, mid);
    forall i | 0 <= i < |cache.devs|
      ensures cache.devs[i] in before || (fresh(cache.devs[i]) && cache.devs[i].name == name)
    {
      var j :| 0 <= j < |mid| && mid[j] == cache.devs[i];
    }
  }

  lemma KnownIs(ds: seq<Dev>, name: string)
    ensures PlaceOf(Vals(ds), name) < |Vals(ds)| <==> exists d: Dev :: d in ds && d.name == name
  {
    NamesAre(ds);
    hide Vals;
    var i := PlaceOf(Vals(ds), name);
    if i < |ds| { assert ds[i] in ds && ds[i].name == name; }
    if d: Dev :| d in ds && d.name == name {
      var j :| 0 <= j < |ds| && ds[j] == d;
      assert Vals(ds)[j].name == name;
    }
  }

  lemma PlaceHere(ds: seq<Dev>, i: nat, dev: Dev?)
    requires At(ds, i, dev)
    ensures dev != null <==> i < |ds|
    ensures dev != null ==> ds[i] == dev && Vals(ds)[i] == ValOf(dev)
    ensures |Vals(ds)| == |ds|
  {
    hide ValOf;
  }

  lemma GotIs(vs: seq<DevVal>, name: string, create: bool, verify: bool, accessible: bool, worlds: nat -> World)
    ensures var us := FoundVals(vs, name, create, accessible); var i := PlaceOf(us, name);
      && GotVals(vs, name, create, verify, accessible, worlds)
        == (if !verify || i == |us| then us else VerifiedVals(us, i, worlds))
      && (Gets(vs, name, create, verify, accessible, worlds) <==>
        i < |us| && (verify ==> VerifiedVal(us[i], worlds(0)).Some?))
      && (i < |us| <==> PlaceOf(vs, name) < |vs| || (create && accessible))
  {
    hide PlaceOf, VerifiedVals, VerifiedVal;
    var us := FoundVals(vs, name, create, accessible);
    assert |us| > |vs| ==> us[|vs|].name == name;
  }

  lemma SubsetGrown(a: seq<Dev>, b: seq<Dev>, d: Dev?)
    ensures a == b || (d != null && b == a + [d]) ==> Subset(a, b)
  {
  }

  lemma SubsetIndex(a: seq<Dev>, b: seq<Dev>)
    requires Subset(a, b)
    ensures forall i :: 0 <= i < |a| ==> a[i] in b
  {
    assert forall i :: 0 <= i < |a| ==> a[i] in a;
  }

  lemma SubsetTransitive(a: seq<Dev>, b: seq<Dev>, c: seq<Dev>)
    requires Subset(a, b) && Subset(b, c)
    ensures Subset(a, c)
  {
  }

  lemma AllTagsKnown(ds: seq<Dev>)
    ensures TagsKnown(ds, TagsOf(ds))
  {
  }

  lemma DevInside(cache: Cache, dev: Dev)
    requires dev in cache.devs
    ensures forall j :: 0 <= j < |dev.tags| ==> dev.tags[j] in TagsOf(cache.devs)
  {
    assert forall j :: 0 <= j < |dev.tags| ==> dev.tags[j] in dev.tags;
  }

  lemma TagsSplit(now: set<Tag>, tags: set<Tag>, more: set<Tag>)
    requires now <= tags + more
    ensures forall t :: t in now ==> t in tags || t in more
  {
  }

  lemma HeadsInHeads(cache: Cache)
    ensures forall i :: 0 <= i < |cache.heads| ==> cache.heads[i] in cache.heads
  {
  }
}
