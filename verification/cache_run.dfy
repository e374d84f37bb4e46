/** Whole runs: any sequence of the cache's operations, from any valid cache. */
module CacheRun {
  import opened Wrappers
  import opened TagIndex
  import opened TagCache
  import opened DevCache
  import opened DevVerify
  import opened DevGet
  import opened DevValue
  import opened GetValue
  import opened RunValue

  /** Every object the cache reaches is in `k`. */
  ghost predicate Within(c: Cache, k: set<object>)
    reads c`heads, c`devs, c.devs`tags
  {
    && c in k
    && (forall h: Head :: h in c.heads ==> h in k)
    && (forall d: Dev :: d in c.devs ==> d in k)
    && (forall d: Dev, t: Tag :: d in c.devs && t in d.tags ==> t in k)
  }

  /** Every object the cache reaches. */
  ghost function Reach(c: Cache): set<object>
    reads c`heads, c`devs, c.devs`tags
  {
    var hs: set<object> := set h: Head | h in c.heads;
    var ds: set<object> := set d: Dev | d in c.devs;
    hs + ds + TagsOf(c.devs) + {c}
  }

  lemma ReachWithin(c: Cache)
    ensures Within(c, Reach(c))
  {
  }

  lemma WithinParts(c: Cache, k: set<object>)
    requires Within(c, k)
    ensures c in k && (forall d: Dev :: d in c.devs ==> d in k) && (forall h: Head :: h in c.heads ==> h in k)
    ensures forall i :: 0 <= i < |c.heads| ==> c.heads[i] in k
    ensures forall i :: 0 <= i < |c.devs| ==> c.devs[i] in k
    ensures forall t :: t in TagsOf(c.devs) ==> t in k
    ensures TagsKnown(c.devs, TagsOf(c.devs))
  {
  }

  lemma WithinDev(c: Cache, k: set<object>, d: Dev)
    requires Within(c, k) && d in c.devs
    ensures d in k && forall i :: 0 <= i < |d.tags| ==> d.tags[i] in k
  {
  }

  /** The objects the cache reaches after a call. */
  lemma WithinAgain(c: Cache, k: set<object>, tags: set<Tag>)
    requires c in k && TagsKnown(c.devs, tags) && forall t :: t in tags ==> t in k
    requires forall h: Head :: h in c.heads ==> h in k
    requires forall d: Dev :: d in c.devs ==> d in k
    ensures Within(c, k)
  {
  }

  /** Finds a device by name. */
  method Find(cache: Cache, name: string) returns (dev: Dev?)
    ensures dev != null ==> dev in cache.devs && dev.name == name
    ensures dev == null ==> forall d: Dev :: d in cache.devs ==> d.name != name
  {
    for i := 0 to |cache.devs|
      invariant forall k :: 0 <= k < i ==> cache.devs[k].name != name
    {
      if cache.devs[i].name == name {
        return cache.devs[i];
      }
    }
    return null;
  }

  lemma DevTags(d: Dev, b: set<Tag>)
    requires forall t: Tag :: t in d.tags ==> t in b
    ensures TagsKnown([d], b)
  {
  }

  /** Where a device is in the ring; what is known of the others. */
  lemma DevPlace(cache: Cache, dev: Dev) returns (i: nat)
    requires cache.Valid() && dev in cache.devs
    ensures i < |cache.devs| && cache.devs[i] == dev
    ensures var ds, tags := cache.devs, TagsOf(cache.devs);
      && var rest := ds[..i] + ds[i + 1..];
      && dev !in rest && (forall j :: 0 <= j < |rest| ==> rest[j] != dev && rest[j] in ds)
      && TagsKnown(rest, tags) && TagsKnown([dev], tags) && rest == Without(ds, dev)
  {
    var ds := cache.devs;
    i := IndexOf(ds, dev);
    RestOf(ds, i, ds);
    assert Distinct(ds);
    var rest := ds[..i] + ds[i + 1..];
    assert forall j :: 0 <= j < |rest| ==> rest[j] in rest;
    hide Cache.Valid, Distinct;
  }

  /** The plain fields that the cache file keeps of a device. */
  datatype Nums = Nums(devno: nat, time: int, utime: int, pri: int)

  ghost function Numbers(ds: seq<Dev>): (r: seq<Nums>)
    reads ds`devno, ds`time, ds`utime, ds`pri
    ensures |r| == |ds| && forall i :: 0 <= i < |ds| ==> r[i] == Nums(ds[i].devno, ds[i].time, ds[i].utime, ds[i].pri)
  {
    if ds == [] then [] else [Nums(ds[0].devno, ds[0].time, ds[0].utime, ds[0].pri)] + Numbers(ds[1..])
  }

  /** What a step needs to know of the values before it. */
  lemma BeforeStep(cache: Cache, i: nat)
    requires cache.Valid() && i < |cache.devs|
    ensures var ds, vs := cache.devs, Vals(cache.devs);
      && |vs| == |ds| && vs[i] == ValOf(ds[i]) && PlaceOf(vs, ds[i].name) == i
      && Recorded(ds, ds[i], Snapshot(ds), vs) && PlainAre(ds, ds[i], vs)
  {
    Record(cache.devs, cache.devs[i]);
    ValsOneName(cache);
    PlaceIs(cache.devs, i);
    hide Cache.Valid, PlaceOf, OneName;
  }

  /** The values after a step that changed one device. */
  lemma AfterChange(cache: Cache, i: nat, vs: seq<DevVal>, op: Op)
    requires cache.Valid() && i < |cache.devs| && |vs| == |cache.devs| && Others(cache.devs, cache.devs[i], vs)
    requires PlaceOf(vs, op.dev) == i && !op.OpGetDev? && Changed(vs[i], op) == Some(ValOf(cache.devs[i]))
    ensures Vals(cache.devs) == After(vs, op)
  {
    RingDistinct(cache);
    hide Cache.Valid, Others, Changed, PlaceOf, Vals, ValOf;
    ValsChanged(cache.devs, i, vs);
  }

  /** ... or removed it. */
  lemma AfterRemoval(ds: seq<Dev>, i: nat, vs: seq<DevVal>, op: Op)
    requires Distinct(ds) && i < |ds| && |vs| == |ds| && Others(ds, ds[i], vs)
    requires PlaceOf(vs, op.dev) == i && !op.OpGetDev? && Changed(vs[i], op) == None
    ensures Vals(Without(ds, ds[i])) == After(vs, op)
  {
    hide Others, Changed, PlaceOf, Vals, ValOf;
    ValsLeft(ds, i, vs);
  }

  lemma PairsSet(dev: Dev, v: DevVal, op: Op)
    requires PlainIs(dev, v) && !op.OpGetDev?
    ensures op.OpSetTag? && dev.Pairs() == SetPair(v.pairs, op.name, Stored(op.value, op.vlength)) ==>
      Changed(v, op) == Some(ValOf(dev))
    ensures op.OpFreeTag? && dev.Pairs() == SetPair(v.pairs, op.name, None) ==> Changed(v, op) == Some(ValOf(dev))
  {
    hide SetPair;
  }

  lemma ValParts(dev: Dev)
    ensures PlainIs(dev, ValOf(dev)) && ValOf(dev).pairs == dev.Pairs() && ValOf(dev).name == dev.name
  {
  }

  /** blkid_set_tag(), with what it does to the values. */
  method PutTagOn(cache: Cache, dev: Dev, ghost i: nat, name: string, value: Option<string>, vlength: nat)
    returns (ghost vs: seq<DevVal>)
    requires cache.Valid() && i < |cache.devs| && dev == cache.devs[i] && dev in cache.devs
    modifies cache`heads, cache`changed, cache.heads`members, dev`tags, dev`bidType, dev`bidLabel, dev`bidUuid,
      dev.tags`val, dev.tags`live
    ensures cache.Valid() && cache.devs == old(cache.devs)
    ensures dev.Pairs() == SetPair(old(dev.Pairs()), name, Stored(value, vlength))
    ensures Same(cache.devs, dev, old(Snapshot(cache.devs)))
    ensures forall h: Head :: h in cache.heads ==> h in old(cache.heads) || fresh(h)
    ensures forall t: Tag :: t in dev.tags ==> t in old(dev.tags) || fresh(t)
    ensures vs == old(Vals(cache.devs))
    ensures Vals(cache.devs) == After(vs, OpSetTag(dev.name, name, value, vlength))
  {
    hide *;
    ghost var ds, snap := cache.devs, Snapshot(cache.devs);
    vs := Vals(ds);
    BeforeStep(cache, i);
    ValParts(dev);
    assert allocated(ds);
    var rc := SetTag(cache, dev, name, value, vlength);
    OthersAre(ds, dev, snap, vs);
    PairsSet(dev, vs[i], OpSetTag(dev.name, name, value, vlength));
    AfterChange(cache, i, vs, OpSetTag(dev.name, name, value, vlength));
  }

  /** blkid_set_tag() as a step of a run. */
  method StepSetTag(cache: Cache, dev: Dev, name: string, value: Option<string>, vlength: nat, ghost k: set<object>)
    returns (ghost more: set<object>)
    requires cache.Valid() && dev in cache.devs && Within(cache, k)
    modifies k
    ensures cache.Valid() && cache.probed == old(cache.probed) && fresh(more) && Within(cache, k + more)
    ensures cache.devs == old(cache.devs) && dev.Pairs() == SetPair(old(dev.Pairs()), name, Stored(value, vlength))
    ensures Same(cache.devs, dev, old(Snapshot(cache.devs))) && Numbers(cache.devs) == old(Numbers(cache.devs))
    ensures Vals(cache.devs) == After(old(Vals(cache.devs)), OpSetTag(dev.name, name, value, vlength))
  {
    hide *;
    ghost var ds, tags := cache.devs, TagsOf(cache.devs);
    ghost var i := DevPlace(cache, dev);
    ghost var rest := ds[..i] + ds[i + 1..];
    WithinParts(cache, k);
    WithinDev(cache, k, dev);
    ghost var vs := PutTagOn(cache, dev, i, name, value, vlength);
    assert TagsKnown(rest, tags);
    ghost var mt := set t | t in dev.tags && fresh(t);
    ghost var mh: set<object> := set h: Head | h in cache.heads && fresh(h);
    more := mh + mt;
    DevTags(dev, tags + mt);
    TagsKnownOne(ds, i, tags, tags + mt);
    WithinAgain(cache, k + more, tags + mt);
  }

  method StepFreeTag(cache: Cache, dev: Dev, name: string, ghost k: set<object>)
    requires cache.Valid() && dev in cache.devs && Within(cache, k) && !Common(name)
    modifies k
    ensures cache.Valid() && cache.probed == old(cache.probed) && Within(cache, k)
    ensures Vals(cache.devs) == After(old(Vals(cache.devs)), OpFreeTag(dev.name, name))
  {
    hide *;
    assert allocated(TagsOf(cache.devs)) && allocated(MembersOf(cache.heads)) && allocated(cache.devs)
      && allocated(cache.heads);
    var t := FindTagDev(dev, name);
    if t == null {
      NothingFreed(cache, dev, name);
      return;
    }
    TagReached(cache, dev, t, k);
    ghost var ds, tags := cache.devs, TagsOf(cache.devs);
    ghost var i := DevPlace(cache, dev);
    ghost var rest := ds[..i] + ds[i + 1..];
    WithinParts(cache, k);
    WithinDev(cache, k, dev);
    FreeCommonless(cache, dev, i, t, tags);
    assert TagsKnown(rest, tags);
    TagsKnownOne(ds, i, tags, tags);
    WithinAgain(cache, k, tags);
  }

  lemma TagReached(cache: Cache, dev: Dev, t: Tag, k: set<object>)
    requires cache.Valid() && dev in cache.devs && t in dev.tags && Within(cache, k)
    ensures t.dev == dev && t.ring != null && t in k && t.ring in k
  {
    assert dev.Ok();
    hide Dev.Ok, Distinct;
  }

  lemma NothingFreed(cache: Cache, dev: Dev, name: string)
    requires cache.Valid() && dev in cache.devs && forall t: Tag :: t in dev.tags ==> t.name != name
    ensures Vals(cache.devs) == After(Vals(cache.devs), OpFreeTag(dev.name, name))
  {
    var i := DevPlace(cache, dev);
    BeforeStep(cache, i);
    ValParts(dev);
    SetAbsent(dev.Pairs(), name, None);
    assert dev.Pairs() + [] == dev.Pairs();
    PairsSet(dev, ValOf(dev), OpFreeTag(dev.name, name));
    AllSame(cache, dev);
    AfterChange(cache, i, Vals(cache.devs), OpFreeTag(dev.name, name));
  }

  lemma TagsLeft(cache: Cache, dev: Dev, t: Tag, tags: set<Tag>)
    requires cache.Valid() && dev in cache.devs && t in dev.tags && TagsKnown([dev], tags)
    ensures forall x: Tag :: x in Without(dev.tags, t) ==> x in tags
  {
    assert dev.Ok() && dev in [dev];
    WithoutMembers(dev.tags, t);
    hide Cache.Valid;
  }

  /** blkid_free_tag() on a tag without a shortcut. */
  method FreeCommonless(cache: Cache, dev: Dev, ghost i: nat, t: Tag, ghost tags: set<Tag>)
    requires cache.Valid() && i < |cache.devs| && dev == cache.devs[i] && dev in cache.devs
    requires t.dev == dev && t in dev.tags && !Common(t.name) && TagsKnown([dev], tags)
    modifies t`live, dev`tags, t.ring`members
    ensures cache.Valid() && TagsKnown([dev], tags)
    ensures Vals(cache.devs) == After(old(Vals(cache.devs)), OpFreeTag(dev.name, t.name))
  {
    hide *;
    TagsLeft(cache, dev, t, tags);
    ghost var ds, snap, vs := cache.devs, Snapshot(cache.devs), Vals(cache.devs);
    BeforeStep(cache, i);
    ValParts(dev);
    assert allocated(ds);
    FreeTagDirectly(cache, t);
    DevTags(dev, tags);
    OthersAre(ds, dev, snap, vs);
    PairsSet(dev, vs[i], OpFreeTag(dev.name, t.name));
    AfterChange(cache, i, vs, OpFreeTag(dev.name, t.name));
  }

  method StepFreeDev(cache: Cache, dev: Dev, ghost k: set<object>)
    requires cache.Valid() && dev in cache.devs && Within(cache, k)
    modifies k
    ensures cache.Valid() && cache.probed == old(cache.probed) && Within(cache, k)
    ensures cache.devs == Without(old(cache.devs), dev) && !dev.live && cache.changed == old(cache.changed)
    ensures Same(old(cache.devs), dev, old(Snapshot(cache.devs)))
      && Numbers(old(cache.devs)) == old(Numbers(cache.devs))
    ensures Vals(cache.devs) == After(old(Vals(cache.devs)), OpFreeDev(dev.name))
  {
    hide *;
    ghost var ds, tags, vs := cache.devs, TagsOf(cache.devs), Vals(cache.devs);
    ghost var i := DevPlace(cache, dev);
    ghost var rest := ds[..i] + ds[i + 1..];
    WithinParts(cache, k);
    WithinDev(cache, k, dev);
    assert forall j :: 0 <= j < |rest| ==> rest[j] in k;
    AllIn(rest, k);
    BeforeStep(cache, i);
    RingDistinct(cache);
    DropDev(cache, dev);
    FreedIs(vs[i]);
    AfterRemoval(ds, i, vs, OpFreeDev(dev.name));
    assert TagsKnown(rest, tags);
    WithinAgain(cache, k, tags);
  }

  lemma FreedIs(v: DevVal)
    ensures forall name :: Changed(v, OpFreeDev(name)) == None
  {
  }

  /** The plain fields that probe_one() and the cache reader store. */
  method StepNote(cache: Cache, dev: Dev, devno: nat, pri: int, time: int, utime: int, removable: bool,
      ghost k: set<object>)
    requires cache.Valid() && dev in cache.devs && Within(cache, k)
    modifies k
    ensures cache.Valid() && cache.probed == old(cache.probed) && Within(cache, k)
    ensures Vals(cache.devs) == After(old(Vals(cache.devs)), OpNote(dev.name, devno, pri, time, utime, removable))
  {
    hide *;
    WithinDev(cache, k, dev);
    ghost var ds, snap, vs := cache.devs, Snapshot(cache.devs), Vals(cache.devs);
    ghost var i := DevPlace(cache, dev);
    BeforeStep(cache, i);
    AllSame(cache, dev);
    PlainParts(ds, dev, vs);
    ValParts(dev);
    PlainOf(dev);
    assert allocated(ds) && allocated(TagsOf(ds));
    ghost var ps := dev.Pairs();
    StoreFields(cache, dev, devno, pri, time, utime, removable, k);
    PlainParts(ds, dev, vs);
    OthersAre(ds, dev, snap, vs);
    NotedIs(dev, vs[i], devno, pri, time, utime, removable);
    AfterChange(cache, i, vs, OpNote(dev.name, devno, pri, time, utime, removable));
  }

  lemma NotedIs(dev: Dev, v: DevVal, devno: nat, pri: int, time: int, utime: int, removable: bool)
    requires v.name == dev.name && v.pairs == dev.Pairs() && v.verified == dev.verified
    requires dev.devno == devno && dev.pri == pri && dev.time == time && dev.utime == utime
    requires dev.removable == removable
    ensures Changed(v, OpNote(dev.name, devno, pri, time, utime, removable)) == Some(ValOf(dev))
  {
  }

  method StoreFields(cache: Cache, dev: Dev, devno: nat, pri: int, time: int, utime: int, removable: bool,
      ghost k: set<object>)
    requires cache.Valid() && Within(cache, k)
    modifies dev`devno, dev`pri, dev`time, dev`utime, dev`removable
    ensures cache.Valid() && Within(cache, k)
    ensures dev.devno == devno && dev.pri == pri && dev.time == time && dev.utime == utime && dev.removable == removable
  {
    hide *;
    dev.devno, dev.pri := devno, pri;
    dev.time, dev.utime := time, utime;
    dev.removable := removable;
  }

  method StepVerify(cache: Cache, dev: Dev, w: World, ghost k: set<object>) returns (r: Dev?, ghost more: set<object>)
    requires cache.Valid() && dev in cache.devs && Within(cache, k)
    modifies k
    ensures cache.Valid() && cache.probed == old(cache.probed) && fresh(more) && Within(cache, k + more)
    ensures if r == null then cache.devs == Without(old(cache.devs), dev) else r == dev && cache.devs == old(cache.devs)
    ensures r != null && !old(OutcomeOf(dev.time, dev.utime, dev.verified, w)).Keep? ==> dev.verified
    ensures old(OutcomeOf(dev.time, dev.utime, dev.verified, w)).Keep? ==>
      SnapOf(dev) == old(SnapOf(dev)) && dev.verified == old(dev.verified) && dev.time == old(dev.time)
        && dev.utime == old(dev.utime)
    ensures Same(old(cache.devs), dev, old(Snapshot(cache.devs)))
    ensures var ds := old(cache.devs); forall j :: 0 <= j < |ds| ==>
      ds[j].pri == old(ds[j].pri) && (ds[j] != dev ==> ds[j].verified == old(ds[j].verified))
    ensures r == null <==> VerifiedVal(old(ValOf(dev)), w).None?
    ensures Vals(cache.devs) == After(old(Vals(cache.devs)), OpVerify(dev.name, w))
  {
    hide *;
    ghost var ds, tags, vs := cache.devs, TagsOf(cache.devs), Vals(cache.devs);
    ghost var i := DevPlace(cache, dev);
    WithinParts(cache, k);
    WithinDev(cache, k, dev);
    BeforeStep(cache, i);
    RingDistinct(cache);
    PlainOf(dev);
    KeptIs(vs[i], w);
    ghost var mt;
    r, mt := VerifyKnown(cache, dev, w, tags);
    if r != null {
      PlainOf(dev);
      AfterChange(cache, i, vs, OpVerify(dev.name, w));
    } else {
      AfterRemoval(ds, i, vs, OpVerify(dev.name, w));
    }
    ghost var mh: set<object> := set h: Head | h in cache.heads && fresh(h);
    more := mh + mt;
    WithinSubset(cache.devs, ds, k);
    WithinAgain(cache, k + more, tags + mt);
  }

  lemma KeptIs(v: DevVal, w: World)
    ensures var out, x := OutcomeOf(v.time, v.utime, v.verified, w), VerifiedVal(v, w);
      && (out.Keep? ==> x == Some(v)) && (!out.Keep? && x.Some? ==> x.value.verified)
    ensures Changed(v, OpVerify(v.name, w)) == VerifiedVal(v, w)
  {
  }

  lemma WithinSubset(ds: seq<Dev>, all: seq<Dev>, k: set<object>)
    requires Subset(ds, all) && forall i :: 0 <= i < |all| ==> all[i] in k
    ensures forall d: Dev :: d in ds ==> d in k
  {
  }

  method StepGetDev(cache: Cache, name: string, create: bool, verify: bool, accessible: bool, worlds: nat -> World,
      ghost k: set<object>)
    returns (ghost more: set<object>)
    requires cache.Valid() && Within(cache, k)
    modifies k
    ensures cache.Valid() && cache.probed == old(cache.probed) && fresh(more) && Within(cache, k + more)
    ensures Vals(cache.devs) ==
      After(old(Vals(cache.devs)), OpGetDev(name, create, verify, accessible, worlds))
  {
    hide *;
    WithinParts(cache, k);
    GetsAll(Vals(cache.devs), name, create, verify, accessible, worlds);
    var d := GetDev(cache, name, create, verify, accessible, worlds);
    ghost var mt: set<object> := set t | t in TagsOf(cache.devs) && fresh(t);
    ghost var mh: set<object> := set h: Head | h in cache.heads && fresh(h);
    ghost var md: set<object> := set d: Dev | d in cache.devs && fresh(d);
    more := mh + md + mt;
    AllTagsKnown(cache.devs);
    forall i | 0 <= i < |cache.devs| ensures cache.devs[i] in k + more {
      assert cache.devs[i] in cache.devs;
    }
    AllIn(cache.devs, k + more);
    WithinAgain(cache, k + more, TagsOf(cache.devs));
  }

  lemma GetsAll(vs: seq<DevVal>, name: string, create: bool, verify: bool, accessible: bool, worlds: nat -> World)
    ensures After(vs, OpGetDev(name, create, verify, accessible, worlds))
      == GotVals(vs, name, create, verify, accessible, worlds)
  {
    hide GotVals;
  }

  lemma AllIn(ds: seq<Dev>, k: set<object>)
    requires forall i :: 0 <= i < |ds| ==> ds[i] in k
    ensures forall d: Dev :: d in ds ==> d in k
  {
  }

  /** One call of a run. `k` is what the cache reaches before, `more` what it may reach besides afterwards. */
  method Step(cache: Cache, op: Op, ghost k: set<object>) returns (ghost more: set<object>)
    requires cache.Valid() && Allowed(op) && Within(cache, k)
    modifies k
    ensures cache.Valid() && cache.probed == old(cache.probed) && fresh(more) && Within(cache, k + more)
    ensures Vals(cache.devs) == After(old(Vals(cache.devs)), op)
  {
    hide *;
    more := {};
    assert k + {} == k;
    if op.OpGetDev? {
      more := StepGetDev(cache, op.dev, op.create, op.verify, op.accessible, op.worlds, k);
      return;
    }
    assert allocated(TagsOf(cache.devs)) && allocated(MembersOf(cache.heads)) && allocated(cache.devs)
      && allocated(cache.heads);
    var dev := Find(cache, op.dev);
    if dev == null {
      Nowhere(cache.devs, op);
      return;
    }
    AllowedIs(op);
    match op
    case OpSetTag(_, name, value, vlength) => more := StepSetTag(cache, dev, name, value, vlength, k);
    case OpFreeTag(_, name) => StepFreeTag(cache, dev, name, k);
    case OpFreeDev(_) => StepFreeDev(cache, dev, k);
    case OpNote(_, devno, pri, time, utime, removable) => StepNote(cache, dev, devno, pri, time, utime, removable, k);
    case OpVerify(_, world) => var _, m := StepVerify(cache, dev, world, k); more := m;
  }

  lemma AllowedIs(op: Op)
    requires Allowed(op)
    ensures op.OpFreeTag? ==> !Common(op.name)
  {
  }

  lemma Nowhere(ds: seq<Dev>, op: Op)
    requires !op.OpGetDev? && forall d: Dev :: d in ds ==> d.name != op.dev
    ensures Vals(ds) == After(Vals(ds), op)
  {
    NamesAre(ds);
    hide Changed, Vals;
    var vs := Vals(ds);
    assert forall i :: 0 <= i < |ds| ==> ds[i] in ds && vs[i].name == ds[i].name;
    assert PlaceOf(vs, op.dev) == |vs|;
  }

  /** Every sequence of calls keeps the two-way index and the shortcuts, and leaves the devices with the values that
      the calls give them one after the other. */
  method Run(cache: Cache, ops: seq<Op>, ghost k0: set<object>) returns (ghost k: set<object>)
    requires cache.Valid() && Within(cache, k0)
    requires forall i :: 0 <= i < |ops| ==> Allowed(ops[i])
    modifies k0
    ensures cache.Valid() && cache.probed == old(cache.probed) && Within(cache, k) && k0 <= k && fresh(k - k0)
    ensures Vals(cache.devs) == AfterAll(old(Vals(cache.devs)), ops)
  {
    k := k0;
    hide *;
    NoneAfter(Vals(cache.devs), ops);
    for i := 0 to |ops|
      invariant cache.Valid() && cache.probed == old(cache.probed) && Within(cache, k) && k0 <= k && fresh(k - k0)
      invariant Vals(cache.devs) == AfterAll(old(Vals(cache.devs)), ops[..i])
    {
      AfterNext(old(Vals(cache.devs)), ops, i);
      ghost var more := Step(cache, ops[i], k);
      k := k + more;
    }
    assert ops[..|ops|] == ops;
  }

  lemma NoneAfter(vs: seq<DevVal>, ops: seq<Op>)
    ensures AfterAll(vs, ops[..0]) == vs
  {
  }

  // ---------- the traversals of cache.c ----------

  ghost function Existing(ds: seq<Dev>, exists_: string -> bool): seq<Dev> {
    if ds == [] then [] else Kept(ds[0], exists_) + Existing(ds[1..], exists_)
  }

  ghost function Kept(d: Dev, exists_: string -> bool): seq<Dev> { if exists_(d.name) then [d] else [] }

  /** blkid_gc_cache(): a safe walk that frees exactly the devices whose file is gone and keeps the others in order. */
  method GcCache(cache: Cache, exists_: string -> bool, ghost k: set<object>)
    requires cache.Valid() && Within(cache, k)
    modifies k
    ensures cache.Valid() && Within(cache, k)
    ensures cache.devs == Existing(old(cache.devs), exists_)
    ensures cache.changed == (old(cache.changed) || |cache.devs| < |old(cache.devs)|)
  {
    var i := 0;
    hide *;
    while i < |cache.devs|
      invariant cache.Valid() && Within(cache, k) && i <= |cache.devs|
      invariant forall j :: 0 <= j < i ==> exists_(cache.devs[j].name)
      invariant |cache.devs| <= |old(cache.devs)|
      invariant cache.changed == (old(cache.changed) || |cache.devs| < |old(cache.devs)|)
      invariant Existing(cache.devs, exists_) == Existing(old(cache.devs), exists_)
      decreases |cache.devs| - i
    {
      if !exists_(cache.devs[i].name) {
        WithoutMissing(cache.devs, i, exists_);
        DevsDistinct(cache);
        WithinSelf(cache, k);
        StepFreeDev(cache, cache.devs[i], k);
        SetChanged(cache);
      } else {
        i := i + 1;
      }
    }
    AllExist(cache.devs, exists_);
  }

  method SetChanged(cache: Cache)
    requires cache.Valid()
    modifies cache`changed
    ensures cache.Valid() && cache.changed
  {
    hide *;
    cache.changed := true;
  }

  lemma WithoutMissing(ds: seq<Dev>, i: nat, exists_: string -> bool)
    requires i < |ds| && !exists_(ds[i].name)
    ensures ds[i] in ds
    ensures Distinct(ds) ==> Without(ds, ds[i]) == ds[..i] + ds[i + 1..]
    ensures Existing(ds[..i] + ds[i + 1..], exists_) == Existing(ds, exists_)
  {
    hide Existing;
    FoundAt(ds, i);
    ExistingParts(ds[..i], ds[i..], exists_);
    ExistingParts(ds[..i], ds[i + 1..], exists_);
    assert ds[..i] + ds[i..] == ds && ds[i..][0] == ds[i] && ds[i..][1..] == ds[i + 1..];
    MissingFirst(ds[i..], exists_);
  }

  lemma FoundAt(ds: seq<Dev>, i: nat)
    requires i < |ds|
    ensures ds[i] in ds && (Distinct(ds) ==> IndexOf(ds, ds[i]) == i)
  {
  }

  lemma MissingFirst(ds: seq<Dev>, exists_: string -> bool)
    requires ds != [] && !exists_(ds[0].name)
    ensures Existing(ds, exists_) == Existing(ds[1..], exists_)
  {
    assert Existing(ds, exists_) == Kept(ds[0], exists_) + Existing(ds[1..], exists_);
  }

  lemma Joined<T>(a: seq<T>, b: seq<T>, c: seq<T>)
    ensures a + (b + c) == (a + b) + c
  {
  }

  lemma {:induction false} ExistingParts(a: seq<Dev>, b: seq<Dev>, exists_: string -> bool)
    ensures Existing(a + b, exists_) == Existing(a, exists_) + Existing(b, exists_)
  {
    hide Kept;
    if a == [] {
      assert a + b == b && Existing([], exists_) + Existing(b, exists_) == Existing(b, exists_);
    } else {
      assert (a + b)[1..] == a[1..] + b && (a + b)[0] == a[0];
      ExistingParts(a[1..], b, exists_);
      Joined(Kept(a[0], exists_), Existing(a[1..], exists_), Existing(b, exists_));
    }
  }

  lemma {:induction false} AllExist(ds: seq<Dev>, exists_: string -> bool)
    requires forall j :: 0 <= j < |ds| ==> exists_(ds[j].name)
    ensures Existing(ds, exists_) == ds
  {
    if ds != [] {
      AllExist(ds[1..], exists_);
      assert [ds[0]] + ds[1..] == ds;
    }
  }

  lemma DevsDistinct(cache: Cache)
    requires cache.Valid()
    ensures Distinct(cache.devs)
  {
  }

  /** blkid_put_cache(), after the flush: the devices are freed, then the heads. */
  method PutCache(cache: Cache, ghost k: set<object>)
    requires cache.Valid() && Within(cache, k)
    modifies k
    ensures cache.Valid() && cache.devs == [] && cache.heads == []
  {
    hide *;
    while cache.devs != []
      invariant cache.Valid() && Within(cache, k)
      decreases |cache.devs|
    {
      FirstWithout(cache.devs);
      StepFreeDev(cache, cache.devs[0], k);
    }
    WithinSelf(cache, k);
    while cache.heads != []
      invariant cache.devs == [] && cache.Valid()
      decreases |cache.heads|
    {
      FreeHead(cache);
    }
  }

  lemma FirstWithout(ds: seq<Dev>)
    requires ds != []
    ensures ds[0] in ds && |Without(ds, ds[0])| < |ds|
  {
  }

  method FreeHead(cache: Cache)
    requires cache.Valid() && cache.devs == [] && cache.heads != []
    modifies cache`heads
    ensures cache.Valid() && cache.heads == old(cache.heads[1..])
  {
    NoTagLeft(cache);
    ghost var h0 := cache.heads;
    assert forall h: Head :: h in cache.heads ==> h.members == [];
    cache.heads := cache.heads[1..];
    assert forall h: Head :: h in cache.heads ==> h in h0;
    hide Distinct;
  }

  /** The "unfreed tag" warning of blkid_put_cache() cannot happen. */
  lemma NoTagLeft(cache: Cache)
    requires cache.Valid() && cache.devs == []
    ensures forall h: Head :: h in cache.heads ==> h.members == []
  {
    forall h: Head | h in cache.heads ensures h.members == [] {
      assert forall t: Tag :: t in h.members ==> t.dev in cache.devs;
      FirstIn(h.members);
    }
  }

  lemma FirstIn(ts: seq<Tag>)
    ensures ts != [] ==> ts[0] in ts
  {
  }

  lemma WithinSelf(cache: Cache, k: set<object>)
    requires Within(cache, k)
    ensures cache in k
  {
  }
}
