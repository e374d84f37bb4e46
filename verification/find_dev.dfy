/** blkid_find_dev_with_tag() of tag.c: the lookup that verifies what it finds, probes when it finds nothing, and
    starts again whenever either may have changed the cache. */
module FindDev {
  import opened Wrappers
  import opened TagIndex
  import opened TagCache
  import opened DevVerify
  import opened DevGet
  import opened DevValue
  import opened GetValue
  import opened RunValue
  import opened CacheRun

  /** What access(2), blkid_verify() and the two probing calls answer during one lookup; `access` and `world` may
      differ from one attempt to the next, and probing may run any calls on the cache. */
  datatype Outside = Outside(
    access: nat -> string -> bool,
    world: nat -> World,
    saved: seq<Op>,
    newOps: seq<Op>,
    newFails: bool,
    allOps: seq<Op>,
    allFails: bool)

  ghost predicate AllowedOutside(o: Outside) {
    && (forall i :: 0 <= i < |o.saved| ==> Allowed(o.saved[i]))
    && (forall i :: 0 <= i < |o.newOps| ==> Allowed(o.newOps[i]))
    && (forall i :: 0 <= i < |o.allOps| ==> Allowed(o.allOps[i]))
  }

  // ---------- what is looked for ----------

  /** What a full scan with blkid_dev_has_tag() and access() would accept. */
  ghost predicate Acceptable(d: Dev, name: string, value: string, access: string -> bool)
    reads d`tags, d.tags`val
  {
    Lookup(d.Pairs(), name) == Some(value) && access(d.name)
  }

  /** `dev` is a device of greatest priority among the acceptable ones; none is returned exactly when every
      acceptable one has a negative priority. */
  ghost predicate Best(ds: seq<Dev>, name: string, value: string, access: string -> bool, dev: Dev?)
    reads ds, TagsOf(ds)`val
  {
    if dev == null then
      forall d: Dev :: d in ds && Acceptable(d, name, value, access) ==> d.pri < 0
    else
      && dev in ds && Acceptable(dev, name, value, access) && dev.pri >= 0
      && forall d: Dev :: d in ds && Acceptable(d, name, value, access) ==> d.pri <= dev.pri
  }

  /** A device is found if and only if some acceptable device has a priority of at least zero. */
  lemma FoundIffNonNegative(ds: seq<Dev>, name: string, value: string, access: string -> bool, dev: Dev?)
    requires Best(ds, name, value, access, dev)
    ensures dev != null <==> exists d: Dev :: d in ds && Acceptable(d, name, value, access) && d.pri >= 0
  {
    if dev != null {
      assert dev in ds && Acceptable(dev, name, value, access) && dev.pri >= 0;
    }
  }

  /** blkid_dev_has_tag(). */
  method DevHasTag(dev: Dev, name: string, value: Option<string>) returns (b: bool)
    requires dev.Ok()
    ensures b <==> if value.None? then Lookup(dev.Pairs(), name).Some? else Lookup(dev.Pairs(), name) == value
  {
    var t := FindTagDev(dev, name);
    ghost var ps := dev.Pairs();
    dev.PairsUnique();
    if t == null {
      LookupNone(ps, name);
      return false;
    }
    LookupAt(ps, IndexOf(dev.tags, t));
    return value.None? || t.val == value.value;
  }

  /** The ring of a name holds a tag of that value for exactly the devices that have the tag. */
  lemma RingFinds(cache: Cache, h: Head, d: Dev, value: string)
    requires cache.Valid() && h in cache.heads && d in cache.devs
    ensures Lookup(d.Pairs(), h.name) == Some(value) <==>
      exists t: Tag :: t in h.members && t.dev == d && t.val == value
  {
    var ps, name := d.Pairs(), h.name;
    assert d.Ok() && cache.TagsIndexed(cache.devs) && cache.RingsSound(cache.devs) && cache.OneHeadPerName();
    d.PairsUnique();
    LookupNone(ps, name);
    if t: Tag :| t in d.tags && t.name == name {
      LookupAt(ps, IndexOf(d.tags, t));
      assert t in h.members && t.dev == d;
      forall u: Tag | u in h.members && u.dev == d ensures u == t { assert u in d.tags; }
    }
    if t: Tag :| t in h.members && t.dev == d && t.val == value {
      assert t in d.tags && t.name == name;
    }
  }

  // ---------- the scan ----------

  predicate Hit(t: Tag, value: string, access: string -> bool)
    reads t`val
  {
    t.val == value && access(t.dev.name)
  }

  /** One pass over a name's ring: the first tag, in ring order, of greatest device priority. */
  method ScanRing(h: Head, value: string, access: string -> bool) returns (dev: Dev?, ghost at: nat)
    ensures dev == null ==> forall j :: 0 <= j < |h.members| && Hit(h.members[j], value, access) ==>
      h.members[j].dev.pri <= -1
    ensures dev != null ==>
      at < |h.members| && Hit(h.members[at], value, access) && h.members[at].dev == dev && dev.pri > -1
    ensures dev != null ==> forall j :: 0 <= j < |h.members| && Hit(h.members[j], value, access) ==>
      h.members[j].dev.pri <= dev.pri && (j < at ==> h.members[j].dev.pri < dev.pri)
  {
    var pri := -1;
    dev, at := null, 0;
    for i := 0 to |h.members|
      invariant if dev == null then pri == -1
        else at < i && Hit(h.members[at], value, access) && h.members[at].dev == dev && dev.pri == pri > -1
      invariant forall j :: 0 <= j < i && Hit(h.members[j], value, access) ==>
        h.members[j].dev.pri <= pri && (dev != null && j < at ==> h.members[j].dev.pri < pri)
    {
      var t := h.members[i];
      if t.val == value && t.dev.pri > pri && access(t.dev.name) {
        dev, at := t.dev, i;
        pri := dev.pri;
      }
    }
  }

  /** One attempt: the head of the ring, then the scan. It finds what a scan over all devices would accept. */
  method BestDev(cache: Cache, name: string, value: string, access: string -> bool, ghost k: set<object>)
      returns (dev: Dev?)
    requires cache.Valid() && Within(cache, k)
    ensures cache.Valid() && Within(cache, k)
    ensures Best(cache.devs, name, value, access, dev) && (dev != null ==> dev in cache.devs)
  {
    hide *;
    assert allocated(TagsOf(cache.devs)) && allocated(MembersOf(cache.heads)) && allocated(cache.devs)
      && allocated(cache.heads);
    var h := FindHead(cache, name);
    if h == null {
      NoHeadNoTag(cache, name);
      NoneBest(cache, name, value, access);
      return null;
    }
    ghost var at;
    dev, at := ScanRing(h, value, access);
    ScanFinds(cache, h, value, access, dev, at);
    BestIsThere(cache.devs, name, value, access, dev);
  }

  lemma NoneBest(cache: Cache, name: string, value: string, access: string -> bool)
    requires forall d: Dev :: d in cache.devs ==> Lookup(d.Pairs(), name).None?
    ensures Best(cache.devs, name, value, access, null)
  {
    hide Lookup;
  }

  lemma BestIsThere(ds: seq<Dev>, name: string, value: string, access: string -> bool, dev: Dev?)
    requires Best(ds, name, value, access, dev)
    ensures dev != null ==> dev in ds
  {
    hide Acceptable;
  }

  lemma NoHeadNoTag(cache: Cache, name: string)
    requires cache.Valid() && forall h: Head :: h in cache.heads ==> h.name != name
    ensures forall d: Dev :: d in cache.devs ==> Lookup(d.Pairs(), name).None?
  {
    forall d: Dev | d in cache.devs ensures Lookup(d.Pairs(), name).None? {
      LookupNone(d.Pairs(), name);
      assert cache.TagsIndexed(cache.devs);
      assert forall t: Tag :: t in d.tags ==> t.name != name;
    }
  }

  lemma ScanFinds(cache: Cache, h: Head, value: string, access: string -> bool, dev: Dev?, at: nat)
    requires cache.Valid() && h in cache.heads
    requires dev == null ==> forall j :: 0 <= j < |h.members| && Hit(h.members[j], value, access) ==>
      h.members[j].dev.pri <= -1
    requires dev != null ==>
      at < |h.members| && Hit(h.members[at], value, access) && h.members[at].dev == dev && dev.pri > -1
    requires dev != null ==> forall j :: 0 <= j < |h.members| && Hit(h.members[j], value, access) ==>
      h.members[j].dev.pri <= dev.pri
    ensures Best(cache.devs, h.name, value, access, dev)
  {
    forall d: Dev | d in cache.devs && Acceptable(d, h.name, value, access)
      ensures d.pri <= if dev == null then -1 else dev.pri
    {
      RingFinds(cache, h, d, value);
      var t: Tag :| t in h.members && t.dev == d && t.val == value;
      assert Hit(t, value, access);
    }
    if dev != null {
      var t := h.members[at];
      assert t in h.members && cache.RingsSound(cache.devs);
      assert dev in cache.devs;
      RingFinds(cache, h, dev, value);
    }
  }

  // ---------- the measure ----------

  ghost function Flags(ds: seq<Dev>): (r: seq<bool>)
    reads ds`verified
    ensures |r| == |ds| && forall i :: 0 <= i < |ds| ==> r[i] == ds[i].verified
  {
    if ds == [] then [] else [ds[0].verified] + Flags(ds[1..])
  }

  function Unset(fs: seq<bool>): nat {
    if fs == [] then 0 else (if fs[0] then 0 else 1) + Unset(fs[1..])
  }

  lemma {:induction false} UnsetParts(a: seq<bool>, b: seq<bool>)
    ensures Unset(a + b) == Unset(a) + Unset(b)
  {
    if a == [] {
      assert a + b == b;
    } else {
      assert (a + b)[1..] == a[1..] + b;
      UnsetParts(a[1..], b);
    }
  }

  /** Setting a flag, or dropping an unset one, leaves one fewer unset. */
  lemma UnsetLess(fs: seq<bool>, k: nat)
    requires k < |fs| && !fs[k]
    ensures Unset(fs[k := true]) == Unset(fs) - 1 && Unset(fs[..k] + fs[k + 1..]) == Unset(fs) - 1
  {
    var a, b := fs[..k], fs[k + 1..];
    assert fs == a + ([false] + b) && fs[k := true] == a + ([true] + b);
    UnsetParts(a, [false] + b);
    UnsetParts(a, [true] + b);
    UnsetParts(a, b);
  }

  // ---------- one verification ----------

  ghost function Pris(ds: seq<Dev>): (r: seq<int>)
    reads ds`pri
    ensures |r| == |ds| && forall i :: 0 <= i < |ds| ==> r[i] == ds[i].pri
  {
    if ds == [] then [] else [ds[0].pri] + Pris(ds[1..])
  }

  /** `Best` of a device, on the values it depends on. */
  ghost predicate BestOf(ds: seq<Dev>, snap: map<Dev, Snap>, pris: seq<int>, name: string, value: string,
      access: string -> bool, k: nat)
    requires |pris| == |ds|
  {
    && (forall i :: 0 <= i < |ds| ==> ds[i] in snap)
    && k < |ds| && Lookup(snap[ds[k]].pairs, name) == Some(value) && access(ds[k].name) && pris[k] >= 0
    && forall i :: 0 <= i < |ds| && Lookup(snap[ds[i]].pairs, name) == Some(value) && access(ds[i].name) ==>
      pris[i] <= pris[k]
  }

  lemma BestByValues(ds: seq<Dev>, name: string, value: string, access: string -> bool, k: nat)
    requires k < |ds|
    ensures Best(ds, name, value, access, ds[k]) <==> BestOf(ds, Snapshot(ds), Pris(ds), name, value, access, k)
  {
    var snap := Snapshot(ds);
    forall i | 0 <= i < |ds|
      ensures ds[i] in snap && (Acceptable(ds[i], name, value, access) <==>
        Lookup(snap[ds[i]].pairs, name) == Some(value) && access(ds[i].name))
    {
      assert ds[i] in ds && snap[ds[i]] == SnapOf(ds[i]);
    }
    hide Snapshot, SnapOf, Lookup;
  }

  lemma StillBest(ds: seq<Dev>, snap: map<Dev, Snap>, name: string, value: string, access: string -> bool, dev: Dev,
      k: nat)
    requires k < |ds| && Same(ds, dev, snap) && dev in ds && dev in snap && snap[dev] == SnapOf(dev)
    requires BestOf(ds, snap, Pris(ds), name, value, access, k)
    ensures Best(ds, name, value, access, ds[k])
  {
    forall i | 0 <= i < |ds| ensures ds[i] in Snapshot(ds) && Snapshot(ds)[ds[i]] == snap[ds[i]] {
      assert ds[i] in ds;
    }
    hide SnapOf, Lookup, Snapshot, Same;
    BestByValues(ds, name, value, access, k);
  }

  /** Verifying the device just found either leaves it, unverified, the best one, or leaves fewer unverified devices. */
  method VerifyFound(cache: Cache, dev: Dev, w: World, name: string, value: string, access: string -> bool,
      ghost k: set<object>)
    returns (r: Dev?, ghost more: set<object>)
    requires cache.Valid() && Within(cache, k) && dev in cache.devs && !dev.verified
    requires Best(cache.devs, name, value, access, dev)
    modifies k
    ensures cache.Valid() && cache.probed == old(cache.probed) && fresh(more) && Within(cache, k + more)
    ensures r != null ==> r == dev
    ensures r == null || dev.verified ==> Unset(Flags(cache.devs)) < old(Unset(Flags(cache.devs)))
    ensures r != null && !dev.verified ==> Best(cache.devs, name, value, access, dev)
    ensures r != null && !dev.verified ==> OutcomeOf(dev.time, dev.utime, false, w).Keep?
    ensures Vals(cache.devs) == After(old(Vals(cache.devs)), OpVerify(dev.name, w))
  {
    hide *;
    ghost var ds, snap, pris, flags := cache.devs, Snapshot(cache.devs), Pris(cache.devs), Flags(cache.devs);
    ghost var i := BeforeVerify(cache, dev, name, value, access);
    r, more := VerifyFoundStep(cache, dev, w, k);
    if r == null {
      FlagsWithout(cache.devs, ds, i, dev, flags, Flags(cache.devs));
    } else if dev.verified {
      assert Flags(ds) == flags[i := true];
    } else {
      StillBest(ds, snap, name, value, access, dev, i);
    }
  }

  lemma BeforeVerify(cache: Cache, dev: Dev, name: string, value: string, access: string -> bool) returns (i: nat)
    requires cache.Valid() && dev in cache.devs && !dev.verified && Best(cache.devs, name, value, access, dev)
    ensures i < |cache.devs| && cache.devs[i] == dev && forall j :: 0 <= j < |cache.devs| && j != i ==>
      cache.devs[j] != dev
    ensures Without(cache.devs, dev) == cache.devs[..i] + cache.devs[i + 1..]
    ensures dev in Snapshot(cache.devs) && Snapshot(cache.devs)[dev] == SnapOf(dev)
    ensures BestOf(cache.devs, Snapshot(cache.devs), Pris(cache.devs), name, value, access, i)
    ensures var flags := Flags(cache.devs);
      Unset(flags[i := true]) < Unset(flags) && Unset(flags[..i] + flags[i + 1..]) < Unset(flags)
  {
    i := IndexOf(cache.devs, dev);
    assert Distinct(cache.devs);
    hide *;
    BestByValues(cache.devs, name, value, access, i);
    UnsetLess(Flags(cache.devs), i);
  }

  lemma FlagsWithout(now: seq<Dev>, ds: seq<Dev>, i: nat, dev: Dev, flags: seq<bool>, nowFlags: seq<bool>)
    requires i < |ds| && now == ds[..i] + ds[i + 1..] && |flags| == |ds| && |nowFlags| == |now|
    requires forall j :: 0 <= j < |now| ==> nowFlags[j] == flags[if j < i then j else j + 1]
    ensures nowFlags == flags[..i] + flags[i + 1..]
  {
  }

  /** As one step of a run, with what it does to the devices' priorities and flags. */
  method VerifyFoundStep(cache: Cache, dev: Dev, w: World, ghost k: set<object>)
      returns (r: Dev?, ghost more: set<object>)
    requires cache.Valid() && Within(cache, k) && dev in cache.devs
    modifies k
    ensures cache.Valid() && cache.probed == old(cache.probed) && fresh(more) && Within(cache, k + more)
    ensures if r == null then cache.devs == Without(old(cache.devs), dev) else r == dev && cache.devs == old(cache.devs)
    ensures r != null && !old(OutcomeOf(dev.time, dev.utime, dev.verified, w)).Keep? ==> dev.verified
    ensures old(OutcomeOf(dev.time, dev.utime, dev.verified, w)).Keep? ==>
      SnapOf(dev) == old(SnapOf(dev)) && dev.verified == old(dev.verified) && dev.time == old(dev.time)
        && dev.utime == old(dev.utime)
    ensures Same(old(cache.devs), dev, old(Snapshot(cache.devs)))
    ensures Pris(old(cache.devs)) == old(Pris(cache.devs))
    ensures Vals(cache.devs) == After(old(Vals(cache.devs)), OpVerify(dev.name, w))
    ensures var ds := old(cache.devs); forall j :: 0 <= j < |ds| && ds[j] != dev ==>
      ds[j].verified == old(ds[j].verified)
  {
    hide *;
    ghost var ds := cache.devs;
    ghost var pris := Pris(ds);
    r, more := StepVerify(cache, dev, w, k);
    assert Pris(ds) == pris;
  }

  // ---------- the lookup ----------

  /** What the scan may find, on values. */
  ghost predicate Candidate(v: DevVal, name: string, value: string, access: string -> bool) {
    Lookup(v.pairs, name) == Some(value) && access(v.name) && v.pri >= 0
  }

  lemma BestIsCandidate(ds: seq<Dev>, name: string, value: string, access: string -> bool, dev: Dev?)
    requires Best(ds, name, value, access, dev)
    ensures dev == null <==> forall v :: v in Vals(ds) ==> !Candidate(v, name, value, access)
  {
    hide Lookup;
    if dev == null {
      forall v | v in Vals(ds) ensures !Candidate(v, name, value, access) {
        var i :| 0 <= i < |ds| && Vals(ds)[i] == v;
        assert ds[i] in ds && v == ValOf(ds[i]);
      }
    } else {
      var i :| 0 <= i < |ds| && ds[i] == dev;
      assert Vals(ds)[i] == ValOf(dev) && Vals(ds)[i] in Vals(ds);
    }
  }

  /** A device that every attempt can find, whichever attempt verifies it. */
  ghost predicate Stays(v: DevVal, name: string, value: string, o: Outside) {
    && Lookup(v.pairs, name) == Some(value) && v.pri >= 0 && (forall n :: o.access(n)(v.name))
    && (v.verified || forall n :: var x := VerifiedVal(v, o.world(n));
      x.Some? && Lookup(x.value.pairs, name) == Some(value))
  }

  /** Such a device is there. */
  ghost predicate Findable(vs: seq<DevVal>, name: string, value: string, o: Outside) {
    exists v :: v in vs && Stays(v, name, value, o)
  }

  lemma NoneFindable(vs: seq<DevVal>, name: string, value: string, o: Outside, n: nat)
    requires forall v :: v in vs ==> !Candidate(v, name, value, o.access(n))
    ensures !Findable(vs, name, value, o)
  {
    hide Lookup, VerifiedVal;
  }

  /** Verifying the device found, if it is findable, leaves it so. */
  lemma StaysVerified(v: DevVal, name: string, value: string, o: Outside, n: nat)
    requires Stays(v, name, value, o) && !v.verified
    ensures VerifiedVal(v, o.world(n)).Some? && Stays(VerifiedVal(v, o.world(n)).value, name, value, o)
  {
    var x := VerifiedVal(v, o.world(n));
    assert x.Some? && Lookup(x.value.pairs, name) == Some(value);
    hide Lookup;
  }

  /** No verification of the lookup loses every findable device. */
  lemma StillFindable(vs: seq<DevVal>, name: string, value: string, o: Outside, n: nat, dev: string)
    requires Findable(vs, name, value, o) && (PlaceOf(vs, dev) < |vs| ==> !vs[PlaceOf(vs, dev)].verified)
    ensures Findable(After(vs, OpVerify(dev, o.world(n))), name, value, o)
  {
    hide Stays, VerifiedVal, PlaceOf, Put;
    var v :| v in vs && Stays(v, name, value, o);
    var i := PlaceOf(vs, dev);
    if i < |vs| {
      var x := VerifiedVal(vs[i], o.world(n));
      assert After(vs, OpVerify(dev, o.world(n))) == Put(vs, i, x);
      PutKeeps(vs, i, x, v);
      if vs[i] == v {
        StaysVerified(v, name, value, o, n);
        assert x.value in Put(vs, i, x);
      }
    }
  }

  lemma PutKeeps(vs: seq<DevVal>, i: nat, x: Option<DevVal>, v: DevVal)
    requires i < |vs| && v in vs
    ensures vs[i] != v ==> v in Put(vs, i, x)
    ensures x.Some? ==> x.value in Put(vs, i, x)
  {
    var j :| 0 <= j < |vs| && vs[j] == v;
    var now := Put(vs, i, x);
    if j != i { assert now[if x.Some? || j < i then j else j - 1] == v; }
    if x.Some? { assert now[i] == x.value; }
  }

  /** A device that probing makes and tags, in an empty cache, is findable even if it cannot be looked at. */
  lemma ProbedIsFindable(dev: string, name: string, value: string, o: Outside, worlds: nat -> World)
    requires '\0' !in value && forall n :: o.access(n)(dev)
    requires forall n :: OutcomeOf(INT_MIN, 0, false, o.world(n)).Keep?
    ensures var ops := [OpGetDev(dev, true, false, true, worlds), OpSetTag(dev, name, Some(value), |value|)];
      Findable(AfterAll([], ops), name, value, o)
  {
    var get, put := OpGetDev(dev, true, false, true, worlds), OpSetTag(dev, name, Some(value), |value|);
    var v := NewVal(dev).(pairs := [(name, value)]);
    var ops := [get, put];
    AfterNext([], ops, 0);
    AfterNext([], ops, 1);
    assert ops[..0] == [] && ops[..2] == ops && AfterAll([], ops[..0]) == [];
    assert After([], get) == [NewVal(dev)];
    WholeValue(value);
    assert After([NewVal(dev)], put) == [v];
    hide OutcomeOf;
    assert forall n :: VerifiedVal(v, o.world(n)) == Some(v);
    assert v in [v] && Stays(v, name, value, o);
  }

  /** What a lookup did: the verifications before any probing, those after the new probing if there was one, and those
      after probing everything. */
  datatype Trace = Trace(before: seq<Op>, news: Option<seq<Op>>, alls: Option<seq<Op>>)

  /** The calls up to the end of the new probing. */
  function UpToNew(o: Outside, t: Trace): seq<Op> { o.saved + t.before + o.newOps }

  function UpToAll(o: Outside, t: Trace): seq<Op> {
    UpToNew(o, t) + (if t.news.Some? then t.news.value else []) + o.allOps
  }

  /** All calls of the lookup, in order. */
  function Calls(o: Outside, t: Trace): seq<Op> {
    if t.alls.Some? then UpToAll(o, t) + t.alls.value
    else if t.news.Some? then UpToNew(o, t) + t.news.value
    else o.saved + t.before
  }

  ghost predicate Verifications(ops: seq<Op>, o: Outside) {
    forall i :: 0 <= i < |ops| ==> ops[i].OpVerify? && exists n :: ops[i].world == o.world(n)
  }

  ghost predicate TraceOk(o: Outside, t: Trace) {
    && Verifications(t.before, o) && (t.news.Some? ==> Verifications(t.news.value, o))
    && (t.alls.Some? ==> t.news.Some? && Verifications(t.alls.value, o))
  }

  /** The devices as the last probing left them. */
  ghost function Since(vs: seq<DevVal>, o: Outside, t: Trace): seq<DevVal> {
    if t.alls.Some? then AfterAll(vs, UpToAll(o, t))
    else if t.news.Some? then AfterAll(vs, UpToNew(o, t))
    else AfterAll(vs, o.saved)
  }

  /** blkid_probe_all_new() and, when `all`, blkid_probe_all(), which notes its success in the cache. */
  method ProbeAll(cache: Cache, ops: seq<Op>, fails: bool, all: bool, ghost k0: set<object>)
      returns (ghost k: set<object>)
    requires cache.Valid() && Within(cache, k0)
    requires forall i :: 0 <= i < |ops| ==> Allowed(ops[i])
    modifies k0
    ensures cache.Valid() && Within(cache, k) && k0 <= k && fresh(k - k0)
    ensures cache.probed == (old(cache.probed) || (all && !fails))
    ensures Vals(cache.devs) == AfterAll(old(Vals(cache.devs)), ops)
  {
    hide *;
    WithinSelf(cache, k0);
    k := Run(cache, ops, k0);
    if all && !fails {
      cache.probed := true;
    }
  }

  lemma AllowedParts(o: Outside)
    requires AllowedOutside(o)
    ensures forall i :: 0 <= i < |o.saved| ==> Allowed(o.saved[i])
    ensures forall i :: 0 <= i < |o.newOps| ==> Allowed(o.newOps[i])
    ensures forall i :: 0 <= i < |o.allOps| ==> Allowed(o.allOps[i])
  {
  }

  /** The state of the loop: the devices are what the calls of the trace make of the first ones; what could be found
      after the last probing can still be found; and what could be found after an earlier one was not there. */
  ghost predicate Looking(vs0: seq<DevVal>, now: seq<DevVal>, name: string, value: string, o: Outside, t: Trace) {
    && TraceOk(o, t) && now == AfterAll(vs0, Calls(o, t))
    && (Findable(Since(vs0, o, t), name, value, o) ==> Findable(now, name, value, o))
    && (t.news.Some? ==> !Findable(AfterAll(vs0, o.saved), name, value, o))
    && (t.alls.Some? ==> !Findable(AfterAll(vs0, UpToNew(o, t)), name, value, o))
  }

  const START: Trace := Trace([], None, None)

  lemma LookingStarts(vs0: seq<DevVal>, name: string, value: string, o: Outside)
    ensures Looking(vs0, AfterAll(vs0, o.saved), name, value, o, START)
  {
    assert o.saved + [] == o.saved;
    hide Findable;
  }

  /** One more verification. */
  function Verified(t: Trace, op: Op): Trace {
    if t.alls.Some? then t.(alls := Some(t.alls.value + [op]))
    else if t.news.Some? then t.(news := Some(t.news.value + [op]))
    else t.(before := t.before + [op])
  }

  lemma LookingVerified(vs0: seq<DevVal>, now: seq<DevVal>, name: string, value: string, o: Outside, t: Trace, n: nat,
      dev: string)
    requires Looking(vs0, now, name, value, o, t) && PlaceOf(now, dev) < |now| && !now[PlaceOf(now, dev)].verified
    ensures var op := OpVerify(dev, o.world(n));
      Looking(vs0, After(now, op), name, value, o, Verified(t, op))
  {
    var op := OpVerify(dev, o.world(n));
    if Findable(now, name, value, o) { StillFindable(now, name, value, o, n, dev); }
    hide Findable, After, PlaceOf, AfterAll, TraceOk, Verified, Calls, UpToNew, UpToAll;
    VerifiedOk(o, t, n, dev);
    VerifiedParts(o, t, op);
    CallsNext(o, t, op);
    OneMore(vs0, Calls(o, t), op);
  }

  lemma CallsNext(o: Outside, t: Trace, op: Op)
    requires TraceOk(o, t)
    ensures Calls(o, Verified(t, op)) == Calls(o, t) + [op]
  {
  }

  lemma OneMore(vs: seq<DevVal>, ops: seq<Op>, op: Op)
    ensures AfterAll(vs, ops + [op]) == After(AfterAll(vs, ops), op)
  {
    hide After;
    assert (ops + [op])[..|ops|] == ops;
  }

  /** Probing after nothing was found. */
  lemma LookingProbedNew(vs0: seq<DevVal>, now: seq<DevVal>, name: string, value: string, o: Outside, t: Trace)
    requires Looking(vs0, now, name, value, o, t) && t.news.None? && !Findable(now, name, value, o)
    ensures Looking(vs0, AfterAll(now, o.newOps), name, value, o, t.(news := Some([])))
  {
    hide Findable;
    AfterParts(vs0, o.saved + t.before, o.newOps);
    assert UpToNew(o, t) + [] == UpToNew(o, t);
  }

  lemma LookingProbedAll(vs0: seq<DevVal>, now: seq<DevVal>, name: string, value: string, o: Outside, t: Trace)
    requires Looking(vs0, now, name, value, o, t) && t.news.Some? && t.alls.None? && !Findable(now, name, value, o)
    ensures Looking(vs0, AfterAll(now, o.allOps), name, value, o, t.(alls := Some([])))
  {
    hide Findable;
    AfterParts(vs0, Calls(o, t), o.allOps);
    assert UpToAll(o, t) + [] == UpToAll(o, t);
  }

  /** What the loop's state says about the calls so far. */
  lemma LookingParts(vs0: seq<DevVal>, now: seq<DevVal>, name: string, value: string, o: Outside, t: Trace)
    requires Looking(vs0, now, name, value, o, t)
    ensures TraceOk(o, t) && now == AfterAll(vs0, Calls(o, t)) && (t.alls.Some? ==> t.news.Some?)
    ensures t.news.Some? ==> !Findable(AfterAll(vs0, o.saved), name, value, o)
    ensures t.alls.Some? ==> !Findable(AfterAll(vs0, UpToNew(o, t)), name, value, o)
    ensures Findable(AfterAll(vs0, o.saved), name, value, o) && t.news.None? ==> Findable(now, name, value, o)
    ensures Findable(AfterAll(vs0, UpToNew(o, t)), name, value, o) && t.news.Some? && t.alls.None? ==>
      Findable(now, name, value, o)
    ensures Findable(AfterAll(vs0, UpToAll(o, t)), name, value, o) && t.alls.Some? ==> Findable(now, name, value, o)
  {
    hide Findable, AfterAll, Calls;
  }

  /** A verification belongs to the stage it happens in. */
  lemma VerifiedParts(o: Outside, t: Trace, op: Op)
    requires t.alls.Some? ==> t.news.Some?
    ensures var u := Verified(t, op);
      && (u.news.Some? <==> t.news.Some?) && (u.alls.Some? <==> t.alls.Some?)
      && (t.news.Some? ==> u.before == t.before && UpToNew(o, u) == UpToNew(o, t))
      && (t.alls.Some? ==> UpToAll(o, u) == UpToAll(o, t))
  {
  }

  lemma VerifiedOk(o: Outside, t: Trace, n: nat, dev: string)
    requires TraceOk(o, t)
    ensures TraceOk(o, Verified(t, OpVerify(dev, o.world(n)))) && (t.alls.Some? ==> t.news.Some?)
  {
    var op := OpVerify(dev, o.world(n));
    assert Verifications([op], o);
    MoreVerifications(if t.alls.Some? then t.alls.value else if t.news.Some? then t.news.value else t.before, op, o);
    hide Verifications;
  }

  lemma MoreVerifications(ops: seq<Op>, op: Op, o: Outside)
    requires Verifications(ops, o) && Verifications([op], o)
    ensures Verifications(ops + [op], o)
  {
    assert [op][0] == op;
  }

  lemma PlaceFound(cache: Cache, dev: Dev)
    requires cache.Valid() && dev in cache.devs && !dev.verified
    ensures var vs := Vals(cache.devs); PlaceOf(vs, dev.name) < |vs| && !vs[PlaceOf(vs, dev.name)].verified
  {
    var i := DevPlace(cache, dev);
    BeforeStep(cache, i);
    hide Cache.Valid, Vals, PlaceOf;
  }

  /** The devices are what the calls of the trace make of the first ones. */
  ghost predicate Traced(vs0: seq<DevVal>, now: seq<DevVal>, o: Outside, t: Trace) {
    TraceOk(o, t) && now == AfterAll(vs0, Calls(o, t))
  }

  /** The first attempt finds nothing. */
  ghost predicate NothingSaved(vs0: seq<DevVal>, name: string, value: string, o: Outside) {
    forall v :: v in AfterAll(vs0, o.saved) ==> !Candidate(v, name, value, o.access(0))
  }

  /** A device that every attempt can find makes the lookup succeed, without further probing, whether the saved file or
      one of the probings brings it; and the new probing comes first when the saved file brings nothing. */
  ghost predicate Served(vs0: seq<DevVal>, name: string, value: string, o: Outside, t: Trace, found: bool) {
    && (Findable(AfterAll(vs0, o.saved), name, value, o) ==> found && t.news.None?)
    && (t.news.Some? && !o.newFails && Findable(AfterAll(vs0, UpToNew(o, t)), name, value, o) ==>
      found && t.alls.None?)
    && (t.alls.Some? && !o.allFails && Findable(AfterAll(vs0, UpToAll(o, t)), name, value, o) ==> found)
    && (NothingSaved(vs0, name, value, o) ==> t.before == [] && t.news.Some?)
  }

  /** The state before attempt `n`. */
  ghost predicate AtAttempt(vs0: seq<DevVal>, now: seq<DevVal>, name: string, value: string, o: Outside, t: Trace,
      n: nat)
  {
    && Looking(vs0, now, name, value, o, t)
    && (n == 0 ==> t == START && now == AfterAll(vs0, o.saved))
    && (NothingSaved(vs0, name, value, o) ==> t.before == [] && (n > 0 ==> t.news.Some?))
  }

  lemma FirstAttempt(vs0: seq<DevVal>, name: string, value: string, o: Outside)
    ensures AtAttempt(vs0, AfterAll(vs0, o.saved), name, value, o, START, 0)
    ensures START == Trace([], None, None)
  {
    hide Looking, NothingSaved;
    LookingStarts(vs0, name, value, o);
  }

  /** The lookup may end here. */
  lemma Ends(vs0: seq<DevVal>, now: seq<DevVal>, name: string, value: string, o: Outside, t: Trace, found: bool)
    requires Looking(vs0, now, name, value, o, t) && (found || !Findable(now, name, value, o))
    requires !found ==> t.news.Some?
    requires NothingSaved(vs0, name, value, o) ==> t.before == [] && t.news.Some?
    ensures Served(vs0, name, value, o, t, found) && Traced(vs0, now, o, t)
  {
    hide Looking, Findable, NothingSaved;
    LookingParts(vs0, now, name, value, o, t);
  }

  /** Something was found. */
  lemma AttemptFinds(vs0: seq<DevVal>, now: seq<DevVal>, name: string, value: string, o: Outside, t: Trace, n: nat)
    requires AtAttempt(vs0, now, name, value, o, t, n)
    requires exists v :: v in now && Candidate(v, name, value, o.access(n))
    ensures Served(vs0, name, value, o, t, true) && Traced(vs0, now, o, t)
  {
    hide Looking, Findable, Candidate;
    Ends(vs0, now, name, value, o, t, true);
  }

  /** ... and verified. */
  lemma AttemptVerifies(vs0: seq<DevVal>, now: seq<DevVal>, name: string, value: string, o: Outside, t: Trace, n: nat,
      dev: string)
    requires AtAttempt(vs0, now, name, value, o, t, n)
    requires exists v :: v in now && Candidate(v, name, value, o.access(n))
    requires PlaceOf(now, dev) < |now| && !now[PlaceOf(now, dev)].verified
    ensures var op := OpVerify(dev, o.world(n)); var u := Verified(t, op);
      && AtAttempt(vs0, After(now, op), name, value, o, u, n + 1)
      && Served(vs0, name, value, o, u, true) && Traced(vs0, After(now, op), o, u)
      && (u.news.Some? <==> t.news.Some?) && (u.alls.Some? <==> t.alls.Some?)
  {
    hide Looking, Findable, Candidate, Verified, After, Served, PlaceOf;
    var op := OpVerify(dev, o.world(n));
    LookingParts(vs0, now, name, value, o, t);
    LookingVerified(vs0, now, name, value, o, t, n, dev);
    VerifiedParts(o, t, op);
    Ends(vs0, After(now, op), name, value, o, Verified(t, op), true);
  }

  /** Nothing was found, and new devices are probed. */
  lemma AttemptProbesNew(vs0: seq<DevVal>, now: seq<DevVal>, name: string, value: string, o: Outside, t: Trace, n: nat)
    requires AtAttempt(vs0, now, name, value, o, t, n) && t.news.None?
    requires forall v :: v in now ==> !Candidate(v, name, value, o.access(n))
    ensures var u, next := t.(news := Some([])), AfterAll(now, o.newOps);
      && AtAttempt(vs0, next, name, value, o, u, n + 1) && Traced(vs0, next, o, u) && t.alls.None?
      && (o.newFails ==> Served(vs0, name, value, o, u, false))
  {
    hide Looking, Findable, Candidate, AfterAll, Calls;
    NoneFindable(now, name, value, o, n);
    LookingParts(vs0, now, name, value, o, t);
    LookingProbedNew(vs0, now, name, value, o, t);
    LookingParts(vs0, AfterAll(now, o.newOps), name, value, o, t.(news := Some([])));
  }

  /** ... or all of them. */
  lemma AttemptProbesAll(vs0: seq<DevVal>, now: seq<DevVal>, name: string, value: string, o: Outside, t: Trace, n: nat)
    requires AtAttempt(vs0, now, name, value, o, t, n) && t.news.Some? && t.alls.None?
    requires forall v :: v in now ==> !Candidate(v, name, value, o.access(n))
    ensures var u, next := t.(alls := Some([])), AfterAll(now, o.allOps);
      && AtAttempt(vs0, next, name, value, o, u, n + 1) && Traced(vs0, next, o, u)
      && (o.allFails ==> Served(vs0, name, value, o, u, false))
  {
    hide Looking, Findable, Candidate, AfterAll, Calls;
    NoneFindable(now, name, value, o, n);
    LookingProbedAll(vs0, now, name, value, o, t);
    LookingParts(vs0, AfterAll(now, o.allOps), name, value, o, t.(alls := Some([])));
  }

  /** ... or the lookup gives up. */
  lemma AttemptGivesUp(vs0: seq<DevVal>, now: seq<DevVal>, name: string, value: string, o: Outside, t: Trace, n: nat)
    requires AtAttempt(vs0, now, name, value, o, t, n) && t.news.Some?
    requires forall v :: v in now ==> !Candidate(v, name, value, o.access(n))
    ensures Served(vs0, name, value, o, t, false) && Traced(vs0, now, o, t)
  {
    hide Looking, Findable, Candidate, Served;
    NoneFindable(now, name, value, o, n);
    Ends(vs0, now, name, value, o, t, false);
  }

  /** The verification of a device that an attempt has found; `ends` when it could not be looked at. */
  method VerifyAttempt(cache: Cache, dev: Dev, name: string, value: string, o: Outside, ghost k0: set<object>,
      ghost t0: Trace, n: nat, ghost vs0: seq<DevVal>)
    returns (ends: bool, ghost k: set<object>, ghost t: Trace)
    requires cache.Valid() && Within(cache, k0) && dev in cache.devs && !dev.verified
    requires Best(cache.devs, name, value, o.access(n), dev)
    requires AtAttempt(vs0, Vals(cache.devs), name, value, o, t0, n)
    modifies k0
    ensures cache.Valid() && cache.probed == old(cache.probed) && Within(cache, k) && k0 <= k && fresh(k - k0)
    ensures AtAttempt(vs0, Vals(cache.devs), name, value, o, t, n + 1)
    ensures (t.news.Some? <==> t0.news.Some?) && (t.alls.Some? <==> t0.alls.Some?)
    ensures !ends ==> Unset(Flags(cache.devs)) < old(Unset(Flags(cache.devs)))
    ensures ends ==>
      && Best(cache.devs, name, value, o.access(n), dev)
      && (!dev.verified ==> OutcomeOf(dev.time, dev.utime, false, o.world(n)).Keep?)
      && Served(vs0, name, value, o, t, true) && Traced(vs0, Vals(cache.devs), o, t)
  {
    hide *;
    BestIsCandidate(cache.devs, name, value, o.access(n), dev);
    PlaceFound(cache, dev);
    AttemptVerifies(vs0, Vals(cache.devs), name, value, o, t0, n, dev.name);
    var r, more := VerifyFound(cache, dev, o.world(n), name, value, o.access(n), k0);
    k, t := k0 + more, Verified(t0, OpVerify(dev.name, o.world(n)));
    ends := r != null && !dev.verified;
  }

  /** blkid_find_dev_with_tag(): it ends whatever happens outside, and what it returns is the best device the final
      cache holds. A device returned unverified is one that could not be looked at; nothing is returned, short of a
      failing probe, only after both ways of probing. The trace says which calls the final cache comes from. */
  method FindDevWithTag(cache: Cache, name: string, value: string, o: Outside, ghost k0: set<object>)
    returns (dev: Dev?, failed: bool, n: nat, ghost k: set<object>, ghost t: Trace)
    requires cache.Valid() && Within(cache, k0) && AllowedOutside(o)
    modifies k0
    ensures cache.Valid() && Within(cache, k) && k0 <= k && fresh(k - k0)
    ensures !failed ==> Best(cache.devs, name, value, o.access(n), dev)
    ensures dev != null && !dev.verified ==> OutcomeOf(dev.time, dev.utime, false, o.world(n)).Keep?
    ensures Traced(old(Vals(cache.devs)), Vals(cache.devs), o, t)
    ensures Served(old(Vals(cache.devs)), name, value, o, t, dev != null)
    ensures failed <==> (t.news.Some? && o.newFails) || (t.alls.Some? && o.allFails)
    ensures failed ==> dev == null
    ensures cache.probed <==> old(cache.probed) || (t.alls.Some? && !o.allFails)
    ensures !failed && dev == null ==> t.news.Some? && cache.probed
  {
    hide *;
    AllowedParts(o);
    ghost var vs0 := Vals(cache.devs);
    k := Run(cache, o.saved, k0);
    var probedNew := false;
    n, failed, t := 0, false, START;
    FirstAttempt(vs0, name, value, o);
    while true
      invariant cache.Valid() && Within(cache, k) && k0 <= k && fresh(k - k0) && !failed
      invariant AtAttempt(vs0, Vals(cache.devs), name, value, o, t, n)
      invariant t.news.Some? == probedNew && (t.alls.Some? ==> probedNew && !o.allFails)
      invariant probedNew ==> !o.newFails
      invariant cache.probed <==> old(cache.probed) || t.alls.Some?
      decreases !cache.probed, !probedNew, Unset(Flags(cache.devs))
    {
      assert allocated(TagsOf(cache.devs)) && allocated(cache.devs);
      dev := BestDev(cache, name, value, o.access(n), k);
      ghost var now := Vals(cache.devs);
      BestIsCandidate(cache.devs, name, value, o.access(n), dev);
      if dev != null {
        AttemptFinds(vs0, now, name, value, o, t, n);
        if dev.verified {
          return;
        }
        var ends;
        ends, k, t := VerifyAttempt(cache, dev, name, value, o, k, t, n, vs0);
        if ends {
          return;
        }
      } else if !probedNew {
        AttemptProbesNew(vs0, now, name, value, o, t, n);
        k := ProbeAll(cache, o.newOps, o.newFails, false, k);
        t := t.(news := Some([]));
        if o.newFails {
          failed := true;
          return;
        }
        probedNew := true;
      } else if !cache.probed {
        AttemptProbesAll(vs0, now, name, value, o, t, n);
        k := ProbeAll(cache, o.allOps, o.allFails, true, k);
        t := t.(alls := Some([]));
        if o.allFails {
          failed := true;
          return;
        }
      } else {
        AttemptGivesUp(vs0, now, name, value, o, t, n);
        return;
      }
      n := n + 1;
    }
  }

  /** A cache that hides its only device: the tag is there and the device accessible, but its priority is negative. */
  method HiddenByPriority() returns (cache: Cache, d: Dev?, found: Dev?)
    ensures cache.Valid() && d != null && d in cache.devs && d.pri == -1
    ensures Acceptable(d, "TYPE", "ext4", n => true) && found == null
  {
    hide *;
    cache := new Cache();
    d := FindOrCreate(cache, "/dev/sda1", true, true);
    NoPairs(d);
    var rc := SetTag(cache, d, "TYPE", Some("ext4"), 4);
    SetAndFound(d, "TYPE", "ext4", n => true);
    d.pri := -1;
    ReachWithin(cache);
    found := BestDev(cache, "TYPE", "ext4", n => true, Reach(cache));
    OnlyDevice(cache, d, found, "TYPE", "ext4", n => true);
  }

  lemma NoPairs(d: Dev)
    requires d.tags == []
    ensures d.Pairs() == []
  {
  }

  lemma SetAndFound(d: Dev, name: string, value: string, access: string -> bool)
    requires d.Pairs() == SetPair([], name, Stored(Some(value), |value|)) && '\0' !in value && access(d.name)
    ensures Acceptable(d, name, value, access)
  {
    WholeValue(value);
  }

  lemma OnlyDevice(cache: Cache, d: Dev, found: Dev?, name: string, value: string, access: string -> bool)
    requires cache.devs == [d] && d.pri < 0 && Best(cache.devs, name, value, access, found)
    ensures found == null
  {
  }
}
