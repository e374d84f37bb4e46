/** blkid_verify() of verify.c and blkid_get_dev() of devname.c. What stat(), open(), the clock and the low-level
    prober answer is a parameter; what the library then does to the cache is not. */
module DevVerify {
  import opened Wrappers
  import opened TagIndex
  import opened TagCache
  import opened DevCache
  import opened DevValue

  datatype Errno = EPERM | EACCES | ENOENT | OtherErrno
  datatype Stat = StatFails(errno: Errno) | StatOk(mtime: int, mnsec: int, rdev: nat)

  /** Everything blkid_verify() learns from outside. */
  datatype World = World(
    now: int,
    stat: Stat,
    lvmPrivate: bool,
    noProbe: bool,
    openFails: Option<Errno>,
    setDeviceFails: bool,
    probeFails: bool,
    values: seq<Pair>,
    clock: Option<(int, int)>,
    later: int)

  const PROBE_MIN := 2
  const PROBE_INTERVAL := 200

  predicate Permission(e: Errno) { e.EPERM? || e.EACCES? || e.ENOENT? }

  /** The cached data are recent enough to be returned unexamined. */
  predicate Recent(time: int, utime: int, verified: bool, w: World) {
    && w.stat.StatOk? && w.now >= time
    && (w.stat.mtime < time || (w.stat.mtime == time && w.stat.mnsec / 1000 <= utime))
    && (w.now - time < PROBE_MIN || (verified && w.now - time < PROBE_INTERVAL))
  }

  datatype Outcome = Keep | Drop | Refresh

  /** The outcome contract: old data are kept when they are recent or the device may not be looked at, the device is
      dropped when it is gone, private, unreadable or unrecognised, and refreshed otherwise. */
  function OutcomeOf(time: int, utime: int, verified: bool, w: World): Outcome {
    match w.stat
    case StatFails(e) => if Permission(e) then Keep else Drop
    case StatOk(_, _, _) =>
      if Recent(time, utime, verified, w) then Keep
      else if w.lvmPrivate || w.noProbe then Drop
      else match w.openFails
        case Some(e) => if Permission(e) then Keep else Drop
        case None => if w.setDeviceFails || w.probeFails then Drop else Refresh
  }

  predicate Contains(s: string, sub: string) {
    sub <= s || (s != "" && Contains(s[1..], sub))
  }

  /** The tag name under which blkid_probe_to_tags() stores a probed value, if at all. */
  function TagFor(name: string): Option<string> {
    if "PART_ENTRY_" <= name then
      if name == "PART_ENTRY_UUID" then Some("PARTUUID")
      else if name == "PART_ENTRY_NAME" then Some("PARTLABEL")
      else None
    else if !Contains(name, "_ID") then Some(name)
    else None
  }

  /** The pairs after storing the probed values in order. */
  ghost function Probed(ps: seq<Pair>, values: seq<Pair>): seq<Pair> {
    if values == [] then ps
    else
      var v, before := values[|values| - 1], Probed(ps, values[..|values| - 1]);
      match TagFor(v.0)
      case None => before
      case Some(name) => SetPair(before, name, Some(StrNDup(v.1, |v.1|)))
  }

  /** A device that has just been probed. */
  ghost function Refreshed(v: DevVal, w: World): DevVal {
    v.(pairs := Probed([], w.values), verified := true,
       devno := if w.stat.StatOk? then w.stat.rdev else v.devno,
       time := if w.clock.Some? then w.clock.value.0 else w.later,
       utime := if w.clock.Some? then w.clock.value.1 else v.utime)
  }

  /** The device after blkid_verify(), if it is still there. */
  ghost function VerifiedVal(v: DevVal, w: World): Option<DevVal> {
    var out := OutcomeOf(v.time, v.utime, v.verified, w);
    if out.Keep? then Some(v) else if out.Drop? then None else Some(Refreshed(v, w))
  }

  /** The device can be examined and something is found on it. */
  predicate Probes(w: World) {
    w.stat.StatOk? && !w.lvmPrivate && !w.noProbe && w.openFails.None? && !w.setDeviceFails && !w.probeFails
  }

  /** blkid_set_tag() with a value. */
  method PutTag(cache: Cache, dev: Dev, name: string, data: string)
    requires cache.Valid() && dev in cache.devs
    modifies cache`heads, cache`changed, cache.heads`members, dev`tags, dev`bidType, dev`bidLabel, dev`bidUuid,
      dev.tags`val, dev.tags`live
    ensures cache.Valid()
    ensures dev.Pairs() == SetPair(old(dev.Pairs()), name, Some(StrNDup(data, |data|)))
    ensures Same(cache.devs, dev, old(Snapshot(cache.devs)))
    ensures forall h: Head :: h in cache.heads ==> h in old(cache.heads) || fresh(h)
    ensures forall t: Tag :: t in dev.tags ==> t in old(dev.tags) || fresh(t)
    ensures old(cache.changed) ==> cache.changed
  {
    assert Stored(Some(data), |data|) == Some(StrNDup(data, |data|));
    hide *;
    var rc := SetTag(cache, dev, name, Some(data), |data|);
  }

  lemma ProbedNext(values: seq<Pair>, n: nat)
    requires n < |values|
    ensures var before := Probed([], values[..n]); var name := TagFor(values[n].0);
      Probed([], values[..n + 1]) == if name.None? then before
        else SetPair(before, name.value, Some(StrNDup(values[n].1, |values[n].1|)))
  {
    hide SetPair, StrNDup, TagFor;
    assert values[..n + 1][..n] == values[..n] && values[..n + 1][n] == values[n];
  }

  /** blkid_probe_to_tags(). */
  method ProbeToTags(cache: Cache, dev: Dev, values: seq<Pair>)
    requires cache.Valid() && dev in cache.devs && dev.tags == []
    modifies cache`heads, cache`changed, cache.heads`members, dev`tags, dev`bidType, dev`bidLabel, dev`bidUuid
    ensures cache.Valid()
    ensures dev.Pairs() == Probed([], values)
    ensures Same(cache.devs, dev, old(Snapshot(cache.devs)))
    ensures old(cache.changed) ==> cache.changed
    ensures forall h: Head :: h in cache.heads ==> h in old(cache.heads) || fresh(h)
    ensures forall t: Tag :: t in dev.tags ==> fresh(t)
  {
    hide *;
    ghost var ds, before := cache.devs, Snapshot(cache.devs);
    NothingProbed(cache, dev, values);
    for n := 0 to |values|
      invariant ds == cache.devs && cache.Valid()
      invariant dev.Pairs() == Probed([], values[..n])
      invariant Same(ds, dev, before)
      invariant forall h: Head :: h in cache.heads ==> h in old(cache.heads) || fresh(h)
      invariant forall t: Tag :: t in dev.tags ==> fresh(t)
      invariant old(cache.changed) ==> cache.changed
    {
      ProbedNext(values, n);
      var name := TagFor(values[n].0);
      if name.Some? {
        ghost var now := Snapshot(ds);
        SnapshotAgrees(ds, dev, before);
        assert forall i :: 0 <= i < |cache.heads| ==> cache.heads[i] in cache.heads;
        assert forall i :: 0 <= i < |dev.tags| ==> dev.tags[i] in dev.tags;
        PutTag(cache, dev, name.value, values[n].1);
        SameTransitive(ds, dev, now, before);
      }
    }
    assert values[..|values|] == values;
  }

  lemma NothingProbed(cache: Cache, dev: Dev, values: seq<Pair>)
    requires dev.tags == []
    ensures dev.Pairs() == Probed([], values[..0]) && Same(cache.devs, dev, Snapshot(cache.devs))
  {
    hide SnapOf;
  }

  /** The new times, device number and flag of a refreshed device. */
  method Stamp(dev: Dev, w: World)
    modifies dev`time, dev`utime, dev`devno, dev`verified
    ensures dev.verified
    ensures dev.devno == (if w.stat.StatOk? then w.stat.rdev else old(dev.devno))
    ensures dev.time == (if w.clock.Some? then w.clock.value.0 else w.later)
    ensures dev.utime == if w.clock.Some? then w.clock.value.1 else old(dev.utime)
  {
    if w.clock.Some? {
      dev.time, dev.utime := w.clock.value.0, w.clock.value.1;
    } else {
      dev.time := w.later;
    }
    if w.stat.StatOk? {
      dev.devno := w.stat.rdev;
    }
    dev.verified := true;
  }

  /** A recognised device: stamped, then given the probed tags. */
  method StoreProbed(cache: Cache, dev: Dev, w: World, ghost before: map<Dev, Snap>, ghost v: DevVal)
    requires cache.Valid() && dev in cache.devs && dev.tags == [] && Same(cache.devs, dev, before)
    requires dev.name == v.name && dev.pri == v.pri && dev.removable == v.removable && dev.devno == v.devno
      && dev.utime == v.utime
    modifies cache`heads, cache`changed, cache.heads`members
    modifies dev`tags, dev`bidType, dev`bidLabel, dev`bidUuid, dev`time, dev`utime, dev`devno, dev`verified
    ensures cache.Valid() && Same(cache.devs, dev, before)
    ensures cache.changed && ValOf(dev) == Refreshed(v, w)
    ensures forall h: Head :: h in cache.heads ==> h in old(cache.heads) || fresh(h)
    ensures forall t: Tag :: t in dev.tags ==> fresh(t)
  {
    hide *;
    assert allocated(TagsOf(cache.devs)) && allocated(MembersOf(cache.heads)) && allocated(cache.devs)
      && allocated(cache.heads);
    Stamp(dev, w);
    cache.changed := true;
    ghost var ds, stamped := cache.devs, Snapshot(cache.devs);
    SnapshotAgrees(ds, dev, before);
    ProbeToTags(cache, dev, w.values);
    SameTransitive(ds, dev, stamped, before);
    RefreshedIs(dev, v, w);
  }

  method DropCleared(cache: Cache, dev: Dev, ghost before: map<Dev, Snap>)
    requires cache.Valid() && dev in cache.devs && dev.tags == [] && Same(cache.devs, dev, before)
    modifies cache`devs, dev`live, dev`tags, cache.heads`members
    ensures cache.Valid() && cache.devs == Without(old(cache.devs), dev) && !dev.live && dev.tags == []
    ensures Same(old(cache.devs), dev, before)
  {
    hide *;
    ghost var ds, cleared := cache.devs, Snapshot(cache.devs);
    SnapshotAgrees(ds, dev, before);
    FreeDev(cache, dev);
    SameTransitive(ds, dev, cleared, before);
  }

  /** The last part of blkid_verify(): the old tags are cleared, and the probed ones stored if there are any. */
  method Reprobe(cache: Cache, dev: Dev, w: World) returns (found: bool)
    requires cache.Valid() && dev in cache.devs
    modifies cache`heads, cache`changed, cache`devs, cache.heads`members, dev.tags`val, dev.tags`live
    modifies dev`live, dev`tags, dev`bidType, dev`bidLabel, dev`bidUuid, dev`time, dev`utime, dev`devno, dev`verified
    ensures cache.Valid() && found == !w.probeFails
    ensures !found ==> cache.devs == Without(old(cache.devs), dev) && !dev.live
    ensures found ==> cache.devs == old(cache.devs) && dev.live && cache.changed
    ensures found ==> ValOf(dev) == Refreshed(old(ValOf(dev)), w)
    ensures Same(old(cache.devs), dev, old(Snapshot(cache.devs)))
    ensures forall h: Head :: h in cache.heads ==> h in old(cache.heads) || fresh(h)
    ensures forall t: Tag :: t in dev.tags ==> fresh(t)
  {
    ghost var ds, before, was := cache.devs, Snapshot(cache.devs), ValOf(dev);
    hide *;
    PlainOf(dev);
    ClearTags(cache, dev);
    if w.probeFails {
      DropCleared(cache, dev, before);
      return false;
    }
    StoreProbed(cache, dev, w, before, was);
    return true;
  }

  lemma PlainOf(dev: Dev)
    ensures var v := ValOf(dev);
      && v.name == dev.name && v.devno == dev.devno && v.time == dev.time && v.utime == dev.utime && v.pri == dev.pri
      && v.verified == dev.verified && v.removable == dev.removable
  {
  }

  lemma RefreshedIs(dev: Dev, v: DevVal, w: World)
    requires dev.name == v.name && dev.pri == v.pri && dev.removable == v.removable && dev.verified
    requires dev.Pairs() == Probed([], w.values) && dev.devno == if w.stat.StatOk? then w.stat.rdev else v.devno
    requires dev.time == if w.clock.Some? then w.clock.value.0 else w.later
    requires dev.utime == if w.clock.Some? then w.clock.value.1 else v.utime
    ensures ValOf(dev) == Refreshed(v, w)
  {
    hide Probed;
  }

  /** blkid_verify() by its outcomes. */
  lemma VerifiedIs(v: DevVal, w: World)
    ensures VerifiedVal(v, w) ==
      if w.stat.StatFails? then if Permission(w.stat.errno) then Some(v) else None
      else if Recent(v.time, v.utime, v.verified, w) then Some(v)
      else if w.lvmPrivate || w.noProbe then None
      else if w.openFails.Some? then if Permission(w.openFails.value) then Some(v) else None
      else if w.setDeviceFails || w.probeFails then None
      else Some(Refreshed(v, w))
    ensures var keep := OutcomeOf(v.time, v.utime, v.verified, w).Keep?;
      && (w.stat.StatFails? ==> (keep <==> Permission(w.stat.errno)))
      && (w.stat.StatOk? && Recent(v.time, v.utime, v.verified, w) ==> keep)
      && (w.stat.StatOk? && !Recent(v.time, v.utime, v.verified, w) ==>
        (keep <==> !w.lvmPrivate && !w.noProbe && w.openFails.Some? && Permission(w.openFails.value)))
  {
  }

  /** A device that can be examined is refreshed when it was modified after its time, or when its time lies ahead; one
      that was not is kept while it is younger than two seconds, or verified and younger than 200, and refreshed
      otherwise. */
  lemma WhenRefreshed(v: DevVal, w: World)
    requires Probes(w)
    ensures w.now < v.time ==> VerifiedVal(v, w) == Some(Refreshed(v, w))
    ensures w.stat.mtime > v.time || (w.stat.mtime == v.time && w.stat.mnsec / 1000 > v.utime) ==>
      VerifiedVal(v, w) == Some(Refreshed(v, w))
    ensures w.now >= v.time && (w.stat.mtime < v.time || (w.stat.mtime == v.time && w.stat.mnsec / 1000 <= v.utime)) ==>
      var young := w.now < v.time + 2 || (v.verified && w.now < v.time + 200);
      VerifiedVal(v, w) == Some(if young then v else Refreshed(v, w))
  {
  }

  /** A device that cannot be looked at is kept as it is, when that is for want of permission or of the file, and is
      dropped otherwise; so is one that is private, cannot be set up or shows nothing. */
  lemma WhenUnreadable(v: DevVal, w: World)
    ensures w.stat.StatFails? ==> VerifiedVal(v, w) == if w.stat.errno in {EPERM, EACCES, ENOENT} then Some(v) else None
    ensures w.stat.StatOk? && (w.now < v.time || w.stat.mtime > v.time) ==>
      && (w.lvmPrivate || w.noProbe ==> VerifiedVal(v, w) == None)
      && (!w.lvmPrivate && !w.noProbe && w.openFails.Some? ==>
        VerifiedVal(v, w) == if w.openFails.value in {EPERM, EACCES, ENOENT} then Some(v) else None)
      && (w.openFails.None? && (w.setDeviceFails || w.probeFails) ==> VerifiedVal(v, w) == None)
  {
  }

  lemma ContainsIff(s: string, sub: string)
    ensures Contains(s, sub) <==> exists a, b :: s == a + sub + b
  {
    if Contains(s, sub) { ContainsAt(s, sub); }
    if a, b :| s == a + sub + b { ContainsMiddle(a, sub, b); }
  }

  lemma {:induction false} ContainsAt(s: string, sub: string)
    requires Contains(s, sub)
    ensures exists a, b :: s == a + sub + b
  {
    if sub <= s {
      assert s == "" + sub + s[|sub|..];
    } else {
      ContainsAt(s[1..], sub);
      var a, b :| s[1..] == a + sub + b;
      assert s == ([s[0]] + a) + sub + b;
    }
  }

  lemma {:induction false} ContainsMiddle(a: string, sub: string, b: string)
    ensures Contains(a + sub + b, sub)
  {
    var s := a + sub + b;
    if a == "" {
      assert s == sub + b;
    } else {
      ContainsMiddle(a[1..], sub, b);
      assert s[1..] == a[1..] + sub + b;
    }
  }

  /** Which probed values become which tags: UUID and name of a partition entry under names of their own, nothing else
      of a partition entry, nothing whose name holds "_ID", everything else under its own name. */
  lemma TagForIs(name: string)
    ensures name == "PART_ENTRY_UUID" ==> TagFor(name) == Some("PARTUUID")
    ensures name == "PART_ENTRY_NAME" ==> TagFor(name) == Some("PARTLABEL")
    ensures "PART_ENTRY_" <= name && name != "PART_ENTRY_UUID" && name != "PART_ENTRY_NAME" ==> TagFor(name) == None
    ensures !("PART_ENTRY_" <= name) ==>
      (TagFor(name) == None <==> exists a, b :: name == a + "_ID" + b)
    ensures !("PART_ENTRY_" <= name) && TagFor(name).Some? ==> TagFor(name) == Some(name)
  {
    ContainsIff(name, "_ID");
    hide Contains;
    assert "PART_ENTRY_" <= "PART_ENTRY_UUID" && "PART_ENTRY_" <= "PART_ENTRY_NAME";
  }

  /** The last value that is probed for a tag. */
  predicate LastFor(values: seq<Pair>, tag: string, i: int) {
    && 0 <= i < |values| && TagFor(values[i].0) == Some(tag)
    && forall j :: i < j < |values| ==> TagFor(values[j].0) != Some(tag)
  }

  /** After probing a tag has the last value that was probed for it, up to its first NUL, and no other tag is there. */
  lemma {:induction false} ProbedLookup(values: seq<Pair>, tag: string)
    ensures Lookup(Probed([], values), tag).None? <==>
      forall i :: 0 <= i < |values| ==> TagFor(values[i].0) != Some(tag)
    ensures forall i :: LastFor(values, tag, i) ==>
      Lookup(Probed([], values), tag) == Some(StrNDup(values[i].1, |values[i].1|))
  {
    hide *;
    if values == [] {
      ProbedIs(values);
      LookupNone([], tag);
      assert forall i :: !LastFor([], tag, i) by { NoneLast(tag); }
    } else {
      var k := |values| - 1;
      ProbedLookup(values[..k], tag);
      OneMoreProbed(values, tag);
      LastOfMore(values, tag);
    }
  }

  lemma NoneLast(tag: string)
    ensures forall i :: !LastFor([], tag, i)
  {
  }

  /** Which value is the last one, once there is one more. */
  lemma LastOfMore(values: seq<Pair>, tag: string)
    requires values != []
    ensures var k := |values| - 1; var here := TagFor(values[k].0) == Some(tag);
      && (forall i :: LastFor(values, tag, i) <==> if here then i == k else LastFor(values[..k], tag, i))
      && (forall i :: LastFor(values[..k], tag, i) ==> 0 <= i < k && values[..k][i] == values[i])
      && ((forall i :: 0 <= i < |values| ==> TagFor(values[i].0) != Some(tag)) <==>
        !here && forall i :: 0 <= i < k ==> TagFor(values[..k][i].0) != Some(tag))
  {
    hide TagFor;
    var k := |values| - 1;
    assert forall i :: 0 <= i < k ==> values[..k][i] == values[i];
  }

  lemma ProbedIs(values: seq<Pair>)
    ensures values == [] ==> Probed([], values) == []
    ensures values != [] ==>
      var v, before := values[|values| - 1], Probed([], values[..|values| - 1]);
      Probed([], values) == if TagFor(v.0).None? then before
        else SetPair(before, TagFor(v.0).value, Some(StrNDup(v.1, |v.1|)))
  {
    hide TagFor, SetPair, StrNDup;
  }

  lemma {:induction false} ProbedUnique(values: seq<Pair>)
    ensures UniqueNames(Probed([], values))
  {
    ProbedIs(values);
    hide TagFor, SetPair, StrNDup, Probed;
    if values != [] {
      var k := |values| - 1;
      ProbedUnique(values[..k]);
      var name := TagFor(values[k].0);
      if name.Some? {
        SetKeepsUnique(Probed([], values[..k]), name.value, Some(StrNDup(values[k].1, |values[k].1|)));
      }
    }
  }

  lemma OneMoreProbed(values: seq<Pair>, tag: string)
    requires values != []
    ensures var k := |values| - 1;
      Lookup(Probed([], values), tag) == if TagFor(values[k].0) == Some(tag)
        then Some(StrNDup(values[k].1, |values[k].1|)) else Lookup(Probed([], values[..k]), tag)
  {
    ProbedIs(values);
    hide TagFor, SetPair, StrNDup, Probed, Lookup;
    var k := |values| - 1;
    ProbedUnique(values[..k]);
    var name := TagFor(values[k].0);
    if name.Some? {
      LookupSet(Probed([], values[..k]), name.value, Some(StrNDup(values[k].1, |values[k].1|)), tag);
    }
  }

  /** The device leaves the cache. */
  method DropDev(cache: Cache, dev: Dev)
    requires cache.Valid() && dev in cache.devs
    modifies cache`devs, dev`live, dev`tags, dev.tags`live, cache.heads`members
    ensures cache.Valid() && cache.devs == Without(old(cache.devs), dev) && !dev.live && dev.tags == []
    ensures Same(old(cache.devs), dev, old(Snapshot(cache.devs)))
    ensures Others(old(cache.devs), dev, old(Vals(cache.devs)))
  {
    hide *;
    ghost var ds, snap, vs := cache.devs, Snapshot(cache.devs), Vals(cache.devs);
    Record(ds, dev);
    FreeDev(cache, dev);
    OthersAre(ds, dev, snap, vs);
  }

  /** Unchanged. */
  lemma AllSame(cache: Cache, dev: Dev?)
    ensures Same(cache.devs, dev, Snapshot(cache.devs)) && Others(cache.devs, dev, Vals(cache.devs))
  {
    hide ValOf, SnapOf;
  }

  method Examine(cache: Cache, dev: Dev, w: World) returns (found: bool)
    requires cache.Valid() && dev in cache.devs
    modifies cache`heads, cache`changed, cache`devs, cache.heads`members, dev.tags`val, dev.tags`live
    modifies dev`live, dev`tags, dev`bidType, dev`bidLabel, dev`bidUuid, dev`time, dev`utime, dev`devno, dev`verified
    ensures cache.Valid() && found == !w.probeFails
    ensures !found ==> cache.devs == Without(old(cache.devs), dev) && !dev.live
    ensures found ==> cache.devs == old(cache.devs)
    ensures found ==> ValOf(dev) == Refreshed(old(ValOf(dev)), w)
    ensures Same(old(cache.devs), dev, old(Snapshot(cache.devs)))
    ensures Others(old(cache.devs), dev, old(Vals(cache.devs)))
    ensures forall h: Head :: h in cache.heads ==> h in old(cache.heads) || fresh(h)
    ensures forall t: Tag :: t in dev.tags ==> fresh(t)
  {
    hide *;
    ghost var ds, snap, vs := cache.devs, Snapshot(cache.devs), Vals(cache.devs);
    Record(ds, dev);
    PlainParts(ds, dev, vs);
    found := Reprobe(cache, dev, w);
    PlainParts(ds, dev, vs);
    OthersAre(ds, dev, snap, vs);
  }

  /** blkid_verify(). */
  method Verify(cache: Cache, dev: Dev, w: World) returns (r: Dev?)
    requires cache.Valid() && dev in cache.devs
    modifies cache`heads, cache`changed, cache`devs, cache.heads`members, dev.tags`val, dev.tags`live
    modifies dev`live, dev`tags, dev`bidType, dev`bidLabel, dev`bidUuid, dev`time, dev`utime, dev`devno, dev`verified
    ensures cache.Valid()
    ensures Same(old(cache.devs), dev, old(Snapshot(cache.devs)))
    ensures Others(old(cache.devs), dev, old(Vals(cache.devs)))
    ensures var v := VerifiedVal(old(ValOf(dev)), w);
      && r == (if v.None? then null else dev) && (v.None? ==> !dev.live)
      && cache.devs == (if v.None? then Without(old(cache.devs), dev) else old(cache.devs))
      && (v.Some? ==> ValOf(dev) == v.value)
    ensures old(OutcomeOf(dev.time, dev.utime, dev.verified, w)).Keep? ==> SnapOf(dev) == old(SnapOf(dev))
    ensures forall h: Head :: h in cache.heads ==> h in old(cache.heads) || fresh(h)
    ensures r != null ==> forall t: Tag :: t in dev.tags ==> t in old(dev.tags) || fresh(t)
  {
    hide *;
    ghost var v := ValOf(dev);
    PlainOf(dev);
    VerifiedIs(v, w);
    AllSame(cache, dev);
    if w.stat.StatFails? {
      if Permission(w.stat.errno) {
        return dev;
      }
      DropDev(cache, dev);
      return null;
    }
    if Recent(dev.time, dev.utime, dev.verified, w) {
      return dev;
    }
    if w.lvmPrivate || w.noProbe {
      DropDev(cache, dev);
      return null;
    }
    if w.openFails.Some? {
      if Permission(w.openFails.value) {
        return dev;
      }
      DropDev(cache, dev);
      return null;
    }
    if w.setDeviceFails {
      DropDev(cache, dev);
      return null;
    }
    var found := Examine(cache, dev, w);
    r := if found then dev else null;
  }
}
