/** The device ring of the cache (dev.c, devname.c, verify.c, cache.c): freeing, refreshing, finding and sweeping
    devices while the two-way tag index stays right. */
module DevCache {
  import opened Wrappers
  import opened TagIndex
  import opened TagCache

  lemma ShrinkIndexed(cache: Cache, ds: seq<Dev>, dev: Dev)
    requires cache.Indexed(ds) && dev in ds && dev.tags == []
    ensures cache.Indexed(Without(ds, dev))
  {
    hide Without, Distinct, IndexOf;
    WithoutMembers(ds, dev);
    var rest := Without(ds, dev);
    assert cache.DevsOk(rest);
    forall h: Head, t: Tag | h in cache.heads && t in h.members
      ensures t.live && t.ring == h && t.name == h.name && t.dev in rest && t in t.dev.tags
    {
    }
  }

  /** The `while (!list_empty(&dev->bid_tags))` of blkid_free_dev(); the device itself has already left the device
      ring. */
  method FreeTags(cache: Cache, dev: Dev, ghost ds: seq<Dev>)
    requires cache.Indexed(ds) && dev in ds
    modifies dev`tags, dev.tags`live, cache.heads`members
    ensures cache.Indexed(ds) && dev.tags == []
    ensures forall t: Tag :: t in old(dev.tags) ==> !t.live
    ensures Same(ds, dev, old(Snapshot(ds)))
  {
    ghost var all, k, before := dev.tags, 0, Snapshot(ds);
    assert dev.Ok() && all == all[0..];
    assert forall i, j :: 0 <= i < j < |all| ==> all[i] != all[j];
    assert Same(ds, dev, before);
    hide *;
    while dev.tags != []
      invariant cache.Indexed(ds)
      invariant k <= |all| && dev.tags == all[k..]
      invariant forall i :: 0 <= i < k ==> !all[i].live
      invariant Same(ds, dev, before)
      decreases |dev.tags|
    {
      assert forall i :: 0 <= i < |dev.tags| ==> dev.tags[i] == all[k + i] && dev.tags[i] in all;
      FreeFirst(cache, dev, dev.tags[0], ds, before);
      assert forall i :: 0 <= i < k ==> !all[i].live;
      k := k + 1;
    }
  }

  /** Frees the first tag of the ring. */
  method FreeFirst(cache: Cache, dev: Dev, t: Tag, ghost ds: seq<Dev>, ghost before: map<Dev, Snap>)
    requires cache.Indexed(ds) && dev in ds && dev.tags != [] && t == dev.tags[0] && Same(ds, dev, before)
    modifies dev`tags, t`live, cache.heads`members
    ensures cache.Indexed(ds) && dev.tags == old(dev.tags)[1..] && !t.live && Same(ds, dev, before)
  {
    assert t in dev.tags && dev.Ok() && t.ring in cache.heads;
    assert Without(dev.tags, t) == dev.tags[1..];
    SnapshotAgrees(ds, dev, before);
    ghost var now := Snapshot(ds);
    hide *;
    DeleteTag(cache, dev, t, ds);
    SameTransitive(ds, dev, now, before);
  }

  /** blkid_free_dev(). */
  method FreeDev(cache: Cache, dev: Dev)
    requires cache.Valid() && dev in cache.devs
    modifies cache`devs, dev`live, dev`tags, dev.tags`live, cache.heads`members
    ensures cache.Valid() && cache.devs == Without(old(cache.devs), dev) && !dev.live && dev.tags == []
    ensures forall t: Tag :: t in old(dev.tags) ==> !t.live
    ensures dev !in cache.devs
    ensures Same(old(cache.devs), dev, old(Snapshot(cache.devs)))
  {
    hide *;
    ghost var ds, snap := cache.devs, Snapshot(cache.devs);
    DevLeaves(cache, dev);
    cache.devs := Without(cache.devs, dev);
    FreeTags(cache, dev, ds);
    MarkFreed(cache, dev, ds, snap);
  }

  ghost predicate NamesDiffer(ds: seq<Dev>) {
    forall i, j :: 0 <= i < |ds| && 0 <= j < |ds| && ds[i].name == ds[j].name ==> ds[i] == ds[j]
  }

  /** What holds of a device about to leave. */
  lemma DevLeaves(cache: Cache, dev: Dev)
    requires cache.Valid() && dev in cache.devs
    ensures cache.Indexed(cache.devs) && Same(cache.devs, dev, Snapshot(cache.devs))
    ensures GoodSnapshot(Without(cache.devs, dev), Snapshot(cache.devs))
    ensures dev !in Without(cache.devs, dev) && NamesDiffer(Without(cache.devs, dev))
    ensures SubSeq(Without(cache.devs, dev), cache.devs)
  {
    ValidSnapshot(cache);
    WithoutMembers(cache.devs, dev);
    var rest := Without(cache.devs, dev);
    assert forall i :: 0 <= i < |rest| ==> rest[i] in rest;
    hide Without;
  }

  ghost predicate SubSeq(a: seq<Dev>, b: seq<Dev>) {
    forall i :: 0 <= i < |a| ==> a[i] in b
  }

  lemma NamesStillDiffer(cache: Cache)
    requires NamesDiffer(cache.devs)
    ensures cache.OneDevPerName()
  {
  }

  lemma SameStill(ds: seq<Dev>, rest: seq<Dev>, dev: Dev, snap: map<Dev, Snap>)
    requires Same(ds, dev, snap) && SubSeq(rest, ds)
    ensures Same(rest, dev, snap)
  {
    hide Snapshot, SnapOf;
  }

  /** A device without tags, and out of the ring, is freed. */
  method MarkFreed(cache: Cache, dev: Dev, ghost ds: seq<Dev>, ghost snap: map<Dev, Snap>)
    requires cache.Indexed(ds) && dev in ds && dev.tags == [] && cache.devs == Without(ds, dev)
    requires dev !in cache.devs && NamesDiffer(cache.devs) && SubSeq(cache.devs, ds)
    requires Same(ds, dev, snap) && GoodSnapshot(cache.devs, snap)
    modifies dev`live
    ensures cache.Valid() && Same(ds, dev, snap) && !dev.live
  {
    hide *;
    ShrinkIndexed(cache, ds, dev);
    NamesStillDiffer(cache);
    dev.live := false;
    SameStill(ds, cache.devs, dev, snap);
    ValidAgain(cache, cache.devs, dev, snap);
  }

  // ---------- the tag iterator and the clearing loop of blkid_verify() ----------

  /** blkid_tag_next(): the iterator's position is the next tag to report, null at the list head. */
  function TagNext(dev: Dev, p: Tag?): (r: (int, string, string, Tag?))
    requires p != null ==> p in dev.tags
    reads dev`tags, dev.tags`val
    ensures p == null ==> r.0 == -1
    ensures p != null ==> r.0 == 0 && r.1 == p.name && r.2 == p.val
    ensures r.3 != null ==> exists k :: 0 <= k < |dev.tags| - 1 && dev.tags[k] == p && dev.tags[k + 1] == r.3
  {
    if p == null then (-1, "", "", null)
    else
      var k := IndexOf(dev.tags, p);
      (0, p.name, p.val, if k + 1 < |dev.tags| then dev.tags[k + 1] else null)
  }

  /** `while (blkid_tag_next(iter, &type, &value) == 0) blkid_set_tag(dev, type, NULL, 0)`: deleting while iterating
      empties the device, and the iterator never rests on a freed tag. */
  method ClearTags(cache: Cache, dev: Dev)
    requires cache.Valid() && dev in cache.devs
    modifies cache`heads, cache`changed, cache.heads`members, dev`tags, dev`bidType, dev`bidLabel, dev`bidUuid,
      dev.tags`val, dev.tags`live
    ensures cache.Valid() && dev.tags == []
    ensures forall t: Tag :: t in old(dev.tags) ==> !t.live
    ensures Same(cache.devs, dev, old(Snapshot(cache.devs)))
    ensures cache.heads == old(cache.heads)
  {
    hide *;
    ghost var all, k, heads := dev.tags, 0, cache.heads;
    ghost var others := Snapshot(cache.devs);
    var p: Tag? := if dev.tags == [] then null else dev.tags[0];
    ClearingStarts(cache, dev, p);
    while p != null
      invariant k <= |all| && dev.tags == all[k..] && cache.heads == heads
      invariant Clearing(cache, dev, all, k, p, others, heads)
      decreases |all| - k
    {
      AllInAll(all, k);
      p := ClearOne(cache, dev, p, all, k, others, heads);
      k := k + 1;
    }
    ClearedAll(cache, dev, all, k, others, heads);
  }

  /** The loop's invariant: the first `k` tags are freed, the others are left, and the iterator rests on the next
      one. */
  ghost predicate Clearing(cache: Cache, dev: Dev, all: seq<Tag>, k: nat, p: Tag?, others: map<Dev, Snap>,
      heads: seq<Head>)
    reads *
  {
    && cache.Valid() && cache.heads == heads && dev in cache.devs && k <= |all| && dev.tags == all[k..] && Distinct(all)
    && (forall i :: 0 <= i < k ==> !all[i].live)
    && p == (if k == |all| then null else all[k]) && (p != null ==> p.live)
    && Same(cache.devs, dev, others)
  }

  lemma ClearingStarts(cache: Cache, dev: Dev, p: Tag?)
    requires cache.Valid() && dev in cache.devs && p == if dev.tags == [] then null else dev.tags[0]
    ensures Clearing(cache, dev, dev.tags, 0, p, Snapshot(cache.devs), cache.heads) && dev.tags[0..] == dev.tags
  {
    FirstLive(cache, dev);
    assert dev.Ok();
    hide Cache.Valid, SnapOf, Distinct;
  }

  lemma AllInAll(all: seq<Tag>, k: nat)
    requires k <= |all|
    ensures forall i :: 0 <= i < |all| - k ==> all[k..][i] in all
  {
    assert forall i :: 0 <= i < |all| - k ==> all[k..][i] == all[k + i];
  }

  lemma ClearedAll(cache: Cache, dev: Dev, all: seq<Tag>, k: nat, others: map<Dev, Snap>, heads: seq<Head>)
    requires Clearing(cache, dev, all, k, null, others, heads)
    ensures cache.Valid() && dev.tags == [] && cache.heads == heads && Same(cache.devs, dev, others)
    ensures forall t: Tag :: t in all ==> !t.live
  {
  }

  /** blkid_set_tag(dev, name, NULL, 0) for a tag that is there. */
  method RemoveTag(cache: Cache, dev: Dev, t: Tag, name: string)
    requires cache.Valid() && dev in cache.devs && t in dev.tags && name == t.name
    modifies cache`heads, cache`changed, cache.heads`members, dev`tags, dev`bidType, dev`bidLabel, dev`bidUuid,
      dev.tags`val, dev.tags`live
    ensures cache.Valid() && cache.heads == old(cache.heads)
    ensures dev.tags == Without(old(dev.tags), t) && !t.live
    ensures Same(cache.devs, dev, old(Snapshot(cache.devs)))
  {
    hide *;
    var r := SetTag(cache, dev, name, None, 0);
  }

  /** One round: step the iterator, then delete the tag it reported. */
  method ClearOne(cache: Cache, dev: Dev, p: Tag, ghost all: seq<Tag>, ghost k: nat, ghost others: map<Dev, Snap>,
      ghost heads: seq<Head>)
    returns (next: Tag?)
    requires Clearing(cache, dev, all, k, p, others, heads)
    modifies cache`heads, cache`changed, cache.heads`members, dev`tags, dev`bidType, dev`bidLabel, dev`bidUuid,
      dev.tags`val, dev.tags`live
    ensures k < |all| && dev.tags == all[k + 1..] && cache.heads == heads
    ensures Clearing(cache, dev, all, k + 1, next, others, heads)
  {
    hide *;
    BeforeClear(cache, dev, all, k, p, others, heads);
    ghost var ds, now := cache.devs, Snapshot(cache.devs);
    var step := TagNext(dev, p);
    next := step.3;
    RemoveTag(cache, dev, p, step.1);
    SameTransitive(ds, dev, now, others);
    FirstLive(cache, dev);
    ClearingNext(cache, dev, all, k, next, others, heads);
  }

  lemma BeforeClear(cache: Cache, dev: Dev, all: seq<Tag>, k: nat, p: Tag, others: map<Dev, Snap>, heads: seq<Head>)
    requires Clearing(cache, dev, all, k, p, others, heads)
    ensures cache.Valid() && dev in cache.devs && cache.heads == heads
    ensures k < |all| && p in dev.tags && p == all[k] && Without(dev.tags, p) == all[k + 1..]
    ensures TagNext(dev, p).1 == p.name && TagNext(dev, p).3 == if k + 1 < |all| then all[k + 1] else null
    ensures Agree(cache.devs, dev, Snapshot(cache.devs), others)
    ensures forall i, j :: 0 <= i < j < |all| ==> all[i] != all[j]
    ensures forall i :: 0 <= i < k ==> !all[i].live && all[i] !in dev.tags
    ensures forall i :: 0 <= i < |dev.tags| ==> dev.tags[i] in dev.tags
  {
    hide Cache.Valid, Same, Agree, Snapshot;
    assert p == dev.tags[0] && IndexOf(dev.tags, p) == 0;
    assert forall i :: 0 <= i < |dev.tags| ==> dev.tags[i] == all[k + i];
    SnapshotAgrees(cache.devs, dev, others);
  }

  lemma ClearingNext(cache: Cache, dev: Dev, all: seq<Tag>, k: nat, p: Tag?, others: map<Dev, Snap>, heads: seq<Head>)
    requires cache.Valid() && cache.heads == heads && dev in cache.devs && k < |all| && dev.tags == all[k + 1..]
    requires forall i, j :: 0 <= i < j < |all| ==> all[i] != all[j]
    requires forall i :: 0 <= i < k ==> !all[i].live
    requires !all[k].live && (p != null ==> p.live) && p == if dev.tags == [] then null else dev.tags[0]
    requires Same(cache.devs, dev, others)
    ensures Clearing(cache, dev, all, k + 1, p, others, heads)
  {
  }

  lemma FirstLive(cache: Cache, dev: Dev)
    requires cache.Valid() && dev in cache.devs
    ensures dev.tags != [] ==> dev.tags[0].live
  {
    assert dev.Ok() && (dev.tags != [] ==> dev.tags[0] in dev.tags);
  }
}
