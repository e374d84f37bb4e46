/** The operations of tag.c and dev.c that change the two-way tag index. */
module TagCache {
  import opened Wrappers
  import opened TagIndex

  /** blkid_find_tag_dev(): the first tag of that name on the device. */
  method FindTagDev(dev: Dev, name: string) returns (t: Tag?)
    ensures t == null ==> forall x: Tag :: x in dev.tags ==> x.name != name
    ensures t != null ==> t in dev.tags && t.name == name
  {
    for i := 0 to |dev.tags|
      invariant forall k :: 0 <= k < i ==> dev.tags[k].name != name
    {
      if dev.tags[i].name == name {
        return dev.tags[i];
      }
    }
    return null;
  }

  /** blkid_find_head_cache(): the head of the ring of all tags of that name. */
  method FindHead(cache: Cache, name: string) returns (h: Head?)
    ensures h == null ==> forall x: Head :: x in cache.heads ==> x.name != name
    ensures h != null ==> h in cache.heads && h.name == name
  {
    for i := 0 to |cache.heads|
      invariant forall k :: 0 <= k < i ==> cache.heads[k].name != name
    {
      if cache.heads[i].name == name {
        return cache.heads[i];
      }
    }
    return null;
  }

  /** blkid_free_tag(): unlinks the tag from both of its rings. */
  method FreeTag(cache: Cache, tag: Tag, ghost ds: seq<Dev>)
    requires cache.Indexed(ds) && tag.dev in ds && tag in tag.dev.tags
    modifies tag`live, tag.dev`tags, tag.ring`members
    ensures cache.Indexed(ds) && !tag.live
    ensures tag.dev.tags == Without(old(tag.dev.tags), tag)
    ensures tag.ring.members == Without(old(tag.ring.members), tag)
  {
    hide Distinct, Without, IndexOf;
    var dev := tag.dev;
    var head: Head := tag.ring;
    dev.PairsUnique();
    WithoutMembers(dev.tags, tag);
    WithoutMembers(head.members, tag);
    dev.tags := Without(dev.tags, tag);
    head.members := Without(head.members, tag);
    tag.live := false;
  }

  /** The head for a name, made and appended when the cache has none yet. */
  method GetHead(cache: Cache, name: string, ghost ds: seq<Dev>) returns (h: Head)
    requires cache.Indexed(ds)
    modifies cache`heads
    ensures cache.Indexed(ds) && h in cache.heads && h.name == name
    ensures cache.heads == old(cache.heads) || (fresh(h) && h.members == [] && cache.heads == old(cache.heads) + [h])
  {
    hide *;
    ghost var hs := cache.heads;
    // what the index reads stays as it is while new objects are made
    assert allocated(TagsOf(ds)) && allocated(MembersOf(hs)) && allocated(ds) && allocated(hs);
    var found := FindHead(cache, name);
    if found != null {
      return found;
    }
    IndexedIs(cache, ds);
    h := new Head(name);
    cache.heads := cache.heads + [h];
    HeadAdded(hs, ds, h);
    IndexedIs(cache, ds);
  }

  /** The index, as a statement about a list of heads. */
  ghost predicate IndexedBy(hs: seq<Head>, ds: seq<Dev>)
    reads hs`members, ds`live, ds`tags, TagsOf(ds)`live, TagsOf(ds)`ring, MembersOf(hs)`live, MembersOf(hs)`ring
  {
    && (forall g: Head, h: Head :: g in hs && h in hs && g.name == h.name ==> g == h)
    && (forall h: Head :: h in hs ==> Distinct(h.members))
    && Distinct(ds) && (forall d: Dev :: d in ds ==> d.Ok())
    && (forall d: Dev, t: Tag :: d in ds && t in d.tags ==>
      t.ring != null && t.ring in hs && t.ring.name == t.name && t in t.ring.members)
    && (forall h: Head, t: Tag :: h in hs && t in h.members ==>
      t.live && t.ring == h && t.name == h.name && t.dev in ds && t in t.dev.tags)
  }

  lemma IndexedIs(cache: Cache, ds: seq<Dev>)
    ensures cache.Indexed(ds) <==> IndexedBy(cache.heads, ds) && forall d: Dev :: d in ds ==> d.cache == cache
  {
    hide Dev.Ok, Distinct;
  }

  lemma HeadAdded(hs: seq<Head>, ds: seq<Dev>, h: Head)
    requires IndexedBy(hs, ds) && h.members == [] && forall g: Head :: g in hs ==> g.name != h.name
    ensures IndexedBy(hs + [h], ds)
  {
    hide Dev.Ok;
  }

  /** list_add_tail() on both rings of a new tag. */
  method LinkTag(cache: Cache, dev: Dev, h: Head, t: Tag, ghost ds: seq<Dev>)
    requires cache.Indexed(ds) && dev in ds && h in cache.heads
    requires t.dev == dev && t.live && t.name == h.name && t.ring == null
    requires forall x: Tag :: x in dev.tags ==> x.name != t.name
    modifies dev`tags, h`members, t`ring
    ensures cache.Indexed(ds)
    ensures dev.tags == old(dev.tags) + [t] && h.members == old(h.members) + [t] && t.ring == h
  {
    assert t !in h.members;
    dev.tags := dev.tags + [t];
    h.members := h.members + [t];
    t.ring := h;
  }

  /** The new tag of blkid_set_tag(): appended to the device and to the ring of its name. */
  method AppendTag(cache: Cache, dev: Dev, name: string, val: string, ghost ds: seq<Dev>) returns (t: Tag)
    requires cache.Indexed(ds) && dev in ds
    requires forall x: Tag :: x in dev.tags ==> x.name != name
    modifies cache`heads, dev`tags, cache.heads`members
    ensures cache.Indexed(ds)
    ensures fresh(t) && t.name == name && t.val == val && dev.tags == old(dev.tags) + [t]
    ensures forall h: Head :: h in cache.heads ==> h in old(cache.heads) || fresh(h)
  {
    t := new Tag(name, val, dev);
    var h := GetHead(cache, name, ds);
    LinkTag(cache, dev, h, t, ds);
  }

  /** What blkid_set_tag() stores for a value of `vlength` bytes; None deletes. */
  function Stored(value: Option<string>, vlength: nat): Option<string> {
    if value.None? then None else Some(StrNDup(value.value, vlength))
  }

  /** `*dev_var = val`: the shortcuts follow the tag that was set. `ps` are the pairs they were right for. */
  method SetShortcut(dev: Dev, name: string, v: Option<string>, ghost ps: seq<Pair>)
    requires UniqueNames(ps) && dev.Pairs() == SetPair(ps, name, v)
    requires dev.bidType == Lookup(ps, "TYPE") && dev.bidLabel == Lookup(ps, "LABEL")
      && dev.bidUuid == Lookup(ps, "UUID")
    modifies dev`bidType, dev`bidLabel, dev`bidUuid
    ensures dev.Shortcuts()
  {
    LookupSet(ps, name, v, "TYPE");
    LookupSet(ps, name, v, "LABEL");
    LookupSet(ps, name, v, "UUID");
    if name == "TYPE" {
      dev.bidType := v;
    } else if name == "LABEL" {
      dev.bidLabel := v;
    } else if name == "UUID" {
      dev.bidUuid := v;
    }
  }

  /** ... which changes neither the index nor any other device. */
  method LinkShortcut(cache: Cache, dev: Dev, name: string, v: Option<string>, ghost ps: seq<Pair>, ghost ds: seq<Dev>)
    requires cache.Indexed(ds) && UniqueNames(ps) && dev.Pairs() == SetPair(ps, name, v)
    requires dev.bidType == Lookup(ps, "TYPE") && dev.bidLabel == Lookup(ps, "LABEL")
      && dev.bidUuid == Lookup(ps, "UUID")
    modifies dev`bidType, dev`bidLabel, dev`bidUuid
    ensures cache.Indexed(ds) && dev.Shortcuts() && dev.Pairs() == old(dev.Pairs())
    ensures Same(ds, dev, old(Snapshot(ds)))
  {
    hide SetPair, Lookup, UniqueNames, PairsOf, Distinct, Dev.Shortcuts;
    SetShortcut(dev, name, v, ps);
    forall d | d in ds && d != dev ensures SnapOf(d) == old(SnapOf(d)) {
    }
  }

  /** The end of blkid_set_tag() after a change: the shortcut, and BLKID_BIC_FL_CHANGED. */
  method NoteChange(cache: Cache, dev: Dev, name: string, v: Option<string>, ghost ps: seq<Pair>, ghost ds: seq<Dev>,
      ghost before: map<Dev, Snap>)
    requires ds == cache.devs && dev in ds && cache.Indexed(ds) && cache.OneDevPerName()
    requires Same(ds, dev, before) && GoodSnapshot(ds, before)
    requires UniqueNames(ps) && dev.Pairs() == SetPair(ps, name, v)
    requires dev.bidType == Lookup(ps, "TYPE") && dev.bidLabel == Lookup(ps, "LABEL")
      && dev.bidUuid == Lookup(ps, "UUID")
    modifies dev`bidType, dev`bidLabel, dev`bidUuid, cache`changed
    ensures cache.Valid() && cache.changed && dev.Pairs() == old(dev.Pairs())
    ensures Same(ds, dev, before)
  {
    hide *;
    cache.changed := true;
    ghost var middle := Snapshot(ds);
    SnapshotAgrees(ds, dev, before);
    LinkShortcut(cache, dev, name, v, ps, ds);
    SameTransitive(ds, dev, middle, before);
    ValidAgain(cache, ds, dev, before);
  }

  /** Deletion: the tag leaves both rings. */
  method DeleteTag(cache: Cache, dev: Dev, t: Tag, ghost ds: seq<Dev>)
    requires cache.Indexed(ds) && dev in ds && t in dev.tags
    modifies dev`tags, t`live, t.ring`members
    ensures cache.Indexed(ds) && !t.live
    ensures dev.tags == Without(old(dev.tags), t)
    ensures dev.Pairs() == SetPair(old(dev.Pairs()), t.name, None)
    ensures Same(ds, dev, old(Snapshot(ds)))
  {
    hide Distinct, Without, IndexOf, PairsOf, SetPair, Lookup, Cache.Indexed, Dev.Ok;
    TagThere(cache, ds, dev, t);
    dev.PairsChange(t, t.val);
    ghost var rest, left := Without(dev.tags, t), PairsOf(Without(dev.tags, t));
    FreeTag(cache, t, ds);
    assert PairsOf(rest) == left;
  }

  lemma TagThere(cache: Cache, ds: seq<Dev>, dev: Dev, t: Tag)
    requires cache.Indexed(ds) && dev in ds && t in dev.tags
    ensures dev.Ok() && t.dev == dev && t.ring != null
  {
    hide Distinct;
  }

  /** A new value: `free(t->bit_val); t->bit_val = val`. */
  method ReplaceValue(cache: Cache, dev: Dev, t: Tag, val: string, ghost ds: seq<Dev>)
    requires cache.Indexed(ds) && dev in ds && t in dev.tags
    modifies t`val
    ensures cache.Indexed(ds)
    ensures dev.Pairs() == SetPair(old(dev.Pairs()), t.name, Some(val))
    ensures Same(ds, dev, old(Snapshot(ds)))
  {
    dev.PairsChange(t, val);
    ghost var ps, k := dev.Pairs(), IndexOf(dev.tags, t);
    hide Distinct, SetPair, Lookup, Without, IndexOf, Cache.Indexed;
    t.val := val;
    assert dev.Pairs() == ps[k := (t.name, val)];
  }

  /** A new tag. */
  method InsertTag(cache: Cache, dev: Dev, name: string, val: string, ghost ds: seq<Dev>)
    requires cache.Indexed(ds) && dev in ds
    requires forall x: Tag :: x in dev.tags ==> x.name != name
    modifies cache`heads, dev`tags, cache.heads`members
    ensures cache.Indexed(ds)
    ensures dev.Pairs() == SetPair(old(dev.Pairs()), name, Some(val))
    ensures Same(ds, dev, old(Snapshot(ds)))
    ensures forall h: Head :: h in cache.heads ==> h in old(cache.heads) || fresh(h)
    ensures forall t: Tag :: t in dev.tags ==> t in old(dev.tags) || fresh(t)
  {
    hide Distinct, SetPair, Lookup, Cache.Indexed, Dev.Shortcuts;
    ghost var ps := dev.Pairs();
    SetAbsent(ps, name, Some(val));
    var t := AppendTag(cache, dev, name, val, ds);
    assert dev.Pairs() == ps + [(name, val)];
    forall d | d in ds && d != dev ensures SnapOf(d) == old(SnapOf(d)) {
    }
  }

  /** The tag exists already: deleted, left alone or given its new value. */
  method ChangeFound(cache: Cache, dev: Dev, t: Tag, val: Option<string>, ghost ds: seq<Dev>) returns (same: bool)
    requires cache.Indexed(ds) && dev in ds && t in dev.tags
    modifies dev`tags, t`val, t`live, t.ring`members
    ensures cache.Indexed(ds)
    ensures dev.Pairs() == SetPair(old(dev.Pairs()), t.name, val)
    ensures Same(ds, dev, old(Snapshot(ds)))
    ensures same == (val.Some? && old(Lookup(dev.Pairs(), t.name)) == val)
    ensures same ==> dev.Shortcuts() == old(dev.Shortcuts())
    ensures val.None? ==> dev.tags == Without(old(dev.tags), t) && !t.live
    ensures forall x: Tag :: x in dev.tags ==> x in old(dev.tags)
  {
    dev.PairsChange(t, t.val);
    WithoutMembers(dev.tags, t);
    hide *;
    same := false;
    if val.None? {
      DeleteTag(cache, dev, t, ds);
    } else if t.val == val.value {
      same := true;
    } else {
      ReplaceValue(cache, dev, t, val.value, ds);
    }
  }

  /** The change blkid_set_tag() makes to the rings; `same` when the value was already there. */
  method ChangeTag(cache: Cache, dev: Dev, name: string, val: Option<string>, ghost ds: seq<Dev>) returns (same: bool)
    requires cache.Indexed(ds) && dev in ds
    modifies cache`heads, cache.heads`members, dev`tags, dev.tags`val, dev.tags`live
    ensures cache.Indexed(ds)
    ensures dev.Pairs() == SetPair(old(dev.Pairs()), name, val)
    ensures Same(ds, dev, old(Snapshot(ds)))
    ensures same == (val.Some? && old(Lookup(dev.Pairs(), name)) == val)
    ensures same ==> dev.Shortcuts() == old(dev.Shortcuts())
    ensures val.None? ==> forall t: Tag :: t in old(dev.tags) && t.name == name ==>
      dev.tags == Without(old(dev.tags), t) && !t.live
    ensures forall h: Head :: h in cache.heads ==> h in old(cache.heads) || fresh(h)
    ensures val.None? ==> cache.heads == old(cache.heads)
    ensures forall t: Tag :: t in dev.tags ==> t in old(dev.tags) || fresh(t)
  {
    hide Lookup, SetPair, PairsOf, Distinct, UniqueNames, Same, Dev.Shortcuts;
    ghost var snap := Snapshot(ds);
    var t := FindTagDev(dev, name);
    TagFound(cache, dev, name, t, ds);
    assert Snapshot(ds) == snap;
    hide *;
    if t != null {
      same := ChangeFound(cache, dev, t, val, ds);
      return;
    }
    same := false;
    if val.Some? {
      InsertTag(cache, dev, name, val.value, ds);
    }
  }

  /** What the search for the name tells. */
  lemma TagFound(cache: Cache, dev: Dev, name: string, t: Tag?, ds: seq<Dev>)
    requires cache.Indexed(ds) && dev in ds
    requires t == null ==> forall x: Tag :: x in dev.tags ==> x.name != name
    requires t != null ==> t in dev.tags && t.name == name
    ensures Same(ds, dev, Snapshot(ds))
    ensures t == null ==> Lookup(dev.Pairs(), name).None? && SetPair(dev.Pairs(), name, None) == dev.Pairs()
    ensures t != null ==>
      t.ring != null && t.ring in cache.heads && forall x: Tag :: x in dev.tags && x.name == name ==> x == t
    ensures forall i :: 0 <= i < |dev.tags| ==> dev.tags[i] in dev.tags
    ensures forall i :: 0 <= i < |cache.heads| ==> cache.heads[i] in cache.heads
  {
    var ps := dev.Pairs();
    assert dev.Ok();
    LookupNone(ps, name);
    if t == null {
      SetAbsent(ps, name, None);
    }
  }

  lemma BeforeSet(cache: Cache, dev: Dev, value: Option<string>, vlength: nat)
    requires cache.Valid() && dev in cache.devs
    ensures cache.Indexed(cache.devs) && cache.OneDevPerName() && GoodSnapshot(cache.devs, Snapshot(cache.devs))
    ensures dev.Shortcuts() && UniqueNames(dev.Pairs())
    ensures var ps := dev.Pairs();
      dev.bidType == Lookup(ps, "TYPE") && dev.bidLabel == Lookup(ps, "LABEL") && dev.bidUuid == Lookup(ps, "UUID")
    ensures Stored(value, vlength).None? <==> value.None?
  {
    assert dev.Ok() && dev.Shortcuts();
    dev.PairsUnique();
    ValidSnapshot(cache);
  }

  /** blkid_set_tag(). The device's tag list becomes the old one with that single name set, replaced or removed;
      the index, the shortcuts and every other device's tags stay right. */
  method SetTag(cache: Cache, dev: Dev, name: string, value: Option<string>, vlength: nat) returns (rc: int)
    requires cache.Valid() && dev in cache.devs
    modifies cache`heads, cache`changed, cache.heads`members, dev`tags, dev`bidType, dev`bidLabel, dev`bidUuid,
      dev.tags`val, dev.tags`live
    ensures cache.Valid() && rc == 0
    ensures dev.Pairs() == SetPair(old(dev.Pairs()), name, Stored(value, vlength))
    ensures Same(cache.devs, dev, old(Snapshot(cache.devs)))
    ensures value.None? ==> forall t: Tag :: t in old(dev.tags) && t.name == name ==>
      dev.tags == Without(old(dev.tags), t) && !t.live
    ensures cache.changed == (old(cache.changed) || value.None? || old(Lookup(dev.Pairs(), name)) != Stored(value,
      vlength))
    ensures forall h: Head :: h in cache.heads ==> h in old(cache.heads) || fresh(h)
    ensures value.None? ==> cache.heads == old(cache.heads)
    ensures forall t: Tag :: t in dev.tags ==> t in old(dev.tags) || fresh(t)
  {
    hide *;
    var val := Stored(value, vlength);
    ghost var ps, ds, before := dev.Pairs(), cache.devs, Snapshot(cache.devs);
    BeforeSet(cache, dev, value, vlength);
    var same := ChangeTag(cache, dev, name, val, ds);
    rc := 0;
    assert same <==> !(value.None? || Lookup(ps, name) != Stored(value, vlength));
    if same {
      ValidAgain(cache, ds, dev, before);
      return;
    }
    NoteChange(cache, dev, name, val, ps, ds, before);
  }

  // ---------- what the invariant means ----------

  /** The index agrees with a plain scan: the ring of a name holds exactly the tags of that name on the cached
      devices. */
  lemma IndexAgreesWithScan(cache: Cache, name: string, t: Tag)
    requires cache.Valid()
    ensures (exists h: Head :: h in cache.heads && h.name == name && t in h.members)
       <==> (exists d: Dev :: d in cache.devs && t in d.tags && t.name == name)
  {
    if d: Dev :| d in cache.devs && t in d.tags && t.name == name {
      assert t.ring in cache.heads && t.ring.name == name && t in t.ring.members;
    }
    if h: Head :| h in cache.heads && h.name == name && t in h.members {
      assert t.dev in cache.devs && t in t.dev.tags && t.name == name;
    }
  }

  /** No ring of the cache reaches a freed tag. */
  lemma FreedTagUnreachable(cache: Cache, t: Tag)
    requires cache.Valid() && !t.live
    ensures forall h: Head :: h in cache.heads ==> t !in h.members
    ensures forall d: Dev :: d in cache.devs ==> t !in d.tags
  {
    forall d: Dev | d in cache.devs ensures t !in d.tags { assert d.Ok(); }
  }

  ghost predicate Common(name: string) { name == "TYPE" || name == "LABEL" || name == "UUID" }

  /** blkid_free_tag() called directly: the index stays right, but the device's shortcut is left pointing at the
      freed value exactly when the tag is one of the three common ones. */
  method FreeTagDirectly(cache: Cache, tag: Tag)
    requires cache.Valid() && tag.dev in cache.devs && tag in tag.dev.tags
    modifies tag`live, tag.dev`tags, tag.ring`members
    ensures cache.Indexed(cache.devs) && cache.OneDevPerName() && !tag.live
    ensures tag.dev.Pairs() == SetPair(old(tag.dev.Pairs()), tag.name, None)
    ensures tag.dev.tags == Without(old(tag.dev.tags), tag)
    ensures tag.dev.Shortcuts() <==> !Common(tag.name)
    ensures cache.Valid() <==> !Common(tag.name)
    ensures Same(cache.devs, tag.dev, old(Snapshot(cache.devs)))
  {
    var dev := tag.dev;
    ghost var ps := dev.Pairs();
    dev.PairsUnique();
    dev.PairsChange(tag, tag.val);
    LookupSet(ps, tag.name, None, "TYPE");
    LookupSet(ps, tag.name, None, "LABEL");
    LookupSet(ps, tag.name, None, "UUID");
    assert dev.bidType == Lookup(ps, "TYPE") && dev.bidLabel == Lookup(ps, "LABEL")
      && dev.bidUuid == Lookup(ps, "UUID");
    hide Cache.Indexed, SetPair, Lookup, Distinct, UniqueNames, PairsOf;
    DeleteTag(cache, dev, tag, cache.devs);
    assert dev.Shortcuts() <==> !Common(tag.name);
  }
}
