/** blkid_set_tag() and blkid_free_tag() of tag.c for a device that is in no cache. */
module TagLoose {
  import opened Wrappers
  import opened TagIndex
  import opened TagCache

  /** A device whose tags are in no ring but its own, with right shortcuts. */
  ghost predicate Loose(dev: Dev)
    reads dev, dev.tags
  {
    dev.cache == null && dev.Ok() && dev.Shortcuts() && forall t: Tag :: t in dev.tags ==> t.ring == null
  }

  /** blkid_free_tag(): the ring of names that it leaves is the tag's own. */
  method FreeLoose(tag: Tag)
    requires tag.dev.Ok() && tag in tag.dev.tags && tag.ring == null
    modifies tag`live, tag.dev`tags
    ensures tag.dev.Ok() && !tag.live && tag.dev.tags == Without(old(tag.dev.tags), tag)
    ensures tag.dev.Pairs() == SetPair(old(tag.dev.Pairs()), tag.name, None)
    ensures forall t: Tag :: t in tag.dev.tags <==> t in old(tag.dev.tags) && t != tag
  {
    var dev := tag.dev;
    dev.PairsChange(tag, tag.val);
    dev.PairsUnique();
    WithoutMembers(dev.tags, tag);
    hide SetPair, Lookup, Without, Distinct;
    ghost var left := PairsOf(Without(dev.tags, tag));
    dev.tags := Without(dev.tags, tag);
    tag.live := false;
    assert dev.Pairs() == left;
  }

  /** A new value: `free(t->bit_val); t->bit_val = val`. */
  method ReplaceLoose(t: Tag, val: string)
    requires t.dev.Ok() && t in t.dev.tags
    modifies t`val
    ensures t.dev.Ok() && t.dev.Pairs() == SetPair(old(t.dev.Pairs()), t.name, Some(val))
  {
    var dev := t.dev;
    dev.PairsChange(t, val);
    ghost var ps, k := dev.Pairs(), IndexOf(dev.tags, t);
    hide SetPair, Lookup, Without, IndexOf, Distinct;
    t.val := val;
    assert dev.Pairs() == ps[k := (t.name, val)];
  }

  /** A new tag. */
  method AddLoose(dev: Dev, name: string, val: string)
    requires dev.Ok() && forall t: Tag :: t in dev.tags ==> t.name != name
    modifies dev`tags
    ensures dev.Ok() && dev.Pairs() == SetPair(old(dev.Pairs()), name, Some(val))
    ensures forall t: Tag :: t in dev.tags ==> t in old(dev.tags) || (fresh(t) && t.ring == null)
  {
    hide *;
    ghost var ts := dev.tags;
    OkIs(dev);
    var t := new Tag(name, val, dev);
    dev.tags := dev.tags + [t];
    Added(dev, ts, t);
    OkIs(dev);
  }

  /** The ring of a device, as a statement about a list of tags. */
  ghost predicate GoodTags(dev: Dev, ts: seq<Tag>)
    reads ts`live
  {
    && Distinct(ts) && (forall t: Tag :: t in ts ==> t.live && t.dev == dev)
    && (forall t: Tag, u: Tag :: t in ts && u in ts && t.name == u.name ==> t == u)
  }

  lemma OkIs(dev: Dev)
    ensures dev.Ok() <==> dev.live && GoodTags(dev, dev.tags)
    ensures dev.Pairs() == PairsOf(dev.tags)
  {
  }

  lemma Added(dev: Dev, ts: seq<Tag>, t: Tag)
    requires GoodTags(dev, ts) && t.live && t.dev == dev && forall x: Tag :: x in ts ==> x.name != t.name
    ensures GoodTags(dev, ts + [t])
    ensures PairsOf(ts + [t]) == SetPair(PairsOf(ts), t.name, Some(t.val))
  {
    assert t !in ts;
    SetAbsent(PairsOf(ts), t.name, Some(t.val));
    hide SetPair, PairsOf;
    assert PairsOf(ts + [t]) == PairsOf(ts) + [(t.name, t.val)];
  }

  /** No tag of that name. */
  lemma Absent(dev: Dev, name: string)
    requires forall t: Tag :: t in dev.tags ==> t.name != name
    ensures Lookup(dev.Pairs(), name).None? && SetPair(dev.Pairs(), name, None) == dev.Pairs()
  {
    LookupNone(dev.Pairs(), name);
    SetAbsent(dev.Pairs(), name, None);
  }

  lemma Present(dev: Dev, t: Tag)
    requires dev.Ok() && t in dev.tags
    ensures t.dev == dev && t.live && Lookup(dev.Pairs(), t.name) == Some(t.val)
    ensures dev.Pairs() == SetPair(dev.Pairs(), t.name, Some(t.val))
    ensures forall x: Tag :: x in dev.tags && x.name == t.name ==> x == t
  {
    dev.PairsChange(t, t.val);
    hide Lookup, SetPair, Without, IndexOf, Distinct;
  }

  /** What blkid_set_tag() does to the ring of such a device; `same` when it returns early. */
  method ChangeLoose(dev: Dev, name: string, val: Option<string>) returns (same: bool)
    requires dev.Ok() && forall t: Tag :: t in dev.tags ==> t.ring == null
    modifies dev`tags, dev.tags`val, dev.tags`live
    ensures dev.Ok() && forall t: Tag :: t in dev.tags ==> t.ring == null && (t in old(dev.tags) || fresh(t))
    ensures dev.Pairs() == SetPair(old(dev.Pairs()), name, val)
    ensures same <==> val.Some? && old(Lookup(dev.Pairs(), name)) == val
    ensures same ==> dev.Shortcuts() == old(dev.Shortcuts())
    ensures val.None? ==> forall t: Tag :: t in old(dev.tags) && t.name == name ==>
      dev.tags == Without(old(dev.tags), t) && !t.live
  {
    hide *;
    var t := FindTagDev(dev, name);
    same := false;
    if t == null {
      Absent(dev, name);
      if val.Some? {
        AddLoose(dev, name, val.value);
      }
    } else {
      Present(dev, t);
      if val.None? {
        FreeLoose(t);
      } else if t.val == val.value {
        same := true;
      } else {
        ReplaceLoose(t, val.value);
      }
    }
  }

  lemma LooseIs(dev: Dev)
    ensures Loose(dev) <==>
      dev.cache == null && dev.Ok() && dev.Shortcuts() && forall t: Tag :: t in dev.tags ==> t.ring == null
    ensures dev.Shortcuts() <==> var ps := dev.Pairs();
      dev.bidType == Lookup(ps, "TYPE") && dev.bidLabel == Lookup(ps, "LABEL") && dev.bidUuid == Lookup(ps, "UUID")
  {
  }

  /** blkid_set_tag(): the list of tags becomes the old one with that one name set, replaced or removed, and the
      shortcuts follow; there is no index to keep and no flag to set. */
  method SetTagLoose(dev: Dev, name: string, value: Option<string>, vlength: nat) returns (rc: int)
    requires Loose(dev)
    modifies dev`tags, dev`bidType, dev`bidLabel, dev`bidUuid, dev.tags`val, dev.tags`live
    ensures Loose(dev) && rc == 0
    ensures dev.Pairs() == SetPair(old(dev.Pairs()), name, Stored(value, vlength))
    ensures value.None? ==> forall t: Tag :: t in old(dev.tags) && t.name == name ==>
      dev.tags == Without(old(dev.tags), t) && !t.live
    ensures forall t: Tag :: t in dev.tags ==> t in old(dev.tags) || fresh(t)
  {
    var val := Stored(value, vlength);
    assert val.None? <==> value.None?;
    ghost var ps := dev.Pairs();
    dev.PairsUnique();
    LooseIs(dev);
    hide *;
    var same := ChangeLoose(dev, name, val);
    rc := 0;
    if !same {
      SetShortcut(dev, name, val, ps);
    }
    LooseIs(dev);
  }
}
