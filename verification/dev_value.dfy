/** The cache as a value: its devices in order, each with everything that tag.c, dev.c, devname.c, verify.c and the
    cache reader store in it. */
module DevValue {
  import opened Wrappers
  import opened TagIndex

  datatype DevVal = DevVal(
    name: string,
    pairs: seq<Pair>,
    devno: nat,
    time: int,
    utime: int,
    pri: int,
    verified: bool,
    removable: bool)

  ghost function ValOf(d: Dev): DevVal
    reads d`tags, d.tags`val, d`devno, d`time, d`utime, d`pri, d`verified, d`removable
  {
    DevVal(d.name, d.Pairs(), d.devno, d.time, d.utime, d.pri, d.verified, d.removable)
  }

  lemma RestTags(ds: seq<Dev>)
    requires ds != []
    ensures TagsOf(ds[1..]) <= TagsOf(ds) && forall t: Tag :: t in ds[0].tags ==> t in TagsOf(ds)
  {
  }

  ghost function Vals(ds: seq<Dev>): (vs: seq<DevVal>)
    reads ds`tags, TagsOf(ds)`val, ds`devno, ds`time, ds`utime, ds`pri, ds`verified, ds`removable
    ensures |vs| == |ds| && forall i :: 0 <= i < |ds| ==> vs[i] == ValOf(ds[i])
  {
    if ds == [] then []
    else
      hide TagsOf, ValOf;
      RestTags(ds);
      [ValOf(ds[0])] + Vals(ds[1..])
  }

  /** Every device but `dev` has its old value. */
  ghost predicate Others(ds: seq<Dev>, dev: Dev?, vs: seq<DevVal>)
    reads ds`tags, TagsOf(ds)`val, ds`devno, ds`time, ds`utime, ds`pri, ds`verified, ds`removable
  {
    |vs| == |ds| && forall i :: 0 <= i < |ds| && ds[i] != dev ==> ValOf(ds[i]) == vs[i]
  }

  /** The place of a name: behind the last device when no device has it. */
  function PlaceOf(vs: seq<DevVal>, name: string): (i: nat)
    ensures i <= |vs| && (i < |vs| ==> vs[i].name == name)
    ensures forall j :: 0 <= j < i ==> vs[j].name != name
  {
    if vs == [] || vs[0].name == name then 0
    else
      var i := PlaceOf(vs[1..], name);
      assert forall j :: 1 <= j < i + 1 ==> vs[j] == vs[1..][j - 1];
      i + 1
  }

  predicate OneName(vs: seq<DevVal>) {
    forall i, j :: 0 <= i < j < |vs| ==> vs[i].name != vs[j].name
  }

  function Removed(vs: seq<DevVal>, i: nat): seq<DevVal>
    requires i < |vs|
  {
    vs[..i] + vs[i + 1..]
  }

  lemma ValsOneName(cache: Cache)
    requires cache.OneDevPerName() && Distinct(cache.devs)
    ensures OneName(Vals(cache.devs))
  {
    var ds := cache.devs;
    forall i, j | 0 <= i < j < |ds| ensures ds[i].name != ds[j].name {
      assert ds[i] in ds && ds[j] in ds && ds[i] != ds[j];
    }
    hide ValOf;
    assert forall i :: 0 <= i < |ds| ==> Vals(ds)[i].name == ds[i].name by { NamesAre(ds); }
  }

  lemma NamesAre(ds: seq<Dev>)
    ensures forall i :: 0 <= i < |ds| ==> Vals(ds)[i].name == ds[i].name
  {
  }

  /** The place of a device of the ring. */
  lemma PlaceIs(ds: seq<Dev>, i: nat)
    requires i < |ds| && OneName(Vals(ds))
    ensures PlaceOf(Vals(ds), ds[i].name) == i
  {
    NamesAre(ds);
    hide Vals, ValOf;
    var vs, p := Vals(ds), PlaceOf(Vals(ds), ds[i].name);
    assert !(p < i);
  }

  /** One device has another value. */
  lemma ValsChanged(ds: seq<Dev>, i: nat, vs: seq<DevVal>)
    requires i < |ds| && Others(ds, ds[i], vs) && Distinct(ds)
    ensures Vals(ds) == vs[i := ValOf(ds[i])]
  {
    hide ValOf;
  }

  lemma OthersAgree(ds: seq<Dev>, dev: Dev?, vs: seq<DevVal>)
    requires Others(ds, dev, vs)
    ensures |vs| == |ds| && forall i :: 0 <= i < |ds| && ds[i] != dev ==> Vals(ds)[i] == vs[i]
  {
    hide ValOf;
  }

  lemma OthersTransitive(ds: seq<Dev>, dev: Dev?, a: seq<DevVal>, b: seq<DevVal>)
    requires Others(ds, dev, a) && |b| == |ds| && forall i :: 0 <= i < |ds| && ds[i] != dev ==> a[i] == b[i]
    ensures Others(ds, dev, b)
  {
    hide ValOf;
  }

  /** One device has left. */
  lemma ValsLeft(ds: seq<Dev>, i: nat, vs: seq<DevVal>)
    requires i < |ds| && Others(ds, ds[i], vs) && Distinct(ds)
    ensures Without(ds, ds[i]) == ds[..i] + ds[i + 1..]
    ensures Vals(ds[..i] + ds[i + 1..]) == Removed(vs, i)
  {
    assert IndexOf(ds, ds[i]) == i;
    hide ValOf, IndexOf;
    var rest := ds[..i] + ds[i + 1..];
    forall j | 0 <= j < |rest| ensures ValOf(rest[j]) == Removed(vs, i)[j] {
      assert rest[j] == ds[if j < i then j else j + 1];
    }
  }

  /** All values at one moment, by the snapshot and the plain fields. */
  ghost predicate Recorded(ds: seq<Dev>, dev: Dev?, snap: map<Dev, Snap>, vs: seq<DevVal>) {
    |vs| == |ds| && forall i :: 0 <= i < |ds| && ds[i] != dev ==> ds[i] in snap && vs[i].pairs == snap[ds[i]].pairs
  }

  ghost predicate PlainAre(ds: seq<Dev>, dev: Dev?, vs: seq<DevVal>)
    reads ds`devno, ds`time, ds`utime, ds`pri, ds`verified, ds`removable
  {
    |vs| == |ds| && forall i :: 0 <= i < |ds| && ds[i] != dev ==> PlainIs(ds[i], vs[i])
  }

  lemma PlainParts(ds: seq<Dev>, dev: Dev?, vs: seq<DevVal>)
    ensures PlainAre(ds, dev, vs) <==> |vs| == |ds| && forall i :: 0 <= i < |ds| && ds[i] != dev ==>
      && vs[i].name == ds[i].name && vs[i].devno == ds[i].devno && vs[i].time == ds[i].time
      && vs[i].utime == ds[i].utime && vs[i].pri == ds[i].pri && vs[i].verified == ds[i].verified
      && vs[i].removable == ds[i].removable
  {
  }

  lemma Record(ds: seq<Dev>, dev: Dev?)
    ensures Recorded(ds, dev, Snapshot(ds), Vals(ds)) && PlainAre(ds, dev, Vals(ds))
  {
    assert forall i :: 0 <= i < |ds| ==> ds[i] in ds;
  }

  /** Others keep their values when their tags and their plain fields are as they were. */
  lemma OthersAre(ds: seq<Dev>, dev: Dev?, snap: map<Dev, Snap>, vs: seq<DevVal>)
    requires Same(ds, dev, snap) && Recorded(ds, dev, snap, vs) && PlainAre(ds, dev, vs)
    ensures Others(ds, dev, vs)
  {
    assert forall i :: 0 <= i < |ds| ==> ds[i] in ds;
  }

  /** The plain fields of a value. */
  ghost predicate PlainIs(d: Dev, v: DevVal)
    reads d`devno, d`time, d`utime, d`pri, d`verified, d`removable
  {
    && v.name == d.name && v.devno == d.devno && v.time == d.time && v.utime == d.utime && v.pri == d.pri
    && v.verified == d.verified && v.removable == d.removable
  }
}
