/** What blkid_get_dev() makes of the devices of a cache, as a function of their values. */
module GetValue {
  import opened Wrappers
  import opened TagIndex
  import opened DevValue
  import opened DevVerify

  /** The stale-entry rule: same TYPE, and LABEL and UUID either both equal or both absent. */
  ghost predicate AlikeVal(v: DevVal, u: DevVal) {
    && Lookup(v.pairs, "TYPE").Some? && Lookup(v.pairs, "TYPE") == Lookup(u.pairs, "TYPE")
    && Lookup(v.pairs, "LABEL") == Lookup(u.pairs, "LABEL") && Lookup(v.pairs, "UUID") == Lookup(u.pairs, "UUID")
  }

  function NewVal(name: string): DevVal {
    DevVal(name, [], 0, INT_MIN, 0, 0, false, false)
  }

  /** The devices once the name has been looked for. */
  function FoundVals(vs: seq<DevVal>, name: string, create: bool, accessible: bool): seq<DevVal> {
    if PlaceOf(vs, name) == |vs| && create && accessible then vs + [NewVal(name)] else vs
  }

  /** The device survives the sweep for `v` as it is. */
  ghost predicate Spared(v: DevVal, u: DevVal) { u.verified || !AlikeVal(v, u) }

  /** A look-alike that the sweep meets: only when it comes out verified does it stay. */
  ghost function Reexamined(u: DevVal, w: World): seq<DevVal> {
    var x := VerifiedVal(u, w);
    if x.Some? && x.value.verified then [x.value] else []
  }

  /** The sweep for `v`; the k-th device met answers as `worlds(k)`. */
  ghost function Swept(us: seq<DevVal>, v: DevVal, worlds: nat -> World): seq<DevVal> {
    if us == [] then []
    else
      var k := |us| - 1;
      Swept(us[..k], v, worlds) + if Spared(v, us[k]) then [us[k]] else Reexamined(us[k], worlds(k))
  }

  /** The devices after the i-th one is verified and, when that succeeds, its look-alikes are. */
  ghost function VerifiedVals(us: seq<DevVal>, i: nat, worlds: nat -> World): seq<DevVal>
    requires i < |us|
  {
    var x := VerifiedVal(us[i], worlds(0));
    if x.None? then Removed(us, i)
    else if !x.value.verified then us[i := x.value]
    else Swept(us[i := x.value], x.value, Later(worlds))
  }

  /** What the devices met after the first answer. */
  function Later(worlds: nat -> World): nat -> World {
    (n: nat) => worlds(n + 1)
  }

  /** The devices after blkid_get_dev(). */
  ghost function GotVals(vs: seq<DevVal>, name: string, create: bool, verify: bool, accessible: bool,
      worlds: nat -> World): seq<DevVal>
  {
    var us := FoundVals(vs, name, create, accessible);
    var i := PlaceOf(us, name);
    if !verify || i == |us| then us else VerifiedVals(us, i, worlds)
  }

  /** Whether it returns a device. */
  ghost predicate Gets(vs: seq<DevVal>, name: string, create: bool, verify: bool, accessible: bool,
      worlds: nat -> World)
  {
    var us := FoundVals(vs, name, create, accessible);
    var i := PlaceOf(us, name);
    i < |us| && (verify ==> VerifiedVal(us[i], worlds(0)).Some?)
  }

  // ---------- what the sweep leaves ----------

  /** Every device that is verified or no look-alike is still there, unchanged. */
  lemma {:induction false} SweptSpares(us: seq<DevVal>, v: DevVal, worlds: nat -> World, u: DevVal)
    requires u in us && Spared(v, u)
    ensures u in Swept(us, v, worlds)
  {
    hide Spared, Reexamined;
    var k := |us| - 1;
    if u in us[..k] { SweptSpares(us[..k], v, worlds, u); }
  }

  /** ... and of the others only what was verified meanwhile, under the same name and priority. */
  lemma {:induction false} SweptFrom(us: seq<DevVal>, v: DevVal, worlds: nat -> World, u: DevVal)
    requires u in Swept(us, v, worlds)
    ensures Spared(v, u) && exists k :: 0 <= k < |us| && us[k].name == u.name && us[k].pri == u.pri
    ensures u.verified || u in us
  {
    var k := |us| - 1;
    ReexaminedIs(us[k], worlds(k));
    hide VerifiedVal, AlikeVal, Reexamined;
    if u in Swept(us[..k], v, worlds) {
      SweptFrom(us[..k], v, worlds, u);
      var j :| 0 <= j < |us[..k]| && us[..k][j].name == u.name && us[..k][j].pri == u.pri;
      assert us[j] == us[..k][j];
    } else {
      assert us[k].name == u.name && us[k].pri == u.pri;
    }
  }

  /** One more device swept. */
  lemma SweptNext(us: seq<DevVal>, v: DevVal, worlds: nat -> World, n: nat)
    requires n < |us|
    ensures Swept(us[..n + 1], v, worlds) ==
      Swept(us[..n], v, worlds) + if Spared(v, us[n]) then [us[n]] else Reexamined(us[n], worlds(n))
  {
    hide Spared, Reexamined;
    assert us[..n + 1][..n] == us[..n];
  }

  lemma ReexaminedIs(u: DevVal, w: World)
    ensures forall x :: x in Reexamined(u, w) ==> x.verified && x.name == u.name && x.pri == u.pri
  {
  }

  /** Nothing happens where there is nothing to sweep. */
  lemma {:induction false} SweptKeepsAll(us: seq<DevVal>, v: DevVal, worlds: nat -> World)
    requires forall i :: 0 <= i < |us| ==> Spared(v, us[i])
    ensures Swept(us, v, worlds) == us
  {
    if us != [] {
      var k := |us| - 1;
      SweptKeepsAll(us[..k], v, worlds);
      assert us[..k] + [us[k]] == us;
    }
  }

  // ---------- what blkid_get_dev() leaves ----------

  /** The device returned: the one that was there, or a new one, as verification leaves it. */
  ghost function GotVal(vs: seq<DevVal>, name: string, create: bool, verify: bool, accessible: bool,
      worlds: nat -> World): (v: DevVal)
    requires Gets(vs, name, create, verify, accessible, worlds)
    ensures v.name == name
  {
    var us := FoundVals(vs, name, create, accessible);
    var i := PlaceOf(us, name);
    if verify then VerifiedVal(us[i], worlds(0)).value else us[i]
  }

  /** The device returned is there afterwards; without one no device has the name. */
  lemma GotIsThere(vs: seq<DevVal>, name: string, create: bool, verify: bool, accessible: bool, worlds: nat -> World)
    requires OneName(vs)
    ensures var r := GotVals(vs, name, create, verify, accessible, worlds);
      if Gets(vs, name, create, verify, accessible, worlds)
        then GotVal(vs, name, create, verify, accessible, worlds) in r else forall u :: u in r ==> u.name != name
  {
    hide VerifiedVal;
    var us := FoundVals(vs, name, create, accessible);
    var i := PlaceOf(us, name);
    FoundOneName(vs, name, create, accessible);
    if i < |us| && verify {
      var x := VerifiedVal(us[i], worlds(0));
      if x.None? {
        assert forall u :: u in Removed(us, i) ==> u.name != name;
      } else {
        var now := us[i := x.value];
        assert now[i] == x.value && x.value in now;
        if x.value.verified { SweptSpares(now, x.value, Later(worlds), x.value); }
      }
    }
  }

  lemma FoundOneName(vs: seq<DevVal>, name: string, create: bool, accessible: bool)
    requires OneName(vs)
    ensures OneName(FoundVals(vs, name, create, accessible))
  {
  }

  /** Every other device stays as it was, unless a verified device is returned that it looks like without being
      verified itself. */
  lemma OthersStay(vs: seq<DevVal>, name: string, create: bool, verify: bool, accessible: bool, worlds: nat -> World,
      u: DevVal)
    requires u in vs && u.name != name
    requires var got := Gets(vs, name, create, verify, accessible, worlds);
      verify && got ==> var v := GotVal(vs, name, create, verify, accessible, worlds); v.verified ==> Spared(v, u)
    ensures u in GotVals(vs, name, create, verify, accessible, worlds)
  {
    hide VerifiedVal, Spared;
    var us := FoundVals(vs, name, create, accessible);
    var i := PlaceOf(us, name);
    assert u in us;
    var k :| 0 <= k < |us| && us[k] == u;
    if i < |us| && verify {
      var x := VerifiedVal(us[i], worlds(0));
      if x.None? {
        assert Removed(us, i)[if k < i then k else k - 1] == u;
      } else {
        var now := us[i := x.value];
        assert now[k] == u;
        if x.value.verified { SweptSpares(now, x.value, Later(worlds), u); }
      }
    }
  }

  /** After a verified device is returned, every unverified one differs from it in type, label or UUID; and no device
      has come from anywhere else. */
  lemma LookAlikesGone(vs: seq<DevVal>, name: string, create: bool, accessible: bool, worlds: nat -> World, u: DevVal)
    requires Gets(vs, name, create, true, accessible, worlds)
    requires GotVal(vs, name, create, true, accessible, worlds).verified
    requires u in GotVals(vs, name, create, true, accessible, worlds)
    ensures Spared(GotVal(vs, name, create, true, accessible, worlds), u)
    ensures u.name == name || exists t :: t in vs && t.name == u.name && t.pri == u.pri
  {
    hide VerifiedVal, Spared;
    var us := FoundVals(vs, name, create, accessible);
    var i := PlaceOf(us, name);
    var x := VerifiedVal(us[i], worlds(0));
    var now := us[i := x.value];
    SweptFrom(now, x.value, Later(worlds), u);
    var k :| 0 <= k < |now| && now[k].name == u.name && now[k].pri == u.pri;
    assert GotVal(vs, name, create, true, accessible, worlds).name == name;
    if k != i && k < |vs| { assert vs[k] in vs && vs[k] == now[k]; }
  }
}
