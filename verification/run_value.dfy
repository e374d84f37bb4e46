/** The cache's calls on values: what each does to the devices of a cache, and so what a sequence of calls does. */
module RunValue {
  import opened Wrappers
  import opened TagIndex
  import opened TagCache
  import opened DevValue
  import opened DevVerify
  import opened GetValue

  /** One call, naming its device. Calls on devices that are not in the cache do nothing. */
  datatype Op =
    | OpSetTag(dev: string, name: string, value: Option<string>, vlength: nat)
    | OpFreeTag(dev: string, name: string)
    | OpFreeDev(dev: string)
    | OpVerify(dev: string, world: World)
    | OpNote(dev: string, devno: nat, pri: int, time: int, utime: int, removable: bool)
    | OpGetDev(dev: string, create: bool, verify: bool, accessible: bool, worlds: nat -> World)

  /** blkid_free_tag() on a TYPE, LABEL or UUID tag breaks the shortcut, so a run may use it on other tags only. */
  predicate Allowed(op: Op) {
    op.OpFreeTag? ==> op.name != "TYPE" && op.name != "LABEL" && op.name != "UUID"
  }

  /** What a call leaves of the device it is made on. */
  ghost function Changed(v: DevVal, op: Op): Option<DevVal> {
    if op.OpSetTag? then Some(v.(pairs := SetPair(v.pairs, op.name, Stored(op.value, op.vlength))))
    else if op.OpFreeTag? then Some(v.(pairs := SetPair(v.pairs, op.name, None)))
    else if op.OpNote? then
      Some(v.(devno := op.devno, pri := op.pri, time := op.time, utime := op.utime, removable := op.removable))
    else if op.OpVerify? then VerifiedVal(v, op.world)
    else None
  }

  /** The devices after a call. */
  ghost function After(vs: seq<DevVal>, op: Op): seq<DevVal> {
    if op.OpGetDev? then GotVals(vs, op.dev, op.create, op.verify, op.accessible, op.worlds)
    else
      var i := PlaceOf(vs, op.dev);
      if i == |vs| then vs else Put(vs, i, Changed(vs[i], op))
  }

  /** The i-th device replaced, or removed. */
  function Put(vs: seq<DevVal>, i: nat, x: Option<DevVal>): seq<DevVal>
    requires i < |vs|
  {
    if x.Some? then vs[i := x.value] else Removed(vs, i)
  }

  /** The devices after a sequence of calls. */
  ghost function AfterAll(vs: seq<DevVal>, ops: seq<Op>): seq<DevVal> {
    if ops == [] then vs else After(AfterAll(vs, ops[..|ops| - 1]), ops[|ops| - 1])
  }

  lemma AfterNext(vs: seq<DevVal>, ops: seq<Op>, i: nat)
    requires i < |ops|
    ensures AfterAll(vs, ops[..i + 1]) == After(AfterAll(vs, ops[..i]), ops[i])
  {
    hide After;
    assert ops[..i + 1][..i] == ops[..i];
  }

  lemma {:induction false} AfterParts(vs: seq<DevVal>, a: seq<Op>, b: seq<Op>)
    ensures AfterAll(vs, a + b) == AfterAll(AfterAll(vs, a), b)
  {
    hide After;
    if b == [] {
      assert a + b == a;
    } else {
      var k := |b| - 1;
      assert (a + b)[..|a + b| - 1] == a + b[..k] && (a + b)[|a + b| - 1] == b[k];
      AfterParts(vs, a, b[..k]);
    }
  }
}
