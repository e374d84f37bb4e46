/** The prober's buffer cache (probe.c): blkid_probe_get_buffer() on a probe and its clones over one unchanging
    device. */
module ProbeBuffer {
  import opened Wrappers

  type Byte = bv8
  /** struct blkid_bufinfo: `data` was read at `off` from the start of the probing area. */
  datatype Buf = Buf(off: int, data: seq<Byte>)

  /** What reading `len` bytes at place `at` of the device gives; a short read is no read. */
  function DeviceBytes(dev: seq<Byte>, at: int, len: nat): Option<seq<Byte>> {
    if at < 0 then None
    else if len == 0 then Some([])
    else if at + len <= |dev| then Some(dev[at..at + len])
    else None
  }

  /** A request, and the place of a buffer that was read for one. */
  datatype Request = Request(off: int, len: nat)

  /** The reuse test. */
  predicate Covers(x: Request, off: int, len: nat) {
    x.off <= off && off + len <= x.off + x.len
  }

  function Place(b: Buf): Request {
    Request(b.off, |b.data|)
  }

  /** `off ? bf->data + (off - bf->off) : bf->data` */
  function View(b: Buf, off: int, len: nat): seq<Byte>
    requires Covers(Place(b), off, len)
  {
    var k := if off != 0 then off - b.off else 0;
    b.data[k..k + len]
  }

  /** A buffer holds what the device holds there. */
  ghost predicate Faithful(b: Buf, dev: seq<Byte>, base: int) {
    DeviceBytes(dev, base + b.off, |b.data|) == Some(b.data)
  }

  /** A view of a faithful buffer shows the device's bytes, except at offset 0, where it shows the buffer's first. */
  lemma ViewFaithful(b: Buf, dev: seq<Byte>, base: int, off: int, len: nat)
    requires Faithful(b, dev, base) && Covers(Place(b), off, len)
    ensures DeviceBytes(dev, base + if off != 0 then off else b.off, len) == Some(View(b, off, len))
  {
    var k := if off != 0 then off - b.off else 0;
    if len > 0 {
      assert b.data == dev[base + b.off..base + b.off + |b.data|];
      SliceOfSlice(dev, base + b.off, |b.data|, k, len);
    } else {
      assert b.data[k..k] == [];
    }
  }

  lemma SliceOfSlice(s: seq<Byte>, at: nat, n: nat, k: nat, len: nat)
    requires at + n <= |s| && k + len <= n
    ensures s[at..at + n][k..k + len] == s[at + k..at + k + len]
  {
    var a, b := s[at..at + n][k..k + len], s[at + k..at + k + len];
    assert |a| == |b| && forall i :: 0 <= i < len ==> a[i] == b[i];
  }

  // ---------- which bytes a request is answered with ----------

  /** The buffer that is reused: the first that covers the request, or the number of buffers when none does. */
  function FirstCover(places: seq<Request>, off: int, len: nat): (k: nat)
    ensures k <= |places| && (k < |places| ==> Covers(places[k], off, len))
    ensures forall j :: 0 <= j < k ==> !Covers(places[j], off, len)
  {
    if places == [] || Covers(places[0], off, len) then 0
    else
      var k := FirstCover(places[1..], off, len);
      assert forall j :: 1 <= j < k + 1 ==> places[j] == places[1..][j - 1];
      k + 1
  }

  /** The offset whose bytes the caller is given. */
  function ShownAt(places: seq<Request>, off: int, len: nat): int {
    var k := FirstCover(places, off, len);
    if off == 0 && k < |places| then places[k].off else off
  }

  predicate Readable(x: Request, base: int, n: nat) {
    base + x.off >= 0 && (x.len == 0 || base + x.off + x.len <= n)
  }

  /** The buffers after a request, on a device of `n` bytes. */
  function PlacesThen(places: seq<Request>, base: int, n: nat, x: Request): seq<Request> {
    if FirstCover(places, x.off, x.len) < |places| || !Readable(x, base, n) then places else places + [x]
  }

  /** The answer is the device's bytes, whatever device of `n` bytes it is. */
  ghost predicate AlwaysRight(places: seq<Request>, base: int, n: nat, off: int, len: nat) {
    forall dev: seq<Byte> | |dev| == n ::
      DeviceBytes(dev, base + ShownAt(places, off, len), len) == DeviceBytes(dev, base + off, len)
  }

  /** A buffer that begins before the area is the first to cover a request for the area's first bytes. */
  predicate Misled(places: seq<Request>, off: int, len: nat) {
    off == 0 < len && FirstCover(places, 0, len) < |places| && places[FirstCover(places, 0, len)].off < 0
  }

  /** That is the one way to get wrong bytes: every other request is answered rightly on every device, and this one
      is not. */
  lemma AlwaysRightIff(places: seq<Request>, base: int, n: nat, off: int, len: nat)
    requires forall x :: x in places ==> Readable(x, base, n)
    ensures AlwaysRight(places, base, n, off, len) <==> !Misled(places, off, len)
  {
    var k := FirstCover(places, off, len);
    if off == 0 && k < |places| {
      assert Readable(places[k], base, n);
      if places[k].off < 0 < len {
        var dev: seq<Byte> := seq(n, i => if i == base then 1 else 0);
        assert dev[base..base + len][0] == 1 && dev[base + places[k].off..base + places[k].off + len][0] == 0;
        assert DeviceBytes(dev, base + ShownAt(places, 0, len), len) != DeviceBytes(dev, base, len);
      }
    }
  }

  lemma InAreaRight(places: seq<Request>, off: int, len: nat)
    requires off >= 0 && forall x :: x in places ==> x.off >= 0
    ensures ShownAt(places, off, len) == off
  {
    var k := FirstCover(places, off, len);
    assert k < |places| ==> places[k] in places;
  }

  class Probe {
    const parent: Probe?
    const devno: int
    /** the device behind the probe's file descriptor */
    const dev: seq<Byte>
    /** how many clonings away the first probe is */
    ghost const depth: nat
    var off: int
    var size: int
    var buffers: seq<Buf>

    /** blkid_probe_set_device() */
    constructor (dev: seq<Byte>, devno: int, off: int, size: int)
      ensures this.dev == dev && this.devno == devno && this.off == off && this.size == size
      ensures parent == null && buffers == []
    {
      this.dev, this.devno, this.off, this.size := dev, devno, off, size;
      parent, depth, buffers := null, 0, [];
    }

    /** blkid_clone_probe() */
    constructor Clone(parent: Probe)
      ensures this.parent == parent && dev == parent.dev && devno == parent.devno && depth == parent.depth + 1
      ensures off == parent.off && size == parent.size && buffers == []
    {
      this.parent, depth := parent, parent.depth + 1;
      dev, devno, off, size := parent.dev, parent.devno, parent.off, parent.size;
      buffers := [];
    }

    ghost predicate Valid()
      reads this
    {
      && (forall b :: b in buffers ==> Faithful(b, dev, off))
      && (parent != null && parent.devno == devno ==> parent.dev == dev && parent.depth < depth)
    }

    ghost function Places(): (xs: seq<Request>)
      reads this
      ensures |xs| == |buffers| && forall i :: 0 <= i < |xs| ==> xs[i] == Place(buffers[i])
    {
      seq(|buffers|, i requires 0 <= i < |buffers| reads this => Place(buffers[i]))
    }

    /** The request is left to the parent, whose area takes this one in. */
    ghost predicate Delegates()
      reads this, parent
    {
      parent != null && parent.devno == devno && parent.off <= off && parent.off + parent.size >= off + size
    }

    /** No buffer begins before the probing area. */
    ghost predicate InArea()
      reads this
    {
      forall b :: b in buffers ==> b.off >= 0
    }
  }

  /** A probe and its clones. */
  ghost predicate Family(fam: set<Probe>)
    reads fam
  {
    forall p: Probe :: p in fam ==> p.Valid() && (p.parent != null ==> p.parent in fam)
  }

  ghost predicate AllInArea(fam: set<Probe>)
    reads fam
  {
    forall p: Probe :: p in fam ==> p.InArea()
  }

  /** The probe whose buffers answer in the end. */
  ghost function Serving(pr: Probe, fam: set<Probe>): (q: Probe)
    requires pr in fam && Family(fam)
    reads fam
    decreases pr.depth
    ensures q in fam && q.dev == pr.dev && q.off <= pr.off
  {
    assert pr.Valid();
    if pr.Delegates() then Serving(pr.parent, fam) else pr
  }

  /** blkid_probe_get_buffer(): nothing from an empty area, and else what the device holds at the offset shown, counted
      from the area of the probe that serves. Inside the area that is the offset asked for. */
  method GetBuffer(pr: Probe, off: int, len: nat, ghost fam: set<Probe>) returns (r: Option<seq<Byte>>)
    requires pr in fam && Family(fam)
    modifies fam`buffers
    decreases pr.depth
    ensures Family(fam)
    ensures var q := old(Serving(pr, fam));
      var asked := pr.off + off - q.off;
      && r == (if pr.size <= 0 then None
               else DeviceBytes(pr.dev, q.off + ShownAt(old(q.Places()), asked, len), len))
      && q.Places() == (if pr.size <= 0 then old(q.Places())
                        else PlacesThen(old(q.Places()), q.off, |q.dev|, Request(asked, len)))
      && forall p: Probe :: p in fam && p != q ==> p.buffers == old(p.buffers)
    ensures off >= 0 && old(AllInArea(fam)) ==> AllInArea(fam)
    ensures off >= 0 && old(AllInArea(fam)) ==>
      r == if pr.size <= 0 then None else DeviceBytes(pr.dev, pr.off + off, len)
  {
    hide DeviceBytes, ShownAt, PlacesThen, Probe.Places;
    if pr.size <= 0 {
      return None;
    }
    if pr.parent != null && pr.parent.devno == pr.devno && pr.parent.off <= pr.off
      && pr.parent.off + pr.parent.size >= pr.off + pr.size {
      assert pr.Valid();
      r := GetBuffer(pr.parent, pr.off + off - pr.parent.off, len, fam);
      return;
    }
    r := OwnBuffer(pr, off, len, fam);
    if off >= 0 && old(AllInArea(fam)) {
      InAreaRight(old(pr.Places()), off, len);
    }
  }

  /** The rest of it: the search of the probe's own buffers, the reading and the view. */
  method OwnBuffer(pr: Probe, off: int, len: nat, ghost fam: set<Probe>) returns (r: Option<seq<Byte>>)
    requires pr in fam && Family(fam)
    modifies pr`buffers
    ensures Family(fam)
    ensures r == DeviceBytes(pr.dev, pr.off + ShownAt(old(pr.Places()), off, len), len)
    ensures pr.Places() == PlacesThen(old(pr.Places()), pr.off, |pr.dev|, Request(off, len))
    ensures off >= 0 && old(pr.InArea()) ==> pr.InArea()
  {
    ghost var places := pr.Places();
    var k := 0;
    while k < |pr.buffers| && !Covers(Place(pr.buffers[k]), off, len)
      invariant k <= |pr.buffers|
      invariant forall j :: 0 <= j < k ==> !Covers(places[j], off, len)
    {
      k := k + 1;
    }
    assert FirstCover(places, off, len) == k;
    assert forall p: Probe :: p in fam ==> p.Valid();
    if k == |pr.buffers| {
      var read := DeviceBytes(pr.dev, pr.off + off, len);
      if read.None? {
        return None;
      }
      pr.buffers := pr.buffers + [Buf(off, read.value)];
    }
    assert pr.buffers[k] in pr.buffers && pr.Valid();
    ViewFaithful(pr.buffers[k], pr.dev, pr.off, off, len);
    r := Some(View(pr.buffers[k], off, len));
  }

  /** blkid_probe_reset_buffer(), which is also what blkid_probe_step_back() does to the buffers. */
  method ResetBuffer(pr: Probe, ghost fam: set<Probe>)
    requires pr in fam && Family(fam)
    modifies pr`buffers
    ensures Family(fam) && pr.buffers == [] && (old(AllInArea(fam)) ==> AllInArea(fam))
  {
    assert forall p: Probe :: p in fam ==> p.Valid();
    while pr.buffers != []
      invariant forall b :: b in pr.buffers ==> b in old(pr.buffers)
      decreases |pr.buffers|
    {
      pr.buffers := pr.buffers[1..];
    }
  }

  /** blkid_probe_set_dimension() */
  method SetDimension(pr: Probe, off: int, size: int, ghost fam: set<Probe>)
    requires pr in fam && Family(fam)
    modifies pr`off, pr`size, pr`buffers
    ensures Family(fam) && pr.off == off && pr.size == size && pr.buffers == []
    ensures old(AllInArea(fam)) ==> AllInArea(fam)
  {
    ResetBuffer(pr, fam);
    assert forall p: Probe :: p in fam ==> p.Valid();
    pr.off, pr.size := off, size;
  }

  // ---------- requests at any offset ----------

  /** The buffers of a probe after these requests, the last of which came last. */
  function PlacesAfter(base: int, n: nat, xs: seq<Request>): (places: seq<Request>)
    ensures forall x :: x in places ==> Readable(x, base, n) && x in xs
  {
    if xs == [] then [] else PlacesThen(PlacesAfter(base, n, xs[..|xs| - 1]), base, n, xs[|xs| - 1])
  }

  /** What the last of these requests is answered with. */
  function AnswerOf(dev: seq<Byte>, base: int, before: seq<Request>, x: Request): Option<seq<Byte>> {
    DeviceBytes(dev, base + ShownAt(PlacesAfter(base, |dev|, before), x.off, x.len), x.len)
  }

  /** Requests at whatever offsets on a probe without buffers: what each is answered with. */
  method Requests(pr: Probe, xs: seq<Request>) returns (answers: seq<Option<seq<Byte>>>)
    requires pr.parent == null && pr.buffers == [] && pr.size > 0
    modifies pr`buffers
    ensures |answers| == |xs|
    ensures forall i :: 0 <= i < |xs| ==> answers[i] == AnswerOf(pr.dev, pr.off, xs[..i], xs[i])
  {
    answers := [];
    ghost var fam := {pr};
    hide ShownAt, PlacesThen, DeviceBytes, AnswerOf, PlacesAfter;
    NoPlaces(pr.off, |pr.dev|);
    for i := 0 to |xs|
      invariant Family(fam) && |answers| == i
      invariant pr.Places() == PlacesAfter(pr.off, |pr.dev|, xs[..i])
      invariant forall j :: 0 <= j < i ==> answers[j] == AnswerOf(pr.dev, pr.off, xs[..j], xs[j])
    {
      PlacesNext(pr.off, |pr.dev|, xs, i);
      AnswerIs(pr.dev, pr.off, xs[..i], xs[i]);
      var r := GetBuffer(pr, xs[i].off, xs[i].len, fam);
      answers := answers + [r];
    }
  }

  lemma NoPlaces(base: int, n: nat)
    ensures PlacesAfter(base, n, []) == []
  {
  }

  lemma PlacesNext(base: int, n: nat, xs: seq<Request>, i: nat)
    requires i < |xs|
    ensures PlacesAfter(base, n, xs[..i + 1]) == PlacesThen(PlacesAfter(base, n, xs[..i]), base, n, xs[i])
  {
    hide PlacesThen;
    assert xs[..i + 1][..i] == xs[..i];
  }

  lemma AnswerIs(dev: seq<Byte>, base: int, before: seq<Request>, x: Request)
    ensures AnswerOf(dev, base, before, x)
      == DeviceBytes(dev, base + ShownAt(PlacesAfter(base, |dev|, before), x.off, x.len), x.len)
  {
  }

  /** A run of requests is answered rightly on every device exactly when none of them is misled by those before. */
  lemma RequestsRightIff(base: int, n: nat, xs: seq<Request>)
    ensures (forall i :: 0 <= i < |xs| ==> AlwaysRight(PlacesAfter(base, n, xs[..i]), base, n, xs[i].off, xs[i].len))
      <==> (forall i :: 0 <= i < |xs| ==> !Misled(PlacesAfter(base, n, xs[..i]), xs[i].off, xs[i].len))
  {
    forall i | 0 <= i < |xs|
      ensures AlwaysRight(PlacesAfter(base, n, xs[..i]), base, n, xs[i].off, xs[i].len) <==>
        !Misled(PlacesAfter(base, n, xs[..i]), xs[i].off, xs[i].len)
    {
      AlwaysRightIff(PlacesAfter(base, n, xs[..i]), base, n, xs[i].off, xs[i].len);
    }
  }

  /** Two bytes from one before the area, then the first byte of the area, which comes out as the byte before it. */
  method MisleadingRun() returns (before: Option<seq<Byte>>, first: Option<seq<Byte>>)
    ensures before == Some([1, 2]) && first == Some([1])
    ensures DeviceBytes([1, 2, 3], 1, 1) == Some([2])
  {
    var pr := new Probe([1, 2, 3], 0, 1, 2);
    var xs := [Request(-1, 2), Request(0, 1)];
    var answers := Requests(pr, xs);
    assert xs[..0] == [] && xs[..1] == [Request(-1, 2)];
    MisleadingAnswers();
    before, first := answers[0], answers[1];
  }

  lemma MisleadingAnswers()
    ensures AnswerOf([1, 2, 3], 1, [], Request(-1, 2)) == Some([1, 2])
    ensures AnswerOf([1, 2, 3], 1, [Request(-1, 2)], Request(0, 1)) == Some([1])
    ensures DeviceBytes([1, 2, 3], 1, 1) == Some([2])
  {
    var dev: seq<Byte> := [1, 2, 3];
    assert dev[0..2] == [1, 2] && dev[0..1] == [1] && dev[1..2] == [2];
    assert ShownAt([], -1, 2) == -1;
    assert [Request(-1, 2)][..0] == [];
    assert PlacesAfter(1, 3, [Request(-1, 2)]) == [Request(-1, 2)];
    assert ShownAt([Request(-1, 2)], 0, 1) == -1;
  }

  // ---------- histories ----------

  /** A call on the probe with that number; a clone gets the next number. Step back is modelled by its reset. */
  datatype Op = Get(p: nat, off: nat, len: nat) | Dimension(p: nat, start: int,
    size: int) | StepBack(p: nat) | Clone(p: nat)

  /** What a prober without buffers would know: the device and the area. */
  datatype Area = Area(dev: seq<Byte>, off: int, size: int)

  function DirectStep(areas: seq<Area>, op: Op): seq<Area> {
    if op.p >= |areas| then areas
    else match op
      case Get(_, _, _) => areas
      case Dimension(p, start, size) => areas[p := areas[p].(off := start, size := size)]
      case StepBack(_) => areas
      case Clone(p) => areas + [areas[p]]
  }

  function DirectAnswer(areas: seq<Area>, op: Op): seq<Option<seq<Byte>>> {
    if op.Get? && op.p < |areas| then
      var a := areas[op.p];
      [if a.size <= 0 then None else DeviceBytes(a.dev, a.off + op.off, op.len)]
    else []
  }

  /** The answers of a history when every request reads the device directly. */
  function Direct(areas: seq<Area>, ops: seq<Op>): seq<Option<seq<Byte>>>
    decreases |ops|
  {
    if ops == [] then [] else DirectAnswer(areas, ops[0]) + Direct(DirectStep(areas, ops[0]), ops[1..])
  }

  /** The probes of a history: one family, in their areas, seen as `areas`. */
  ghost predicate Seen(ps: seq<Probe>, areas: seq<Area>)
    reads set p | p in ps
  {
    && |areas| == |ps|
    && (forall i :: 0 <= i < |ps| ==> areas[i] == Area(ps[i].dev, ps[i].off, ps[i].size))
    && (forall i, j :: 0 <= i < j < |ps| ==> ps[i] != ps[j])
    && Family(set p | p in ps) && AllInArea(set p | p in ps)
  }

  /** One call. */
  method Step(ps: seq<Probe>, op: Op, ghost areas: seq<Area>) returns (qs: seq<Probe>, answer: seq<Option<seq<Byte>>>)
    requires Seen(ps, areas)
    modifies set p | p in ps
    ensures Seen(qs, DirectStep(areas, op)) && answer == DirectAnswer(areas, op)
    ensures ps <= qs && forall i :: |ps| <= i < |qs| ==> fresh(qs[i])
  {
    qs, answer := ps, [];
    if op.p >= |ps| {
      return;
    }
    ghost var fam := set p | p in ps;
    match op
    case Get(p, off, len) =>
      var r := GetBuffer(ps[p], off, len, fam);
      answer := [r];
    case Dimension(p, start, size) => SetDimension(ps[p], start, size, fam);
    case StepBack(p) => ResetBuffer(ps[p], fam);
    case Clone(p) => qs := AddClone(ps, p, areas);
  }

  method AddClone(ps: seq<Probe>, p: nat, ghost areas: seq<Area>) returns (qs: seq<Probe>)
    requires Seen(ps, areas) && p < |ps|
    ensures Seen(qs, areas + [areas[p]]) && ps <= qs && |qs| == |ps| + 1 && fresh(qs[|ps|])
  {
    var c := new Probe.Clone(ps[p]);
    qs := ps + [c];
    ghost var fam := set q | q in ps;
    assert forall q: Probe :: q in (set x | x in qs) ==> q in fam || q == c;
  }

  /** For every history over a probe and its clones, the buffers are invisible. */
  method History(p0: Probe, ops: seq<Op>) returns (answers: seq<Option<seq<Byte>>>)
    requires p0.parent == null && p0.buffers == []
    modifies p0
    ensures answers == Direct([Area(p0.dev, old(p0.off), old(p0.size))], ops)
  {
    hide Direct, DirectStep, DirectAnswer, Seen;
    var ps := [p0];
    ghost var areas := [Area(p0.dev, p0.off, p0.size)];
    ghost var all := Direct(areas, ops);
    answers := [];
    FirstSeen(p0);
    assert ops[0..] == ops;
    for i := 0 to |ops|
      invariant Seen(ps, areas) && |ps| > 0 && ps[0] == p0
      invariant forall k :: 1 <= k < |ps| ==> fresh(ps[k])
      invariant answers + Direct(areas, ops[i..]) == all
    {
      DirectNext(areas, ops, i);
      ghost var rest := Direct(DirectStep(areas, ops[i]), ops[i + 1..]);
      var answer;
      ps, answer := Step(ps, ops[i], areas);
      assert answers + (answer + rest) == (answers + answer) + rest;
      answers := answers + answer;
      areas := DirectStep(areas, ops[i]);
    }
    DirectDone(areas, ops);
  }

  lemma FirstSeen(p0: Probe)
    requires p0.parent == null && p0.buffers == []
    ensures Seen([p0], [Area(p0.dev, p0.off, p0.size)])
  {
    assert (set q | q in [p0]) == {p0};
  }

  lemma DirectNext(areas: seq<Area>, ops: seq<Op>, i: nat)
    requires i < |ops|
    ensures Direct(areas, ops[i..]) == DirectAnswer(areas, ops[i]) + Direct(DirectStep(areas, ops[i]), ops[i + 1..])
  {
    hide DirectAnswer, DirectStep;
    assert ops[i..][0] == ops[i] && ops[i..][1..] == ops[i + 1..];
  }

  lemma DirectDone(areas: seq<Area>, ops: seq<Op>)
    ensures Direct(areas, ops[|ops|..]) == []
  {
  }
}
