/** The search for a device number below the device directories (devno.c): two stacks make it breadth-first. */
module DirScan {
  import opened Wrappers

  /** readdir()'s d_type, and what stat() and lstat() tell of an entry. */
  datatype DType = DtUnknown | DtBlk | DtLnk | DtDir | DtOther
  datatype Stat = NoStat | Block(rdev: int) | Directory | OtherMode

  datatype Entry = Entry(name: string, dtype: DType, stat: Stat, lstatDir: bool, sub: Dir)

  /** A directory that cannot be opened holds nothing to read. */
  datatype Dir = Unreadable | Dir(entries: seq<Entry>)

  /** A directory on a list: its name, its contents, and where it is in the tree. */
  datatype Item = Item(name: string, dir: Dir, place: seq<nat>)

  function Entries(d: Dir): seq<Entry> { if d.Unreadable? then [] else d.entries }

  /** Entries of other types, `.` and `..`, and those stat() cannot tell about, are passed over. */
  predicate Seen(e: Entry) {
    !e.dtype.DtOther? && e.name != "." && e.name != ".." && !e.stat.NoStat?
  }

  predicate Match(e: Entry, devno: int) { Seen(e) && e.stat == Block(devno) }

  /** Subdirectories worth searching: no symlinks, nothing hidden, not the shared memory directory. */
  predicate Eligible(e: Entry) {
    && Seen(e) && e.stat.Directory? && !e.dtype.DtLnk? && (e.dtype.DtUnknown? ==> e.lstatDir)
    && !(e.name != "" && e.name[0] == '.') && !(e.dtype.DtDir? && e.name == "shm")
  }

  function Child(it: Item, i: nat): Item
    requires i < |Entries(it.dir)|
  {
    var e := Entries(it.dir)[i];
    Item(it.name + "/" + e.name, e.sub, it.place + [i])
  }

  predicate HasMatch(it: Item, devno: int) {
    exists i :: 0 <= i < |Entries(it.dir)| && Match(Entries(it.dir)[i], devno)
  }

  /** The subdirectories from entry `i` on, in the order of the directory. */
  function Kids(it: Item, i: nat): seq<Item>
    requires i <= |Entries(it.dir)|
    decreases |Entries(it.dir)| - i
  {
    if i == |Entries(it.dir)| then []
    else (if Eligible(Entries(it.dir)[i]) then [Child(it, i)] else []) + Kids(it, i + 1)
  }

  function Reverse<T>(s: seq<T>): (r: seq<T>)
    ensures |r| == |s| && forall i :: 0 <= i < |s| ==> r[i] == s[|s| - 1 - i]
  {
    if s == [] then [] else Reverse(s[1..]) + [s[0]]
  }

  // ---------- the size of what is left ----------

  function DirSize(d: Dir): (n: nat)
    ensures n > 0
  {
    1 + if d.Unreadable? then 0 else EntriesSize(d.entries)
  }

  function EntriesSize(es: seq<Entry>): nat {
    if es == [] then 0 else DirSize(es[0].sub) + EntriesSize(es[1..])
  }

  function Size(its: seq<Item>): nat {
    if its == [] then 0 else DirSize(its[0].dir) + Size(its[1..])
  }

  lemma {:induction false} SizeParts(a: seq<Item>, b: seq<Item>)
    ensures Size(a + b) == Size(a) + Size(b)
  {
    if a == [] {
      assert a + b == b;
    } else {
      assert (a + b)[1..] == a[1..] + b;
      SizeParts(a[1..], b);
    }
  }

  lemma {:induction false} SizeReverse(a: seq<Item>)
    ensures Size(Reverse(a)) == Size(a)
  {
    if a != [] {
      SizeReverse(a[1..]);
      SizeParts(Reverse(a[1..]), [a[0]]);
      assert [a[0]][1..] == [];
    }
  }

  lemma {:induction false} KidsSize(it: Item, i: nat)
    requires i <= |Entries(it.dir)|
    ensures Size(Kids(it, i)) <= EntriesSize(Entries(it.dir)[i..])
    decreases |Entries(it.dir)| - i
  {
    var es := Entries(it.dir);
    if i < |es| {
      KidsSize(it, i + 1);
      assert es[i..][1..] == es[i + 1..] && es[i..][0] == es[i];
      if Eligible(es[i]) {
        SizeParts([Child(it, i)], Kids(it, i + 1));
        assert [Child(it, i)][1..] == [];
      } else {
        assert [] + Kids(it, i + 1) == Kids(it, i + 1);
      }
    }
  }

  lemma KidsSmaller(it: Item)
    ensures Size(Reverse(Kids(it, 0))) < DirSize(it.dir)
  {
    KidsSize(it, 0);
    SizeReverse(Kids(it, 0));
    assert Entries(it.dir)[0..] == Entries(it.dir);
  }

  // ---------- levels ----------

  function AllKids(its: seq<Item>): seq<Item> {
    if its == [] then [] else Kids(its[0], 0) + AllKids(its[1..])
  }

  /** The next level, in the order in which the stack will give it. */
  function NextLevel(its: seq<Item>): seq<Item> { Reverse(AllKids(its)) }

  function Level(its: seq<Item>, n: nat): seq<Item> {
    if n == 0 then its else NextLevel(Level(its, n - 1))
  }

  // ---------- what the levels are ----------

  /** `it` is `n` eligible subdirectories below one of `roots`. */
  ghost predicate Below(roots: seq<Item>, it: Item, n: nat)
    decreases n
  {
    if n == 0 then it in roots else exists p: Item, i: nat :: Below(roots, p, n - 1) && ChildAt(p, i, it)
  }

  predicate ChildAt(p: Item, i: nat, it: Item) {
    i < |Entries(p.dir)| && Eligible(Entries(p.dir)[i]) && it == Child(p, i)
  }

  lemma {:induction false} KidIff(p: Item, i: nat, it: Item)
    requires i <= |Entries(p.dir)|
    ensures it in Kids(p, i) <==> exists k: nat :: i <= k && ChildAt(p, k, it)
    decreases |Entries(p.dir)| - i
  {
    if i < |Entries(p.dir)| {
      KidIff(p, i + 1, it);
      assert it in Kids(p, i) <==> ChildAt(p, i, it) || it in Kids(p, i + 1);
    }
  }

  lemma {:induction false} AllKidIff(its: seq<Item>, it: Item)
    ensures it in AllKids(its) <==> exists p: Item, i: nat :: p in its && ChildAt(p, i, it)
  {
    if its != [] {
      KidIff(its[0], 0, it);
      AllKidIff(its[1..], it);
      assert it in AllKids(its) <==> it in Kids(its[0], 0) || it in AllKids(its[1..]);
      assert forall p :: p in its <==> p == its[0] || p in its[1..];
    }
  }

  lemma ReverseKeeps<T>(s: seq<T>, x: T)
    ensures x in Reverse(s) <==> x in s
  {
    if x in s {
      var i :| 0 <= i < |s| && s[i] == x;
      assert Reverse(s)[|s| - 1 - i] == x;
    }
  }

  lemma NextIff(up: seq<Item>, it: Item)
    ensures it in NextLevel(up) <==> exists p: Item, i: nat :: p in up && ChildAt(p, i, it)
  {
    ReverseKeeps(AllKids(up), it);
    AllKidIff(up, it);
  }

  /** The levels hold exactly the directories reached through eligible subdirectories, by depth. */
  lemma {:induction false} LevelIff(roots: seq<Item>, n: nat, it: Item)
    ensures it in Level(roots, n) <==> Below(roots, it, n)
  {
    hide NextLevel, AllKids, ChildAt;
    if n > 0 {
      NextIff(Level(roots, n - 1), it);
      forall p: Item {:trigger Below(roots, p, n - 1)} ensures p in Level(roots, n - 1) <==> Below(roots, p, n - 1) {
        LevelIff(roots, n - 1, p);
      }
    }
  }

  // ---------- nothing twice ----------

  ghost predicate Apart(its: seq<Item>) { forall i, j :: 0 <= i < j < |its| ==> its[i].place != its[j].place }

  ghost predicate Deep(its: seq<Item>, d: nat) { forall i :: 0 <= i < |its| ==> |its[i].place| == d }

  /** The directory that `it` was found in, and which entry it was. */
  ghost predicate ComesOf(it: Item, p: Item, least: nat) {
    |it.place| > 0 && it.place[..|it.place| - 1] == p.place && it.place[|it.place| - 1] >= least
  }

  lemma {:induction false} KidsComeOf(p: Item, i: nat)
    requires i <= |Entries(p.dir)|
    ensures forall k :: 0 <= k < |Kids(p, i)| ==> ComesOf(Kids(p, i)[k], p, i)
    ensures Apart(Kids(p, i))
    decreases |Entries(p.dir)| - i
  {
    if i < |Entries(p.dir)| {
      KidsComeOf(p, i + 1);
      if Eligible(Entries(p.dir)[i]) {
        var rest := Kids(p, i + 1);
        assert Kids(p, i) == [Child(p, i)] + rest;
        forall k | 0 <= k < |rest| ensures rest[k].place != Child(p, i).place {
          assert ComesOf(rest[k], p, i + 1);
        }
      } else {
        assert Kids(p, i) == Kids(p, i + 1);
      }
    }
  }

  lemma {:induction false} AllKidsApart(its: seq<Item>, d: nat)
    requires Apart(its) && Deep(its, d)
    ensures Apart(AllKids(its)) && Deep(AllKids(its), d + 1)
    ensures forall k :: 0 <= k < |AllKids(its)| ==> exists p :: 0 <= p < |its| && ComesOf(AllKids(its)[k], its[p], 0)
  {
    if its != [] {
      var kids, rest := Kids(its[0], 0), AllKids(its[1..]);
      assert Apart(its[1..]) && Deep(its[1..], d);
      AllKidsApart(its[1..], d);
      KidsComeOf(its[0], 0);
      forall k | 0 <= k < |rest| ensures exists p :: 1 <= p < |its| && ComesOf(rest[k], its[p], 0) {
        var p :| 0 <= p < |its[1..]| && ComesOf(rest[k], its[1..][p], 0);
        assert its[1..][p] == its[p + 1];
      }
      forall j, k | 0 <= j < |kids| && 0 <= k < |rest| ensures kids[j].place != rest[k].place {
        assert ComesOf(kids[j], its[0], 0);
        var p :| 1 <= p < |its| && ComesOf(rest[k], its[p], 0);
      }
      assert AllKids(its) == kids + rest;
    }
  }

  lemma {:induction false} LevelApart(roots: seq<Item>, n: nat)
    requires Apart(roots) && Deep(roots, 1)
    ensures Apart(Level(roots, n)) && Deep(Level(roots, n), n + 1)
  {
    if n > 0 {
      LevelApart(roots, n - 1);
      AllKidsApart(Level(roots, n - 1), n);
    }
  }

  /** The first `n` levels, one after the other. */
  function Above(roots: seq<Item>, n: nat): seq<Item> {
    if n == 0 then [] else Above(roots, n - 1) + Level(roots, n - 1)
  }

  lemma {:induction false} AboveApart(roots: seq<Item>, n: nat)
    requires Apart(roots) && Deep(roots, 1)
    ensures Apart(Above(roots, n)) && forall i :: 0 <= i < |Above(roots, n)| ==> |Above(roots, n)[i].place| <= n
  {
    if n > 0 {
      AboveApart(roots, n - 1);
      LevelApart(roots, n - 1);
    }
  }

  // ---------- one directory ----------

  /** What a scan has to find in a directory. */
  ghost predicate Found(it: Item, devno: int, r: Option<string>) {
    if r.None? then !HasMatch(it, devno)
    else exists i: nat :: FirstMatch(it, i, devno) && r.value == it.name + "/" + Entries(it.dir)[i].name
  }

  ghost predicate FirstMatch(it: Item, i: nat, devno: int) {
    && i < |Entries(it.dir)| && Match(Entries(it.dir)[i], devno)
    && forall k :: 0 <= k < i ==> !Match(Entries(it.dir)[k], devno)
  }

  lemma {:induction false} KidsSplit(it: Item, i: nat)
    requires i < |Entries(it.dir)|
    ensures Kids(it, i) == (if Eligible(Entries(it.dir)[i]) then [Child(it, i)] else []) + Kids(it, i + 1)
  {
  }

  lemma {:induction false} ReverseParts<T>(a: seq<T>, b: seq<T>)
    ensures Reverse(a + b) == Reverse(b) + Reverse(a)
  {
  }

  /** Scans a directory for the device; its subdirectories go on the front of the list. */
  method ScanDir(it: Item, devno: int, list: seq<Item>) returns (devname: Option<string>, list': seq<Item>)
    ensures Found(it, devno, devname)
    ensures devname.None? ==> list' == Reverse(Kids(it, 0)) + list
  {
    devname, list' := None, list;
    if it.dir.Unreadable? {
      return;
    }
    var i := 0;
    while i < |it.dir.entries|
      invariant 0 <= i <= |it.dir.entries|
      invariant forall k :: 0 <= k < i ==> !Match(it.dir.entries[k], devno)
      invariant Reverse(Kids(it, 0)) + list == Reverse(Kids(it, i)) + list'
    {
      var e := it.dir.entries[i];
      KidsSplit(it, i);
      ReverseParts(if Eligible(e) then [Child(it, i)] else [], Kids(it, i + 1));
      i := i + 1;
      if !e.dtype.DtUnknown? && !e.dtype.DtBlk? && !e.dtype.DtLnk? && !e.dtype.DtDir? {
        continue;
      }
      if e.name == "." || e.name == ".." || e.stat.NoStat? {
        continue;
      }
      if e.stat == Block(devno) {
        devname := Some(it.name + "/" + e.name);
        assert FirstMatch(it, i - 1, devno);
        break;
      }
      if !e.stat.Directory? || e.dtype.DtLnk? || (e.dtype.DtUnknown? && !e.lstatDir) {
        continue;
      }
      if (e.name != "" && e.name[0] == '.') || (e.dtype.DtDir? && e.name == "shm") {
        continue;
      }
      list' := [Item(it.name + "/" + e.name, e.sub, it.place + [i - 1])] + list';
    }
  }

  // ---------- the search ----------

  /** Before directory `k` of level `n`: the rest of the level, the next one so far, and no device yet. */
  ghost predicate Searching(roots: seq<Item>, devno: int, n: nat, k: nat, list: seq<Item>, next: seq<Item>) {
    var level := Level(roots, n);
    && k <= |level| && list == level[k..] && next == Reverse(AllKids(level[..k]))
    && Without(Above(roots, n) + level[..k], devno)
  }

  ghost predicate Without(its: seq<Item>, devno: int) { forall i :: 0 <= i < |its| ==> !HasMatch(its[i], devno) }

  lemma {:induction false} AllKidsLast(its: seq<Item>, it: Item)
    ensures AllKids(its + [it]) == AllKids(its) + Kids(it, 0)
  {
    if its == [] {
      assert AllKids([it]) == Kids(it, 0) + AllKids([]);
    } else {
      assert (its + [it])[1..] == its[1..] + [it];
      AllKidsLast(its[1..], it);
    }
  }

  lemma SearchOn(roots: seq<Item>, devno: int, n: nat, k: nat, list: seq<Item>, next: seq<Item>)
    requires Searching(roots, devno, n, k, list, next) && list != [] && !HasMatch(list[0], devno)
    ensures Searching(roots, devno, n, k + 1, list[1..], Reverse(Kids(list[0], 0)) + next)
  {
    hide Level, Above, AllKids, Kids, Reverse, HasMatch;
    var level := Level(roots, n);
    assert level[..k + 1] == level[..k] + [list[0]];
    AllKidsLast(level[..k], list[0]);
    ReverseParts(AllKids(level[..k]), Kids(list[0], 0));
    var was := Above(roots, n) + level[..k];
    assert Above(roots, n) + level[..k + 1] == was + [list[0]];
  }

  lemma NextStarts(roots: seq<Item>, devno: int, n: nat, k: nat, next: seq<Item>)
    requires Searching(roots, devno, n, k, [], next)
    ensures Searching(roots, devno, n + 1, 0, next, [])
  {
    var level := Level(roots, n);
    assert level[..k] == level;
    assert Level(roots, n + 1)[0..] == next;
    assert Above(roots, n + 1) + next[..0] == Above(roots, n) + level[..k];
  }

  lemma {:induction false} EmptyOn(roots: seq<Item>, n: nat, m: nat)
    requires Level(roots, n) == [] && n <= m
    ensures Level(roots, m) == []
    decreases m - n
  {
    if n < m {
      assert Level(roots, n + 1) == NextLevel([]);
      EmptyOn(roots, n + 1, m);
    }
  }

  lemma {:induction false} AboveHas(roots: seq<Item>, n: nat, m: nat, it: Item)
    requires m < n && it in Level(roots, m)
    ensures it in Above(roots, n)
  {
    hide Level;
    if m < n - 1 {
      AboveHas(roots, n - 1, m, it);
    }
  }

  /** A device is below `roots` at depth `n`. */
  ghost predicate DeviceAt(roots: seq<Item>, devno: int, n: nat) {
    exists it :: Below(roots, it, n) && HasMatch(it, devno)
  }

  lemma NoneAbove(roots: seq<Item>, devno: int, n: nat, m: nat)
    requires m < n && Without(Above(roots, n), devno)
    ensures !DeviceAt(roots, devno, m)
  {
    forall it | Below(roots, it, m) ensures !HasMatch(it, devno) {
      LevelIff(roots, m, it);
      AboveHas(roots, n, m, it);
    }
  }

  lemma NoneBelow(roots: seq<Item>, devno: int, n: nat, m: nat)
    requires n <= m && Level(roots, n) == []
    ensures !DeviceAt(roots, devno, m)
  {
    EmptyOn(roots, n, m);
    forall it ensures !Below(roots, it, m) {
      LevelIff(roots, m, it);
    }
  }

  /** Found in a directory of the least depth that has one, or there is none at any depth. */
  ghost predicate Answer(roots: seq<Item>, devno: int, r: Option<string>) {
    if r.None? then forall n: nat :: !DeviceAt(roots, devno, n)
    else exists n: nat, it :: Nearest(roots, devno, n) && Below(roots, it, n) && Found(it, devno, r)
  }

  ghost predicate Nearest(roots: seq<Item>, devno: int, n: nat) {
    forall m: nat :: m < n ==> !DeviceAt(roots, devno, m)
  }

  lemma SearchEnds(roots: seq<Item>, devno: int, n: nat, next: seq<Item>)
    requires Searching(roots, devno, n, 0, [], next)
    ensures Answer(roots, devno, None)
  {
    assert Level(roots, n)[0..] == Level(roots, n);
    assert Above(roots, n) + Level(roots, n)[..0] == Above(roots, n);
    forall m: nat ensures !DeviceAt(roots, devno, m) {
      if m < n { NoneAbove(roots, devno, n, m); } else { NoneBelow(roots, devno, n, m); }
    }
  }

  lemma SearchFinds(roots: seq<Item>, devno: int, n: nat, k: nat, list: seq<Item>, next: seq<Item>, r: Option<string>)
    requires Searching(roots, devno, n, k, list, next) && list != [] && r.Some? && Found(list[0], devno, r)
    ensures Answer(roots, devno, r)
  {
    var was := Above(roots, n) + Level(roots, n)[..k];
    assert forall i :: 0 <= i < |Above(roots, n)| ==> was[i] == Above(roots, n)[i];
    forall m: nat | m < n ensures !DeviceAt(roots, devno, m) {
      NoneAbove(roots, devno, n, m);
    }
    assert list[0] == Level(roots, n)[k];
    LevelIff(roots, n, list[0]);
    assert Nearest(roots, devno, n) && Below(roots, list[0], n) && Found(list[0], devno, r);
  }

  /** The visited directories are an initial part of the levels in order. */
  ghost predicate Visited(roots: seq<Item>, seen: seq<Item>) {
    exists n: nat, k: nat :: SeenTo(roots, n, k, seen)
  }

  lemma {:induction false} VisitedOnce(roots: seq<Item>, seen: seq<Item>)
    requires Apart(roots) && Deep(roots, 1) && Visited(roots, seen)
    ensures Apart(seen) && ByDepth(seen)
  {
    var n: nat, k: nat :| SeenTo(roots, n, k, seen);
    AboveApart(roots, n);
    LevelApart(roots, n);
    AboveSorted(roots, n);
  }

  ghost predicate ByDepth(its: seq<Item>) { forall i, j :: 0 <= i < j < |its| ==> |its[i].place| <= |its[j].place| }

  lemma SortedParts(a: seq<Item>, b: seq<Item>, d: nat)
    requires ByDepth(a) && Deep(b, d) && forall i :: 0 <= i < |a| ==> |a[i].place| < d
    ensures ByDepth(a + b)
  {
    forall i, j | 0 <= i < j < |a + b| ensures |(a + b)[i].place| <= |(a + b)[j].place| {
    }
  }

  lemma {:induction false} AboveSorted(roots: seq<Item>, n: nat)
    requires Apart(roots) && Deep(roots, 1)
    ensures ByDepth(Above(roots, n))
  {
    hide *;
    AboveStep(roots, n);
    if n > 0 {
      AboveSorted(roots, n - 1);
      AboveApart(roots, n - 1);
      LevelApart(roots, n - 1);
      SortedParts(Above(roots, n - 1), Level(roots, n - 1), n);
    }
  }

  lemma AboveStep(roots: seq<Item>, n: nat)
    ensures n > 0 ==> Above(roots, n) == Above(roots, n - 1) + Level(roots, n - 1)
    ensures n == 0 ==> ByDepth(Above(roots, n))
  {
    hide Level;
  }

  lemma Shrinks(list: seq<Item>, next: seq<Item>)
    requires list != []
    ensures Size(list[1..]) + Size(Reverse(Kids(list[0], 0)) + next) < Size(list) + Size(next)
  {
    KidsSmaller(list[0]);
    SizeParts(Reverse(Kids(list[0], 0)), next);
  }

  const DEVDIRS := ["/devices", "/devfs", "/dev"]

  /** The directories to start from, the most important one on top. */
  function Roots(dirs: seq<Dir>): (r: seq<Item>)
    requires |dirs| == |DEVDIRS|
    ensures Apart(r) && Deep(r, 1)
  {
    [Item("/dev", dirs[2], [2]), Item("/devfs", dirs[1], [1]), Item("/devices", dirs[0], [0])]
  }

  /** Stack, next level and the directories opened so far, in the middle of a search. */
  ghost predicate Going(roots: seq<Item>, devno: int, list: seq<Item>, next: seq<Item>, seen: seq<Item>) {
    exists n: nat, k: nat :: GoingAt(roots, devno, n, k, list, next, seen)
  }

  ghost predicate GoingAt(roots: seq<Item>, devno: int, n: nat, k: nat, list: seq<Item>, next: seq<Item>,
      seen: seq<Item>) {
    Searching(roots, devno, n, k, list, next) && (list == [] ==> k == 0) && SeenTo(roots, n, k, seen)
  }

  /** The directories opened are those above level `n` and the first `k` of it. */
  ghost predicate SeenTo(roots: seq<Item>, n: nat, k: nat, seen: seq<Item>) {
    k <= |Level(roots, n)| && seen == Above(roots, n) + Level(roots, n)[..k]
  }

  lemma SeenOn(roots: seq<Item>, n: nat, k: nat, seen: seq<Item>, it: Item)
    requires SeenTo(roots, n, k, seen) && k < |Level(roots, n)| && it == Level(roots, n)[k]
    ensures SeenTo(roots, n, k + 1, seen + [it])
    ensures k + 1 == |Level(roots, n)| ==> SeenTo(roots, n + 1, 0, seen + [it])
  {
    hide NextLevel;
    assert Level(roots, n)[..k + 1] == Level(roots, n)[..k] + [it];
    assert Above(roots, n + 1) == Above(roots, n) + Level(roots, n);
    assert Level(roots, n)[..|Level(roots, n)|] == Level(roots, n);
    assert Above(roots, n + 1) + Level(roots, n + 1)[..0] == Above(roots, n + 1);
  }

  lemma GoingStarts(roots: seq<Item>, devno: int)
    ensures Going(roots, devno, roots, [], [])
  {
    assert GoingAt(roots, devno, 0, 0, roots, [], []);
  }

  lemma SearchingList(roots: seq<Item>, devno: int, n: nat, k: nat, list: seq<Item>, next: seq<Item>)
    requires Searching(roots, devno, n, k, list, next)
    ensures k + |list| == |Level(roots, n)| && (list != [] ==> list[0] == Level(roots, n)[k])
  {
  }

  lemma GoingOn(roots: seq<Item>, devno: int, list: seq<Item>, next: seq<Item>, seen: seq<Item>)
    requires Going(roots, devno, list, next, seen) && list != [] && Found(list[0], devno, None)
    ensures
      var next' := Reverse(Kids(list[0], 0)) + next;
      if |list| == 1 then Going(roots, devno, next', [], seen + [list[0]])
      else Going(roots, devno, list[1..], next', seen + [list[0]])
  {
    hide Searching, SeenTo, Reverse, Kids, Level, HasMatch;
    var n: nat, k: nat :| GoingAt(roots, devno, n, k, list, next, seen);
    SearchingList(roots, devno, n, k, list, next);
    SeenOn(roots, n, k, seen, list[0]);
    SearchOn(roots, devno, n, k, list, next);
    var next' := Reverse(Kids(list[0], 0)) + next;
    if |list| == 1 {
      assert list[1..] == [];
      NextStarts(roots, devno, n, k + 1, next');
      assert GoingAt(roots, devno, n + 1, 0, next', [], seen + [list[0]]);
    } else {
      assert GoingAt(roots, devno, n, k + 1, list[1..], next', seen + [list[0]]);
    }
  }

  lemma GoingFinds(roots: seq<Item>, devno: int, list: seq<Item>, next: seq<Item>, seen: seq<Item>, r: Option<string>)
    requires Going(roots, devno, list, next, seen) && list != [] && r.Some? && Found(list[0], devno, r)
    ensures Answer(roots, devno, r) && Visited(roots, seen + [list[0]])
  {
    hide Searching, SeenTo, Level, Found, Answer;
    var n: nat, k: nat :| GoingAt(roots, devno, n, k, list, next, seen);
    SearchingList(roots, devno, n, k, list, next);
    SearchFinds(roots, devno, n, k, list, next, r);
    SeenOn(roots, n, k, seen, list[0]);
  }

  lemma GoingEnds(roots: seq<Item>, devno: int, next: seq<Item>, seen: seq<Item>)
    requires Going(roots, devno, [], next, seen)
    ensures Answer(roots, devno, None) && Visited(roots, seen)
  {
    hide Searching, SeenTo, Level, Answer;
    var n: nat, k: nat :| GoingAt(roots, devno, n, k, [], next, seen);
    SearchEnds(roots, devno, n, next);
  }

  /** The search itself: `seen` notes the directories opened, in order. */
  method ScandevDevnoToDevpath(devno: int, dirs: seq<Dir>) returns (devname: Option<string>, ghost seen: seq<Item>)
    requires |dirs| == |DEVDIRS|
    ensures Answer(Roots(dirs), devno, devname)
    ensures Visited(Roots(dirs), seen) && Apart(seen) && ByDepth(seen)
  {
    hide *;
    var list := StartList(dirs);
    var newList := [];
    ghost var roots := Roots(dirs);
    seen, devname := [], None;
    GoingStarts(roots, devno);
    while list != []
      invariant Going(roots, devno, list, newList, seen)
      invariant devname == None
      decreases Size(list) + Size(newList)
    {
      var current := list[0];
      Shrinks(list, newList);
      var pushed;
      devname, pushed := ScanDir(current, devno, newList);
      if devname.Some? {
        GoingFinds(roots, devno, list, newList, seen, devname);
        seen := seen + [current];
        VisitedOnce(roots, seen);
        return;
      }
      GoingOn(roots, devno, list, newList, seen);
      NothingLeft();
      seen, list, newList := seen + [current], list[1..], pushed;
      if list == [] {
        list, newList := newList, [];
      }
    }
    GoingEnds(roots, devno, newList, seen);
    VisitedOnce(roots, seen);
  }

  lemma NothingLeft()
    ensures Size([]) == 0
  {
  }

  /** The start directories are pushed one after the other. */
  method StartList(dirs: seq<Dir>) returns (list: seq<Item>)
    requires |dirs| == |DEVDIRS|
    ensures list == Roots(dirs)
  {
    list := [];
    var d := 0;
    while d < |DEVDIRS|
      invariant 0 <= d <= |DEVDIRS|
      invariant list == Roots(dirs)[3 - d..]
    {
      list := [Item(DEVDIRS[d], dirs[d], [d])] + list;
      d := d + 1;
    }
  }
}
