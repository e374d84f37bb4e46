/** What the path found by the device-node search (devno.c) names: the entry that it leads to, name by name. */
module DirPath {
  import opened Wrappers
  import opened DirScan

  /** Each name behind a slash. */
  function Slashed(names: seq<string>): string {
    if names == [] then "" else Slashed(names[..|names| - 1]) + "/" + names[|names| - 1]
  }

  /** The names passed on the way along `place`, and the directory it ends in. */
  function WalkTo(d: Dir, place: seq<nat>): Option<(seq<string>, Dir)> {
    if place == [] then Some(([], d))
    else
      match WalkTo(d, place[..|place| - 1])
      case None => None
      case Some((names, at)) =>
        var i := place[|place| - 1];
        if i < |Entries(at)| then Some((names + [Entries(at)[i].name], Entries(at)[i].sub)) else None
  }

  /** The directory is named by the way that leads to it from its start directory. */
  predicate Named(it: Item, dirs: seq<Dir>, n: nat) {
    && |it.place| == n + 1 && it.place[0] < |dirs| == |DEVDIRS|
    && var w := WalkTo(dirs[it.place[0]], it.place[1..]);
      && w.Some? && w.value.1 == it.dir && |w.value.0| == n
      && it.name == DEVDIRS[it.place[0]] + Slashed(w.value.0)
  }

  /** Every directory of every level is. */
  lemma {:induction false} BelowNamed(dirs: seq<Dir>, it: Item, n: nat)
    requires |dirs| == |DEVDIRS| && Below(Roots(dirs), it, n)
    ensures Named(it, dirs, n)
    decreases n
  {
    if n == 0 {
      assert Slashed([]) == "";
      assert it.place[1..] == [];
      assert it.name + "" == it.name;
    } else {
      var p: Item, i: nat :| Below(Roots(dirs), p, n - 1) && ChildAt(p, i, it);
      BelowNamed(dirs, p, n - 1);
      ChildNamed(dirs, p, i, n - 1);
    }
  }

  lemma ChildNamed(dirs: seq<Dir>, p: Item, i: nat, n: nat)
    requires Named(p, dirs, n) && i < |Entries(p.dir)|
    ensures Named(Child(p, i), dirs, n + 1)
  {
    var r, name := p.place[0], Entries(p.dir)[i].name;
    var names := WalkTo(dirs[r], p.place[1..]).value.0;
    hide WalkTo, Slashed, Entries;
    assert (p.place + [i])[1..] == p.place[1..] + [i];
    WalkNext(dirs[r], p.place[1..], i);
    SlashedNext(names, name);
    Assoc(DEVDIRS[r], Slashed(names), "/", name);
  }

  lemma WalkNext(d: Dir, place: seq<nat>, i: nat)
    ensures WalkTo(d, place + [i]) ==
      match WalkTo(d, place)
      case None => None
      case Some((names, at)) =>
        if i < |Entries(at)| then Some((names + [Entries(at)[i].name], Entries(at)[i].sub)) else None
  {
    assert (place + [i])[..|place|] == place;
  }

  lemma Assoc(a: string, b: string, c: string, d: string)
    ensures a + b + c + d == a + (b + c + d)
  {
  }

  lemma SlashedNext(names: seq<string>, name: string)
    ensures Slashed(names + [name]) == Slashed(names) + "/" + name
  {
    assert (names + [name])[..|names|] == names;
  }

  // ---------- paths ----------

  /** Following the names from `d` leads to the entry. */
  ghost predicate Leads(d: Dir, names: seq<string>, e: Entry) {
    && names != []
    && exists i ::
      && 0 <= i < |Entries(d)| && Entries(d)[i].name == names[0]
      && if |names| == 1 then e == Entries(d)[i] else Leads(Entries(d)[i].sub, names[1..], e)
  }

  /** Following them leads to the directory. */
  ghost predicate LeadsTo(d: Dir, names: seq<string>, at: Dir) {
    if names == [] then at == d
    else exists i ::
      && 0 <= i < |Entries(d)| && Entries(d)[i].name == names[0]
      && LeadsTo(Entries(d)[i].sub, names[1..], at)
  }

  lemma {:induction false} LeadsOn(d: Dir, names: seq<string>, at: Dir, i: nat)
    requires LeadsTo(d, names, at) && i < |Entries(at)|
    ensures LeadsTo(d, names + [Entries(at)[i].name], Entries(at)[i].sub)
    ensures Leads(d, names + [Entries(at)[i].name], Entries(at)[i])
  {
    var name, e := Entries(at)[i].name, Entries(at)[i];
    var more := names + [name];
    if names == [] {
      assert more[1..] == [] && LeadsTo(e.sub, [], e.sub);
    } else {
      var j :| 0 <= j < |Entries(d)| && Entries(d)[j].name == names[0] && LeadsTo(Entries(d)[j].sub, names[1..], at);
      LeadsOn(Entries(d)[j].sub, names[1..], at, i);
      assert more[1..] == names[1..] + [name] && more[0] == names[0];
    }
  }

  lemma {:induction false} WalkLeads(d: Dir, place: seq<nat>)
    ensures var w := WalkTo(d, place); w.Some? ==> LeadsTo(d, w.value.0, w.value.1)
  {
    if place != [] {
      var was := WalkTo(d, place[..|place| - 1]);
      WalkLeads(d, place[..|place| - 1]);
      if was.Some? && place[|place| - 1] < |Entries(was.value.1)| {
        LeadsOn(d, was.value.0, was.value.1, place[|place| - 1]);
      }
    }
  }

  /** The path is the name of a start directory, followed by names that lead from there to a block device of that
      number. */
  ghost predicate Opens(dirs: seq<Dir>, devno: int, path: string) {
    exists r: nat, names, e ::
      && r < |dirs| && r < |DEVDIRS|
      && path == DEVDIRS[r] + Slashed(names) && Leads(dirs[r], names, e) && e.stat == Block(devno)
  }

  /** An entry of a named directory. */
  lemma NamedOpens(dirs: seq<Dir>, devno: int, it: Item, n: nat, i: nat)
    requires Named(it, dirs, n) && i < |Entries(it.dir)| && Entries(it.dir)[i].stat == Block(devno)
    ensures Opens(dirs, devno, it.name + "/" + Entries(it.dir)[i].name)
  {
    var r, e := it.place[0], Entries(it.dir)[i];
    var names := WalkTo(dirs[r], it.place[1..]).value.0;
    hide WalkTo, Leads, LeadsTo, Slashed;
    WalkLeads(dirs[r], it.place[1..]);
    LeadsOn(dirs[r], names, it.dir, i);
    SlashedNext(names, e.name);
    Assoc(DEVDIRS[r], Slashed(names), "/", e.name);
    assert Leads(dirs[r], names + [e.name], e);
  }

  /** Every path the search answers does. */
  lemma AnswerOpens(dirs: seq<Dir>, devno: int, path: string)
    requires |dirs| == |DEVDIRS| && Answer(Roots(dirs), devno, Some(path))
    ensures Opens(dirs, devno, path)
  {
    hide Named, Opens, Below, Nearest;
    var n: nat, it :| Nearest(Roots(dirs), devno, n) && Below(Roots(dirs), it, n) && Found(it, devno, Some(path));
    var i: nat :| FirstMatch(it, i, devno) && path == it.name + "/" + Entries(it.dir)[i].name;
    BelowNamed(dirs, it, n);
    NamedOpens(dirs, devno, it, n, i);
  }

  // ---------- the names of a path ----------

  /** The names of a text, one behind each slash. */
  function Names(t: string): seq<string> {
    if t == "" then []
    else
      var k := |t| - 1;
      var ns := Names(t[..k]);
      if t[k] == '/' then ns + [""]
      else if ns == [] then [[t[k]]]
      else ns[..|ns| - 1] + [ns[|ns| - 1] + [t[k]]]
  }

  predicate NoSlash(s: string) { forall i :: 0 <= i < |s| ==> s[i] != '/' }

  lemma {:induction false} NamesParts(t: string, name: string)
    requires NoSlash(name)
    ensures Names(t + "/" + name) == Names(t) + [name]
  {
    var k := |name| - 1;
    var s := t + "/" + name;
    if name == "" {
      assert s[..|s| - 1] == t && s[|s| - 1] == '/';
    } else {
      NamesParts(t, name[..k]);
      assert s[..|s| - 1] == t + "/" + name[..k] && s[|s| - 1] == name[k];
      assert name[..k] + [name[k]] == name;
    }
  }

  /** Names that hold no slash, as those of directory entries do, are found again by splitting the path. */
  lemma {:induction false} NamesSlashed(names: seq<string>)
    requires forall i :: 0 <= i < |names| ==> NoSlash(names[i])
    ensures Names(Slashed(names)) == names
  {
    if names != [] {
      var k := |names| - 1;
      NamesSlashed(names[..k]);
      NamesParts(Slashed(names[..k]), names[k]);
      assert names[..k] + [names[k]] == names;
    }
  }

  /** The entries of a directory tree have names without slashes. */
  predicate Clean(d: Dir)
    decreases d, 0
  {
    d.Unreadable? || CleanEntries(d.entries)
  }

  predicate CleanEntries(es: seq<Entry>) {
    es == [] || (NoSlash(es[0].name) && Clean(es[0].sub) && CleanEntries(es[1..]))
  }

  lemma {:induction false} CleanAt(es: seq<Entry>, i: nat)
    requires CleanEntries(es) && i < |es|
    ensures NoSlash(es[i].name) && Clean(es[i].sub)
  {
    if i > 0 { CleanAt(es[1..], i - 1); }
  }

  lemma {:induction false} LeadsClean(d: Dir, names: seq<string>, e: Entry)
    requires Clean(d) && Leads(d, names, e)
    ensures forall i :: 0 <= i < |names| ==> NoSlash(names[i])
    decreases |names|
  {
    var i :| 0 <= i < |Entries(d)| && Entries(d)[i].name == names[0]
      && if |names| == 1 then e == Entries(d)[i] else Leads(Entries(d)[i].sub, names[1..], e);
    CleanAt(Entries(d), i);
    if |names| > 1 {
      LeadsClean(Entries(d)[i].sub, names[1..], e);
      assert forall k :: 1 <= k < |names| ==> names[k] == names[1..][k - 1];
    }
  }

  /** The answer, split at its slashes behind the name of a start directory, names entries that lead from there to a
      block device of that number. */
  lemma AnswerSplits(dirs: seq<Dir>, devno: int, path: string)
    requires |dirs| == |DEVDIRS| && Answer(Roots(dirs), devno, Some(path))
    requires forall r :: 0 <= r < |dirs| ==> Clean(dirs[r])
    ensures exists r: nat, e ::
      && r < |DEVDIRS| && DEVDIRS[r] <= path
      && Leads(dirs[r], Names(path[|DEVDIRS[r]|..]), e) && e.stat == Block(devno)
  {
    AnswerOpens(dirs, devno, path);
    var r: nat, names, e :| r < |dirs| && r < |DEVDIRS|
      && path == DEVDIRS[r] + Slashed(names) && Leads(dirs[r], names, e) && e.stat == Block(devno);
    LeadsClean(dirs[r], names, e);
    NamesSlashed(names);
    assert path[|DEVDIRS[r]|..] == Slashed(names);
  }
}
