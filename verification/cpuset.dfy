/** CPU sets (cpuset.c) and the partition list of fdisk's dialogs (ask.c): both print the same lists. */
module CpuSet {
  import opened CNumber
  import opened CacheText
  import opened CpuRange
  import opened CpuText

  // ---------- cpulist_create() ----------

  /** The CPUs below `i`, in order. */
  function Members(b: seq<bool>, i: nat): (r: seq<nat>)
    requires i <= |b|
  {
    if i == 0 then [] else if b[i - 1] then Members(b, i - 1) + [i - 1] else Members(b, i - 1)
  }

  lemma {:induction false} MembersBounded(b: seq<bool>, i: nat)
    requires i <= |b|
    ensures forall k :: 0 <= k < |Members(b, i)| ==> Members(b, i)[k] < i
  {
    if i > 0 { MembersBounded(b, i - 1); }
  }

  function RunLen(b: seq<bool>, j: nat): (run: nat)
    requires j <= |b|
    ensures j + run <= |b| && forall k :: j <= k < j + run ==> b[k]
    ensures j + run < |b| ==> !b[j + run]
    decreases |b| - j
  {
    if j < |b| && b[j] then 1 + RunLen(b, j + 1) else 0
  }

  /** What the loop prints from CPU `i` on, commas included. */
  function RestText(b: seq<bool>, i: nat): string
    requires i <= |b|
    decreases |b| - i
  {
    if i == |b| then ""
    else if !b[i] then RestText(b, i + 1)
    else GroupText(Group(i, RunLen(b, i + 1))) + RestText(b, i + RunLen(b, i + 1) + 1)
  }

  lemma MembersNext(b: seq<bool>, i: nat)
    requires i < |b|
    ensures Members(b, i + 1) == if b[i] then Members(b, i) + [i] else Members(b, i)
  {
  }

  /** A run that nothing precedes becomes one more group. */
  lemma {:induction false} MembersSkip(b: seq<bool>, i: nat, j: nat)
    requires i < j <= |b| && (forall k :: i <= k < j ==> b[k]) && Ends(Groups(Members(b, i)), i)
    ensures Groups(Members(b, j)) == Groups(Members(b, i)) + [Group(i, j - i - 1)]
    decreases j
  {
    hide Groups, Members, Extend;
    var gs := Groups(Members(b, i));
    MembersNext(b, j - 1);
    GroupsSnoc(Members(b, j - 1), j - 1);
    if i < j - 1 {
      MembersSkip(b, i, j - 1);
      ExtendLast(gs, Group(i, j - i - 2));
    } else {
      ExtendNew(gs, i);
    }
  }

  lemma GrowLast(gs: seq<Group>, g: Group)
    ensures var more := gs + [g]; more[|more| - 1] == g && more[..|more| - 1] == gs
  {
  }

  /** The last run ends before `i`: it would not be continued by `i`. */
  predicate Ends(gs: seq<Group>, i: nat) { gs != [] ==> Next(gs[|gs| - 1]) < i }

  /** ... or ends just before `i`, which is not in the set. */
  predicate Clear(b: seq<bool>, gs: seq<Group>, i: nat)
    requires i <= |b|
  {
    gs != [] ==> Next(gs[|gs| - 1]) < i || (Next(gs[|gs| - 1]) == i && (i < |b| ==> !b[i]))
  }

  /** The loop prints the runs of the set. */
  lemma {:induction false} PrintsRuns(b: seq<bool>, i: nat, gs: seq<Group>)
    requires i <= |b| && gs == Groups(Members(b, i)) && Clear(b, gs, i)
    ensures GroupsText(gs) + RestText(b, i) == GroupsText(Groups(Members(b, |b|)))
    decreases |b| - i
  {
    hide GroupText, Groups, Members, GroupsText;
    if i == |b| {
      assert GroupsText(gs) + "" == GroupsText(gs);
    } else if !b[i] {
      MembersNext(b, i);
      PrintsRuns(b, i + 1, gs);
    } else {
      var g := Group(i, RunLen(b, i + 1));
      var j := i + g.run + 1;
      RestNext(b, i, g.run);
      hide RestText;
      MembersSkip(b, i, j);
      GrowLast(gs, g);
      GroupsTextSnoc(gs, g);
      PrintsRuns(b, j, gs + [g]);
      Assoc(GroupsText(gs), GroupText(g), RestText(b, j));
    }
  }

  /** snprintf(): the text if it fits with its NUL, else its beginning; the length it would have had. */
  method Snprintf(str: array<char>, at: nat, room: nat, text: string) returns (rlen: nat)
    requires at + room <= str.Length
    modifies str
    ensures rlen == |text| && str[..at] == old(str[..at])
    ensures rlen + 1 <= room ==> str[at..at + rlen] == text
  {
    rlen := |text|;
    var n := if room == 0 then 0 else if rlen < room then rlen else room - 1;
    for i := 0 to n
      invariant str[..at] == old(str[..at]) && str[at..at + i] == text[..i]
    {
      str[at + i] := text[i];
    }
    if room > 0 {
      str[at + n] := '\0';
    }
  }

  /** The set printed whole: cpulist_create() needs one byte more than the text with its last comma. */
  predicate ListFits(text: string, len: nat) { text == "" || |text| + 1 <= len }

  /** cpulist_create(): the text of the set's runs, or failure exactly when it does not fit. The empty set always fits;
      `outside` when not even its NUL does. */
  method CpuListCreate(str: array<char>, len: nat, cpus: array<bool>) returns (ok: bool, end: nat, outside: bool)
    requires len <= str.Length
    modifies str
    ensures ok <==> ListFits(WholeText(cpus[..]), len)
    ensures outside <==> str.Length == 0 && WholeText(cpus[..]) == ""
    ensures ok && !outside ==>
      end < str.Length && str[..end] == ListText(Members(cpus[..], cpus.Length)) && str[end] == '\0'
  {
    hide *;
    var i: nat, ptr: nat, room: nat, entryMade: nat := 0, 0, len, 0;
    ghost var b := cpus[..];
    ListStart(b, str[..], len);
    while i < cpus.Length
      invariant Printing(b, i, str[..], ptr, room, len, entryMade)
      decreases |b| - i
    {
      if cpus[i] {
        var run := CountRun(cpus, i + 1);
        ghost var was := str[..];
        ListNext(b, i, was, ptr, room, len, entryMade, run);
        var rlen := Snprintf(str, ptr, room, GroupText(Group(i, run)));
        if rlen + 1 > room {
          return false, 0, false;
        }
        ListAgain(b, i, str[..], was, ptr, room, len, entryMade, run, rlen);
        ptr, room, entryMade := ptr + rlen, room - rlen, 1;
        i := i + run;
      } else {
        ListSkip(b, i, str[..], ptr, room, len, entryMade);
      }
      i := i + 1;
    }
    ListDone(b, i, str[..], ptr, room, len, entryMade);
    ptr := ptr - entryMade;
    if ptr >= str.Length {
      return true, ptr, true;
    }
    ghost var was := str[..ptr];
    str[ptr] := '\0';
    assert str[..ptr] == was;
    return true, ptr, false;
  }

  method CountRun(cpus: array<bool>, j0: nat) returns (run: nat)
    requires j0 <= cpus.Length
    ensures run == RunLen(cpus[..], j0)
  {
    var j := j0;
    run := 0;
    while j < cpus.Length && cpus[j]
      invariant j0 <= j <= cpus.Length && run + RunLen(cpus[..], j) == RunLen(cpus[..], j0)
      decreases cpus.Length - j
    {
      run, j := run + 1, j + 1;
    }
  }

  /** The loop's invariant: `ptr` characters of the whole text are written, `room` are left. */
  ghost predicate Printing(b: seq<bool>, i: nat, sb: seq<char>, ptr: nat, room: nat, len: nat, entryMade: nat) {
    && i <= |b| && len <= |sb| && ptr + room == len && ptr <= |sb| && sb[..ptr] + RestText(b, i) == RestText(b, 0)
    && entryMade == (if ptr > 0 then 1 else 0) && (ptr > 0 ==> room > 0)
  }

  /** All the text of a set, with its last comma. */
  function WholeText(b: seq<bool>): string { GroupsText(Groups(Members(b, |b|))) }

  lemma WholeIsRest(b: seq<bool>)
    ensures WholeText(b) == RestText(b, 0)
  {
    PrintsRuns(b, 0, []);
    assert GroupsText([]) + RestText(b, 0) == RestText(b, 0);
  }

  lemma ListStart(b: seq<bool>, sb: seq<char>, len: nat)
    requires len <= |sb|
    ensures Printing(b, 0, sb, 0, len, len, 0)
  {
    assert sb[..0] + RestText(b, 0) == RestText(b, 0);
  }

  lemma ListSkip(b: seq<bool>, i: nat, sb: seq<char>, ptr: nat, room: nat, len: nat, entryMade: nat)
    requires Printing(b, i, sb, ptr, room, len, entryMade) && i < |b| && !b[i]
    ensures Printing(b, i + 1, sb, ptr, room, len, entryMade)
  {
  }

  lemma ListNext(b: seq<bool>, i: nat, sb: seq<char>, ptr: nat, room: nat, len: nat, entryMade: nat, run: nat)
    requires Printing(b, i, sb, ptr, room, len, entryMade) && i < |b| && b[i] && run == RunLen(b, i + 1)
    ensures var t := GroupText(Group(i, run));
      |t| > 0 && ptr + room <= |sb| && (|t| + 1 > room ==> !ListFits(WholeText(b), len)) && i + run + 1 <= |b|
        && WholeText(b) != ""
  {
    var t := GroupText(Group(i, run));
    assert |t| > 0;
    hide GroupText, WholeText;
    WholeIsRest(b);
    RestNext(b, i, run);
    assert |RestText(b, 0)| >= ptr + |t|;
    hide RestText;
  }

  lemma ListAgain(b: seq<bool>, i: nat, sb: seq<char>, was: seq<char>, ptr: nat, room: nat, len: nat, entryMade: nat,
      run: nat, rlen: nat)
    requires Printing(b, i, was, ptr, room, len, entryMade) && i < |b| && b[i] && run == RunLen(b, i + 1)
    requires rlen == |GroupText(Group(i, run))| > 0 && rlen + 1 <= room && ptr + rlen <= |sb| == |was|
    requires sb[..ptr] == was[..ptr] && sb[ptr..ptr + rlen] == GroupText(Group(i, run))
    ensures i + run + 1 <= |b| && Printing(b, i + run + 1, sb, ptr + rlen, room - rlen, len, 1)
  {
    hide GroupText;
    var t := GroupText(Group(i, run));
    RestNext(b, i, run);
    var rest := RestText(b, i + run + 1);
    Joined(sb, ptr, rlen, was[..ptr], t);
    Assoc(was[..ptr], t, rest);
    hide RestText;
  }

  lemma RestNext(b: seq<bool>, i: nat, run: nat)
    requires i < |b| && b[i] && run == RunLen(b, i + 1)
    ensures i + run + 1 <= |b| && RestText(b, i) == GroupText(Group(i, run)) + RestText(b, i + run + 1)
  {
    hide GroupText;
  }

  lemma Joined(sb: seq<char>, ptr: nat, rlen: nat, a: string, t: string)
    requires ptr + rlen <= |sb| && sb[..ptr] == a && sb[ptr..ptr + rlen] == t
    ensures sb[..ptr + rlen] == a + t
  {
  }

  lemma ListDone(b: seq<bool>, i: nat, sb: seq<char>, ptr: nat, room: nat, len: nat, entryMade: nat)
    requires Printing(b, i, sb, ptr, room, len, entryMade) && i >= |b|
    ensures ListFits(WholeText(b), len) && entryMade <= ptr && ptr - entryMade <= |sb|
    ensures ptr - entryMade == |sb| <==> |sb| == 0 && WholeText(b) == ""
    ensures sb[..ptr - entryMade] == ListText(Members(b, |b|))
  {
    WholeIsRest(b);
    assert sb[..ptr] + "" == sb[..ptr];
    hide RestText, GroupsText, Groups;
  }

  // ---------- cpulist_parse() ----------

  /** The set holds exactly these numbers, as far as they fit. */
  ghost predicate Shows(b: seq<bool>, s: set<nat>) { forall i :: 0 <= i < |b| ==> (b[i] <==> i in s) }

  datatype Marking = AllSet | TooHigh | NeverEnds

  /** How the marking of a range goes. */
  ghost predicate MarkingIs(a: nat, b: nat, s: nat, max: nat, fail: bool, m: Marking) {
    && (m.TooHigh? <==> fail && exists x :: x in Visited(a, b, s) && x >= max)
    && (!m.TooHigh? ==> (m.AllSet? <==> Leaves(a, b, s)))
  }

  /** `while (a <= b) { if (fail && a >= max) return 2; CPU_SET_S(a); a += s; }` with unsigned ints. After 2^32 rounds
      the loop is back at its first number: NeverEnds stands for a loop that goes on for ever. */
  method MarkRange(cpus: array<bool>, a0: nat, b: nat, s: nat, fail: bool, ghost acc: set<nat>) returns (m: Marking)
    requires a0 < TWO32 && Shows(cpus[..], acc)
    modifies cpus
    ensures MarkingIs(a0, b, s, cpus.Length, fail, m)
    ensures m.AllSet? ==> Shows(cpus[..], acc + Visited(a0, b, s))
    ensures m.TooHigh? ==> Shows(cpus[..], acc + Visited(a0, cpus.Length - 1, s))
  {
    hide *;
    var a, n := a0, 0;
    MarkStart(cpus[..], a0, s, acc, fail, cpus.Length);
    while a <= b && n < TWO32
      invariant n <= TWO32 && a == Walk(a0, s, n)
      invariant AllBelow(a0, b, s, n) && Marked(cpus[..], a0, s, n, acc, fail)
      decreases TWO32 - n
    {
      MarkNext(cpus[..], a0, b, s, n, acc, fail, a);
      if fail && a >= cpus.Length {
        MarkHigh(cpus[..], a0, b, s, n, acc, fail, a);
        return TooHigh;
      }
      if a < cpus.Length {
        cpus[a] := true;
      }
      a, n := (a + s) % TWO32, n + 1;
    }
    MarkEnd(cpus[..], a0, b, s, n, acc, fail);
    m := if a <= b then NeverEnds else AllSet;
  }

  ghost predicate AllBelow(a: nat, b: nat, s: nat, n: nat) { forall j :: 0 <= j < n ==> Walk(a, s, j) <= b }

  /** The numbers of the first `n` rounds are set, and none was too high. */
  ghost predicate Marked(cpus: seq<bool>, a: nat, s: nat, n: nat, acc: set<nat>, fail: bool) {
    Shows(cpus, acc + Walked(a, s, n)) && (fail ==> forall x :: x in Walked(a, s, n) ==> x < |cpus|)
  }

  lemma MarkStart(cpus: seq<bool>, a: nat, s: nat, acc: set<nat>, fail: bool, max: nat)
    requires a < TWO32 && Shows(cpus, acc)
    ensures a == Walk(a, s, 0) && Marked(cpus, a, s, 0, acc, fail)
    ensures forall b :: AllBelow(a, b, s, 0)
  {
    WalkStart(a, s);
    assert acc + {} == acc;
  }

  lemma MarkNext(cpus: seq<bool>, a0: nat, b: nat, s: nat, n: nat, acc: set<nat>, fail: bool, a: nat)
    requires n < TWO32 && a == Walk(a0, s, n) <= b && AllBelow(a0, b, s, n) && Marked(cpus, a0, s, n, acc, fail)
    ensures (a + s) % TWO32 == Walk(a0, s, n + 1) && AllBelow(a0, b, s, n + 1)
    ensures !fail || a < |cpus| ==> Marked(if a < |cpus| then cpus[a := true] else cpus, a0, s, n + 1, acc, fail)
  {
    hide Walk, Walked;
    WalkNext(a0, s, n);
  }

  lemma MarkHigh(cpus: seq<bool>, a0: nat, b: nat, s: nat, n: nat, acc: set<nat>, fail: bool, a: nat)
    requires n < TWO32 && a == Walk(a0, s, n) <= b && AllBelow(a0, b, s, n) && Marked(cpus, a0, s, n, acc, fail)
    requires fail && a >= |cpus|
    ensures MarkingIs(a0, b, s, |cpus|, fail, TooHigh) && Shows(cpus, acc + Visited(a0, |cpus| - 1, s))
  {
    hide Walk, Walked, Visited, Leaves, AllBelow, Shows;
    PassedIsVisited(a0, b, s, n);
    FirstHigh(a0, s, n, |cpus|);
  }

  /** The first number that does not fit ends what is marked. */
  lemma FirstHigh(a: nat, s: nat, n: nat, max: nat)
    requires n < TWO32 && Walk(a, s, n) >= max && forall x :: x in Walked(a, s, n) ==> x < max
    ensures Visited(a, max - 1, s) == Walked(a, s, n)
  {
    hide Walk;
    forall j: nat | j < n ensures Walk(a, s, j) < max { assert Walk(a, s, j) in Walked(a, s, n); }
    assert FirstAbove(a, max - 1, s, 0) == n;
  }

  lemma PassedIsVisited(a: nat, b: nat, s: nat, n: nat)
    requires n < TWO32 && Walk(a, s, n) <= b && AllBelow(a, b, s, n)
    ensures Walk(a, s, n) in Visited(a, b, s)
  {
    hide Walk;
    assert FirstAbove(a, b, s, 0) > n;
  }

  lemma MarkEnd(cpus: seq<bool>, a0: nat, b: nat, s: nat, n: nat, acc: set<nat>, fail: bool)
    requires n <= TWO32 && (n < TWO32 ==> Walk(a0, s, n) > b) && AllBelow(a0, b, s, n)
      && Marked(cpus, a0, s, n, acc, fail)
    ensures MarkingIs(a0, b, s, |cpus|, fail, if Walk(a0, s, n) <= b then NeverEnds else AllSet)
    ensures Walk(a0, s, n) > b ==> Shows(cpus, acc + Visited(a0, b, s))
  {
    EndsSoon(a0, b, s);
    assert FirstAbove(a0, b, s, 0) == n;
    Repeats(a0, s, n);
  }

  /** cpulist_parse(); `endless` when it would not return. */
  method CpuListParse(str: string, cpus: array<bool>, fail: bool) returns (rc: int, endless: bool)
    modifies cpus
    ensures var out := ParseFrom(str, {}, cpus.Length, fail);
      endless == out.Endless? && (!endless ==> rc == out.rc && Shows(cpus[..], out.cpus))
  {
    hide *;
    ClearAll(cpus);
    var p := str;
    ghost var acc: set<nat> := {};
    ghost var all := ParseFrom(str, {}, cpus.Length, fail);
    while true
      invariant Shows(cpus[..], acc) && ParseFrom(p, acc, cpus.Length, fail) == all
      decreases |p|
    {
      var r := RangeAt(p);
      ParseStep(p, acc, cpus.Length, fail);
      if r.BadRange? || r.s == 0 || r.a > r.b {
        return 1, false;
      }
      var m := MarkRange(cpus, r.a, r.b, r.s, fail, acc);
      MarkedRange(p, acc, cpus.Length, fail, m);
      if m.TooHigh? {
        return 2, false;
      }
      if m.NeverEnds? {
        return 0, true;
      }
      acc := acc + Visited(r.a, r.b, r.s);
      var q := NextToken(p, 0, ',');
      if q.None? {
        return if r.more then 1 else 0, false;
      }
      p := p[q.value..];
    }
  }

  /** CPU_ZERO_S() */
  method ClearAll(cpus: array<bool>)
    modifies cpus
    ensures Shows(cpus[..], {})
  {
    for i := 0 to cpus.Length
      invariant forall k :: 0 <= k < i ==> !cpus[k]
    {
      cpus[i] := false;
    }
  }

  lemma ParseStep(p: string, acc: set<nat>, max: nat, fail: bool)
    ensures RangeAt(p).BadRange? || RangeAt(p).s == 0 || RangeAt(p).a > RangeAt(p).b ==>
      ParseFrom(p, acc, max, fail) == Done(1, acc)
    ensures RangeAt(p).Range? ==> RangeAt(p).a < TWO32
    ensures NextToken(p, 0, ',').Some? ==> 0 < NextToken(p, 0, ',').value <= |p|
  {
    hide Visited, Leaves, ScanU;
    RangeSizes(p);
  }

  lemma MarkedRange(p: string, acc: set<nat>, max: nat, fail: bool, m: Marking)
    requires RangeAt(p).Range? && RangeAt(p).s > 0 && RangeAt(p).a <= RangeAt(p).b
    requires MarkingIs(RangeAt(p).a, RangeAt(p).b, RangeAt(p).s, max, fail, m)
    ensures var r, q := RangeAt(p), NextToken(p, 0, ',');
      ParseFrom(p, acc, max, fail) ==
        if m.TooHigh? then Done(2, acc + Visited(r.a, max - 1, r.s))
        else if m.NeverEnds? then Endless
        else if q.None? then Done(if r.more then 1 else 0, acc + Visited(r.a, r.b, r.s))
        else if q.value <= |p| then ParseFrom(p[q.value..], acc + Visited(r.a, r.b, r.s), max, fail)
        else Endless
  {
    hide Visited, Leaves, RangeAt, NextToken;
    RoundIs(p, acc, max, fail);
  }

  lemma RoundIs(p: string, acc: set<nat>, max: nat, fail: bool)
    requires RangeAt(p).Range? && RangeAt(p).s > 0 && RangeAt(p).a <= RangeAt(p).b
    ensures NextToken(p, 0, ',').Some? ==> NextToken(p, 0, ',').value <= |p|
    ensures var r, q := RangeAt(p), NextToken(p, 0, ',');
      RoundAt(p, acc, max, fail) ==
        if fail && exists x :: x in Visited(r.a, r.b, r.s) && x >= max then
          Stop(Done(2, acc + Visited(r.a, max - 1, r.s)))
        else if !Leaves(r.a, r.b, r.s) then Stop(Endless)
        else if q.None? then Stop(Done(if r.more then 1 else 0, acc + Visited(r.a, r.b, r.s)))
        else Continue(q.value, acc + Visited(r.a, r.b, r.s))
  {
    hide Visited, Leaves, RangeAt;
  }

  lemma RangeSizes(p: string)
    ensures RangeAt(p).Range? ==> RangeAt(p).a < TWO32 && RangeAt(p).b < TWO32
  {
  }

  /** Printing a set of CPUs into a large enough buffer and parsing the text gives the set back, whatever it held. */
  lemma ParseCreated(b: seq<bool>, fail: bool)
    requires |b| < TWO32 && exists i :: 0 <= i < |b| && b[i]
    ensures var out := ParseFrom(ListText(Members(b, |b|)), {}, |b|, fail);
      out.Done? && out.rc == 0 && Shows(b, out.cpus)
  {
    hide ParseFrom, ListText, Members, Elements;
    var ns := Members(b, |b|);
    var i :| 0 <= i < |b| && b[i];
    MembersAre(b, |b|);
    MembersBounded(b, |b|);
    NotNone(ns, i);
    ListRoundTrip(ns, |b|, fail);
  }

  lemma NotNone(ns: seq<nat>, i: nat)
    ensures i in Elements(ns) ==> ns != []
  {
  }

  lemma ElementsSnoc(ns: seq<nat>, n: nat)
    ensures Elements(ns + [n]) == Elements(ns) + {n}
  {
    assert (ns + [n])[..|ns|] == ns;
  }

  lemma {:induction false} MembersAre(b: seq<bool>, i: nat)
    requires i <= |b|
    ensures forall k :: k in Elements(Members(b, i)) <==> 0 <= k < i && b[k]
  {
    if i > 0 {
      MembersAre(b, i - 1);
      MembersNext(b, i - 1);
      var ns, s := Members(b, i - 1), Elements(Members(b, i - 1));
      ElementsSnoc(ns, i - 1);
      assert Elements(Members(b, i)) == if b[i - 1] then s + {i - 1} else s;
    }
  }

  // ---------- mk_string_list() ----------

  /** tochar(), printed with "%c" */
  function Letter(n: nat): string { [(('a' as int + n - 1) % 256) as char] }

  /** A run as mk_string_list() prints it: with numbers, or with letters for BSD partitions. */
  function RunText(inchar: bool, g: Group): string {
    if !inchar then GroupText(g)
    else if g.run == 0 then Letter(g.first) + ","
    else if g.run == 1 then Letter(g.first) + "," + Letter(g.first + 1) + ","
    else Letter(g.first) + "-" + Letter(g.first + g.run) + ","
  }

  function RunsText(inchar: bool, gs: seq<Group>): string {
    if gs == [] then "" else RunsText(inchar, gs[..|gs| - 1]) + RunText(inchar, gs[|gs| - 1])
  }

  function RunsList(inchar: bool, ns: seq<nat>): string { DropComma(RunsText(inchar, Groups(ns))) }

  /** BSD partitions have the letters of the alphabet. */
  lemma Letters(n: nat)
    requires 1 <= n <= 26
    ensures Letter(n) == ["abcdefghijklmnopqrstuvwxyz"[n - 1]]
  {
    var abc := "abcdefghijklmnopqrstuvwxyz";
    assert forall k :: 0 <= k < 26 ==> abc[k] as int == 'a' as int + k;
  }

  /** Runs of one, two and four partitions. */
  lemma LetterRuns()
    ensures RunsList(true, [1, 3, 4, 6, 7, 8, 9]) == "a,c,d,f-i"
  {
    Letters(1);
    Letters(3);
    Letters(4);
    Letters(6);
    Letters(9);
    hide Letter, GroupText;
    RunsGroups();
    var gs := [Group(1, 0), Group(3, 1), Group(6, 3)];
    assert gs[..2] == [Group(1, 0), Group(3, 1)] && gs[..2][..1] == [Group(1, 0)] && gs[..1][..0] == [];
    assert RunsText(true, gs[..1]) == "a,";
    assert RunsText(true, gs[..2]) == "a,c,d,";
    assert RunsText(true, gs) == "a,c,d,f-i,";
  }

  lemma NumberRuns()
    ensures ListText([1, 3, 4, 6, 7, 8, 9]) == "1,3,4,6-9"
  {
    OneDigit(1);
    OneDigit(3);
    OneDigit(4);
    OneDigit(6);
    OneDigit(9);
    hide Number;
    RunsGroups();
    var gs := [Group(1, 0), Group(3, 1), Group(6, 3)];
    assert gs[..2] == [Group(1, 0), Group(3, 1)] && gs[..2][..1] == [Group(1, 0)] && gs[..1][..0] == [];
    assert GroupsText(gs[..1]) == "1,";
    assert GroupsText(gs[..2]) == "1,3,4,";
    assert GroupsText(gs) == "1,3,4,6-9,";
  }

  lemma OneDigit(n: nat)
    requires n < 10
    ensures Number(n) == ["0123456789"[n]]
  {
    var digits := "0123456789";
    assert forall k :: 0 <= k < 10 ==> digits[k] as int == '0' as int + k;
  }

  lemma RunsGroups()
    ensures Groups([1, 3, 4, 6, 7, 8, 9]) == [Group(1, 0), Group(3, 1), Group(6, 3)]
  {
    NoGroups();
    hide Groups, Extend;
    Starts([], 1);
    assert [] + [1] == [1] && Groups([1]) == [Group(1, 0)];
    Starts([1], 3);
    assert [1] + [3] == [1, 3];
    Goes([1, 3], [Group(1, 0)], Group(3, 0));
    assert [1, 3] + [4] == [1, 3, 4] && Groups([1, 3, 4]) == [Group(1, 0), Group(3, 1)];
    Starts([1, 3, 4], 6);
    assert [1, 3, 4] + [6] == [1, 3, 4, 6] && [1, 3, 4, 6] + [7] == [1, 3, 4, 6, 7];
    assert [1, 3, 4, 6, 7] + [8] == [1, 3, 4, 6, 7, 8] && [1, 3, 4, 6, 7, 8] + [9] == [1, 3, 4, 6, 7, 8, 9];
    Goes([1, 3, 4, 6], [Group(1, 0), Group(3, 1)], Group(6, 0));
    Goes([1, 3, 4, 6, 7], [Group(1, 0), Group(3, 1)], Group(6, 1));
    Goes([1, 3, 4, 6, 7, 8], [Group(1, 0), Group(3, 1)], Group(6, 2));
  }

  lemma NoGroups()
    ensures Groups([]) == []
  {
  }

  /** A number that begins a run. */
  lemma Starts(ns: seq<nat>, n: nat)
    requires var gs := Groups(ns); gs != [] ==> Next(gs[|gs| - 1]) != n
    ensures Groups(ns + [n]) == Groups(ns) + [Group(n, 0)]
  {
    hide Groups, Extend;
    GroupsSnoc(ns, n);
    ExtendNew(Groups(ns), n);
  }

  /** A number that continues the last one. */
  lemma Goes(ns: seq<nat>, gs: seq<Group>, g: Group)
    requires Groups(ns) == gs + [g]
    ensures Groups(ns + [Next(g)]) == gs + [Group(g.first, g.run + 1)]
  {
    hide Groups, Extend;
    GroupsSnoc(ns, Next(g));
    ExtendLast(gs, g);
  }

  /** With numbers the texts are those of cpulist_create(). */
  lemma {:induction false} RunsPlain(gs: seq<Group>)
    ensures RunsText(false, gs) == GroupsText(gs)
  {
    if gs != [] { RunsPlain(gs[..|gs| - 1]); }
  }

  /** The state that the callers of mk_string_list() keep: the buffer position and room, and the run being collected;
      `begin` is one more than its first number, 0 while there is none. */
  class ListMaker {
    const buf: array<char>
    const inchar: bool
    var ptr: nat
    var len: nat
    var begin: nat
    var run: nat
    /** the numbers fed so far, each plus one, and the size of the buffer */
    ghost var fed: seq<nat>
    ghost const size: nat

    ghost predicate Valid()
      reads this, buf
    {
      Collecting(inchar, buf[..], ptr, len, size, begin, run, fed, Groups(fed))
    }

    constructor (buf: array<char>, len: nat, inchar: bool)
      requires len <= buf.Length
      ensures Valid() && fed == [] && this.buf == buf && this.inchar == inchar && size == len
    {
      this.buf, this.inchar, this.len, size := buf, inchar, len, len;
      ptr, begin, run, fed := 0, 0, 0, [];
    }

    /** mk_string_list() with a number: extends the run, or prints the run before it. */
    method Feed(cur: nat) returns (ok: bool)
      requires Valid()
      modifies this`ptr, this`len, this`begin, this`run, this`fed, buf
      ensures ok <==> Continues(old(fed), cur + 1) || |RunsText(inchar, Groups(old(fed)))| + 1 <= size
      ensures ok ==> Valid() && fed == old(fed) + [cur + 1]
    {
      hide *;
      ghost var gs, more := Groups(fed), fed + [cur + 1];
      ValidParts();
      FedNext(inchar, buf[..], ptr, len, size, begin, run, fed, gs, cur);
      if begin == 0 {
        begin := cur + 1;
        fed := more;
        ValidIs();
        return true;
      }
      if begin + run == cur {
        run := run + 1;
        fed := more;
        ValidIs();
        return true;
      }
      ok := PrintRun();
      if !ok {
        return;
      }
      Begun(inchar, buf[..], ptr, len, size, cur + 1, more, gs);
      begin, run := cur + 1, 0;
      fed := more;
      ValidIs();
    }

    lemma ValidParts()
      requires Valid()
      ensures Collecting(inchar, buf[..], ptr, len, size, begin, run, fed, Groups(fed)) && ptr <= buf.Length
    {
    }

    lemma ValidIs()
      requires Collecting(inchar, buf[..], ptr, len, size, begin, run, fed, Groups(fed))
      ensures Valid()
    {
    }

    /** mk_string_list() with -1: prints the last run and removes the last comma. The empty list always fits; `outside`
        when not even its NUL does. */
    method Finish() returns (ok: bool, end: nat, outside: bool)
      requires Valid()
      modifies this`ptr, this`len, buf
      ensures ok <==> ListFits(RunsText(inchar, Groups(fed)), size)
      ensures outside <==> buf.Length == 0 && RunsText(inchar, Groups(fed)) == ""
      ensures ok && !outside ==> end < buf.Length && buf[..end] == RunsList(inchar, fed) && buf[end] == '\0'
    {
      hide *;
      ValidParts();
      Ended(inchar, buf[..], ptr, len, size, begin, run, fed, Groups(fed));
      if begin == 0 {
        if ptr >= buf.Length {
          return true, ptr, true;
        }
        buf[ptr] := '\0';
        assert buf[..ptr] == "";
        return true, ptr, false;
      }
      ok := PrintRun();
      outside := false;
      if !ok {
        return false, 0, false;
      }
      ghost var whole := buf[..ptr];
      end := ptr - 1;
      buf[end] := '\0';
      assert buf[..end] == whole[..end];
    }

    /** The three snprintf() formats for the collected run. */
    method PrintRun() returns (ok: bool)
      requires Valid() && begin > 0
      modifies this`ptr, this`len, buf
      ensures ok <==> |RunsText(inchar, Groups(fed))| + 1 <= size
      ensures ok ==>
        ptr + len == size <= buf.Length && len > 0 && ptr > 0 && buf[..ptr] == RunsText(inchar, Groups(fed))
    {
      hide *;
      ValidParts();
      RunThere(inchar, buf[..], ptr, len, size, begin, run, fed, Groups(fed));
      ghost var was := buf[..ptr];
      var rlen := Snprintf(buf, ptr, len, RunText(inchar, Group(begin, run)));
      if rlen + 1 > len {
        return false;
      }
      Joined(buf[..], ptr, rlen, was, RunText(inchar, Group(begin, run)));
      ptr, len := ptr + rlen, len - rlen;
      return true;
    }
  }

  /** The groups before the last are printed, the last one is `begin` and `run`. */
  ghost predicate Collecting(inchar: bool, b: seq<char>, ptr: nat, len: nat, size: nat, begin: nat, run: nat,
      fed: seq<nat>,
      gs: seq<Group>) {
    && size <= |b| && ptr + len == size && (begin == 0 <==> gs == []) && (gs == [] <==> fed == [])
    && (gs == [] ==> ptr == 0 && run == 0)
    && (gs != [] ==> gs[|gs| - 1] == Group(begin, run) && b[..ptr] == RunsText(inchar, gs[..|gs| - 1]))
    && (ptr > 0 ==> len > 0)
  }

  lemma FedNext(inchar: bool, b: seq<char>, ptr: nat, len: nat, size: nat, begin: nat, run: nat, fed: seq<nat>,
      gs: seq<Group>,
      cur: nat)
    requires Collecting(inchar, b, ptr, len, size, begin, run, fed, gs) && gs == Groups(fed)
    ensures begin == 0 || begin + run == cur <==> Continues(fed, cur + 1)
    ensures var more := Groups(fed + [cur + 1]);
      && (begin == 0 ==> Collecting(inchar, b, ptr, len, size, cur + 1, run, fed + [cur + 1], more))
      && (begin > 0 && begin + run == cur ==>
        Collecting(inchar, b, ptr, len, size, begin, run + 1, fed + [cur + 1], more))
      && (begin > 0 && begin + run != cur ==> more == gs + [Group(cur + 1, 0)])
  {
    hide Groups, RunText, RunsText;
    GroupsSnoc(fed, cur + 1);
    if begin == 0 {
      ExtendNew(gs, cur + 1);
      assert (gs + [Group(cur + 1, 0)])[..0] == [];
      NoText(inchar);
      assert b[..0] == "";
    } else if begin + run == cur {
      var l := |gs| - 1;
      assert gs[..l] + [gs[l]] == gs;
      ExtendLast(gs[..l], gs[l]);
      GrowLast(gs[..l], Group(begin, run + 1));
    } else {
      ExtendNew(gs, cur + 1);
    }
  }

  lemma NoText(inchar: bool)
    ensures RunsText(inchar, []) == ""
  {
  }

  lemma Begun(inchar: bool, b: seq<char>, ptr: nat, len: nat, size: nat, n: nat, more: seq<nat>, gs: seq<Group>)
    requires size <= |b| && ptr + len == size && len > 0 && n > 0 && more != []
    requires Groups(more) == gs + [Group(n, 0)] && b[..ptr] == RunsText(inchar, gs)
    ensures Collecting(inchar, b, ptr, len, size, n, 0, more, Groups(more))
  {
    hide Groups, RunsText;
    GrowLast(gs, Group(n, 0));
  }

  lemma RunThere(inchar: bool, b: seq<char>, ptr: nat, len: nat, size: nat, begin: nat, run: nat, fed: seq<nat>,
      gs: seq<Group>)
    requires Collecting(inchar, b, ptr, len, size, begin, run, fed, gs) && begin > 0
    ensures var t := RunText(inchar, Group(begin, run));
      |t| > 0 && ptr + len == size <= |b| && RunsText(inchar, gs) == b[..ptr] + t
  {
    assert |RunText(inchar, Group(begin, run))| > 0;
    hide RunText;
  }

  lemma Ended(inchar: bool, b: seq<char>, ptr: nat, len: nat, size: nat, begin: nat, run: nat, fed: seq<nat>,
      gs: seq<Group>)
    requires Collecting(inchar, b, ptr, len, size, begin, run, fed, gs) && gs == Groups(fed)
    ensures begin == 0 ==>
      ptr == 0 && ListFits(RunsText(inchar, gs), size) && RunsList(inchar, fed) == "" && RunsText(inchar, gs) == ""
    ensures begin > 0 ==>
      RunsText(inchar, gs) != "" && (ListFits(RunsText(inchar, gs), size) <==> |RunsText(inchar, gs)| + 1 <= size)
    ensures RunsList(inchar, fed) == if RunsText(inchar, gs) == "" then ""
      else RunsText(inchar, gs)[..|RunsText(inchar, gs)| - 1]
  {
    hide Groups, RunsText, RunText;
    if begin > 0 { RunThere(inchar, b, ptr, len, size, begin, run, fed, gs); } else { NoText(inchar); }
  }

  predicate Continues(ns: seq<nat>, n: nat) {
    var gs := Groups(ns);
    gs == [] || Next(gs[|gs| - 1]) == n
  }

  // ---------- the whole list ----------

  function Shifted(ns: seq<nat>): (r: seq<nat>)
    ensures |r| == |ns| && forall i :: 0 <= i < |ns| ==> r[i] == ns[i] + 1
  {
    if ns == [] then [] else Shifted(ns[..|ns| - 1]) + [ns[|ns| - 1] + 1]
  }

  /** Feeding the numbers one by one and then -1 gives the text of the list of numbers plus one, or fails exactly when
      that text does not fit. */
  method StringList(buf: array<char>, len: nat, nums: seq<nat>, inchar: bool)
      returns (ok: bool, end: nat, outside: bool)
    requires len <= buf.Length
    modifies buf
    ensures ok <==> ListFits(RunsText(inchar, Groups(Shifted(nums))), len)
    ensures outside <==> buf.Length == 0 && RunsText(inchar, Groups(Shifted(nums))) == ""
    ensures ok && !outside ==> end < buf.Length && buf[..end] == RunsList(inchar, Shifted(nums)) && buf[end] == '\0'
  {
    hide *;
    var m := new ListMaker(buf, len, inchar);
    assert Shifted(nums[..0]) == [];
    for i := 0 to |nums|
      invariant fresh(m) && m.buf == buf && m.inchar == inchar && m.size == len && m.Valid()
        && m.fed == Shifted(nums[..i])
    {
      ShiftedNext(nums, i);
      ghost var before := m.fed;
      ok := m.Feed(nums[i]);
      if !ok {
        ShiftedPrefix(nums, i);
        TextGrows(inchar, before, nums[i] + 1, Shifted(nums), i);
        NoFit(RunsText(inchar, Groups(Shifted(nums))), len, |RunsText(inchar, Groups(before))|);
        return false, 0, false;
      }
    }
    assert nums[..|nums|] == nums;
    ok, end, outside := m.Finish();
  }

  lemma NoFit(text: string, len: nat, n: nat)
    requires |text| >= n && n + 1 > len
    ensures |text| > 0 ==> !ListFits(text, len)
  {
  }

  lemma ShiftedNext(nums: seq<nat>, i: nat)
    requires i < |nums|
    ensures Shifted(nums[..i + 1]) == Shifted(nums[..i]) + [nums[i] + 1]
  {
    assert nums[..i + 1][..i] == nums[..i];
  }

  lemma ShiftedPrefix(nums: seq<nat>, i: nat)
    requires i < |nums|
    ensures Shifted(nums)[..i] == Shifted(nums[..i]) && Shifted(nums)[i] == nums[i] + 1
  {
    hide Shifted;
    var a, c := Shifted(nums)[..i], Shifted(nums[..i]);
    assert |a| == |c| && forall k :: 0 <= k < i ==> a[k] == c[k];
  }

  /** A printed run stays printed, whatever follows. */
  lemma TextGrows(inchar: bool, ns: seq<nat>, n: nat, all: seq<nat>, i: nat)
    requires i < |all| && all[..i] == ns && all[i] == n && !Continues(ns, n)
    ensures |RunsText(inchar, Groups(all))| >= |RunsText(inchar, Groups(ns))| > 0
  {
    hide *;
    NewRun(ns, n);
    OneFurther(all, i, ns, n);
    TextStays(inchar, Groups(ns), n, all, i, ns + [n]);
  }

  lemma OneFurther(all: seq<nat>, i: nat, ns: seq<nat>, n: nat)
    requires i < |all| && all[..i] == ns && all[i] == n
    ensures all[..i + 1] == ns + [n]
  {
  }

  lemma NewRun(ns: seq<nat>, n: nat)
    requires !Continues(ns, n)
    ensures Groups(ns) != [] && Groups(ns + [n]) == Groups(ns) + [Group(n, 0)]
  {
    hide Extend;
    NotContinued(ns, n);
    GroupsSnoc(ns, n);
    ExtendNew(Groups(ns), n);
  }

  lemma TextStays(inchar: bool, gs: seq<Group>, n: nat, all: seq<nat>, i: nat, more: seq<nat>)
    requires i < |all| && all[..i + 1] == more && gs != [] && Groups(more) == gs + [Group(n, 0)]
    ensures |RunsText(inchar, Groups(all))| >= |RunsText(inchar, gs)| > 0
  {
    PrefixKept(gs, all, i + 1, |all|);
    assert all[..|all|] == all;
    SomeText(inchar, gs);
    PrefixText(inchar, Groups(all), |gs|);
  }

  lemma NotContinued(ns: seq<nat>, n: nat)
    requires !Continues(ns, n)
    ensures var gs := Groups(ns); gs != [] && Next(gs[|gs| - 1]) != n
  {
    hide Groups;
  }

  lemma SomeText(inchar: bool, gs: seq<Group>)
    ensures gs != [] ==> RunsText(inchar, gs) != ""
  {
  }

  lemma {:induction false} PrefixKept(gs: seq<Group>, all: seq<nat>, i: nat, j: nat)
    requires i <= j <= |all| && |Groups(all[..i])| > |gs| && Groups(all[..i])[..|gs|] == gs
    ensures |Groups(all[..j])| > |gs| && Groups(all[..j])[..|gs|] == gs
    decreases j
  {
    if i < j {
      PrefixKept(gs, all, i, j - 1);
      PrefixStep(gs, all, j);
    }
  }

  lemma PrefixStep(gs: seq<Group>, all: seq<nat>, j: nat)
    requires 0 < j <= |all| && |Groups(all[..j - 1])| > |gs| && Groups(all[..j - 1])[..|gs|] == gs
    ensures |Groups(all[..j])| > |gs| && Groups(all[..j])[..|gs|] == gs
  {
    hide *;
    OneFurther(all, j - 1, all[..j - 1], all[j - 1]);
    GroupsSnoc(all[..j - 1], all[j - 1]);
    ExtendKeeps(gs, Groups(all[..j - 1]), all[j - 1]);
  }

  lemma ExtendKeeps(gs: seq<Group>, more: seq<Group>, n: nat)
    requires |more| > |gs| && more[..|gs|] == gs
    ensures |Extend(more, n)| > |gs| && Extend(more, n)[..|gs|] == gs
  {
  }

  lemma {:induction false} PrefixText(inchar: bool, gs: seq<Group>, k: nat)
    requires k <= |gs|
    ensures |RunsText(inchar, gs)| >= |RunsText(inchar, gs[..k])|
  {
    hide RunText;
    if k < |gs| {
      PrefixText(inchar, gs[..|gs| - 1], k);
      assert gs[..|gs| - 1][..k] == gs[..k];
    } else {
      assert gs[..k] == gs;
    }
  }

  /** The streaming form prints what cpulist_create() prints for the set shifted by one. */
  lemma SameList(b: seq<bool>)
    ensures var c := [false] + b; ListText(Members(c, |c|)) == RunsList(false, Shifted(Members(b, |b|)))
  {
    SameMembers(b, [false] + b);
    RunsPlain(Groups(Shifted(Members(b, |b|))));
  }

  lemma SameMembers(b: seq<bool>, c: seq<bool>)
    requires c == [false] + b
    ensures Members(c, |c|) == Shifted(Members(b, |b|))
  {
    hide *;
    assert |c| == |b| + 1 && forall k :: 0 <= k < |b| ==> c[k + 1] == b[k];
    MembersShifted(b, c, |b|);
  }

  lemma {:induction false} MembersShifted(b: seq<bool>, c: seq<bool>, i: nat)
    requires i <= |b| && |c| == |b| + 1 && !c[0] && forall k :: 0 <= k < |b| ==> c[k + 1] == b[k]
    ensures Members(c, i + 1) == Shifted(Members(b, i))
  {
    if i == 0 {
      assert Members(c, 0) == [];
    } else {
      MembersShifted(b, c, i - 1);
      ShiftedStep(b, c, i);
    }
  }

  lemma ShiftedStep(b: seq<bool>, c: seq<bool>, i: nat)
    requires 0 < i <= |b| && |c| == |b| + 1 && c[i] == b[i - 1] && Members(c, i) == Shifted(Members(b, i - 1))
    ensures Members(c, i + 1) == Shifted(Members(b, i))
  {
    hide Shifted;
    ShiftedSnoc(Members(b, i - 1), i - 1);
  }

  lemma ShiftedSnoc(ns: seq<nat>, n: nat)
    ensures Shifted(ns + [n]) == Shifted(ns) + [n + 1]
  {
    assert (ns + [n])[..|ns|] == ns;
  }
}
