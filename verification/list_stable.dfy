/** What `list_sort` must produce, as pure functions of the node sequence: a stable sort by insertion, and the merge
    of two runs that prefers its first argument on ties. */
module StableSorting {
  import opened ListHead

  type Cmp = (Node, Node) -> int

  ghost predicate Le(cmp: Cmp, a: Node, b: Node) { cmp(a, b) <= 0 }

  /** The contract of the callback: on the listed nodes, `<= 0` is total and transitive. */
  ghost predicate TotalPreorder(cmp: Cmp, s: seq<Node>) {
    && (forall x, y {:trigger Le(cmp, x, y)} :: x in s && y in s ==> Le(cmp, x, y) || Le(cmp, y, x))
    && (forall x, y, z {:trigger Le(cmp, x, y), Le(cmp, y, z)} ::
          x in s && y in s && z in s && Le(cmp, x, y) && Le(cmp, y, z) ==> Le(cmp, x, z))
  }

  ghost function Insert(cmp: Cmp, x: Node, s: seq<Node>): seq<Node> {
    if s == [] then [x]
    else if Le(cmp, x, s[0]) then [x] + s
    else [s[0]] + Insert(cmp, x, s[1..])
  }

  ghost function StableSort(cmp: Cmp, s: seq<Node>): seq<Node> {
    if s == [] then [] else Insert(cmp, s[0], StableSort(cmp, s[1..]))
  }

  ghost function Merged(cmp: Cmp, a: seq<Node>, b: seq<Node>): seq<Node>
    decreases |a| + |b|
  {
    if a == [] then b
    else if b == [] then a
    else if Le(cmp, a[0], b[0]) then [a[0]] + Merged(cmp, a[1..], b)
    else [b[0]] + Merged(cmp, a, b[1..])
  }

  /** The members equivalent to `x`, in order: two lists agree here for every `x` iff ties kept their order. */
  ghost function Ties(cmp: Cmp, x: Node, s: seq<Node>): seq<Node> {
    if s == [] then []
    else (if Le(cmp, x, s[0]) && Le(cmp, s[0], x) then [s[0]] else []) + Ties(cmp, x, s[1..])
  }

  ghost predicate Within(s: seq<Node>, dom: seq<Node>) {
    forall x :: x in s ==> x in dom
  }

  ghost predicate Sorted(cmp: Cmp, s: seq<Node>) {
    forall i, j :: 0 <= i < j < |s| ==> Le(cmp, s[i], s[j])
  }

  // ---------- membership ----------

  lemma {:induction false} InsertElements(cmp: Cmp, x: Node, s: seq<Node>)
    ensures multiset(Insert(cmp, x, s)) == multiset{x} + multiset(s)
  {
    if s != [] {
      assert s == [s[0]] + s[1..];
      if !Le(cmp, x, s[0]) { InsertElements(cmp, x, s[1..]); }
    }
  }

  /** Exactly the same nodes come out. */
  lemma {:induction false} SortElements(cmp: Cmp, s: seq<Node>)
    ensures multiset(StableSort(cmp, s)) == multiset(s)
    ensures |StableSort(cmp, s)| == |s|
    ensures forall x :: x in StableSort(cmp, s) <==> x in s
    ensures forall i :: 0 <= i < |s| ==> StableSort(cmp, s)[i] in s
  {
    if s != [] {
      assert s == [s[0]] + s[1..];
      SortElements(cmp, s[1..]);
      InsertElements(cmp, s[0], StableSort(cmp, s[1..]));
    }
    SameElements(StableSort(cmp, s), s);
  }

  lemma SameElements(a: seq<Node>, b: seq<Node>)
    requires multiset(a) == multiset(b)
    ensures |a| == |b| && forall x :: x in a <==> x in b
    ensures forall i :: 0 <= i < |a| ==> a[i] in b
    ensures Distinct(b) ==> Distinct(a)
  {
    assert |multiset(a)| == |multiset(b)|;
    forall x ensures x in a <==> x in b {
      assert x in a <==> x in multiset(a);
      assert x in b <==> x in multiset(b);
    }
    forall i | 0 <= i < |a| ensures a[i] in b { assert a[i] in multiset(a); }
    if Distinct(b) { DistinctCounts(b); DistinctFromCounts(a); }
  }

  lemma {:induction false} DistinctCounts(s: seq<Node>)
    requires Distinct(s)
    ensures forall x :: multiset(s)[x] <= 1
  {
    if s != [] {
      assert s == [s[0]] + s[1..];
      DistinctCounts(s[1..]);
      assert s[0] !in multiset(s[1..]);
    }
  }

  lemma {:induction false} DistinctFromCounts(s: seq<Node>)
    requires forall x :: multiset(s)[x] <= 1
    ensures Distinct(s)
  {
    if s != [] {
      assert s == [s[0]] + s[1..];
      assert multiset(s) == multiset{s[0]} + multiset(s[1..]);
      forall x ensures multiset(s[1..])[x] <= 1 { assert multiset(s)[x] <= 1; }
      DistinctFromCounts(s[1..]);
      assert multiset(s)[s[0]] <= 1;
      assert s[0] !in multiset(s[1..]);
      forall j | 1 <= j < |s| ensures s[j] != s[0] { assert s[j] in multiset(s[1..]) by { assert s[j] == s[1..][j - 1];
        } }
    }
  }

  lemma {:induction false} MergedElements(cmp: Cmp, a: seq<Node>, b: seq<Node>)
    ensures multiset(Merged(cmp, a, b)) == multiset(a) + multiset(b)
    decreases |a| + |b|
  {
    if a != [] && b != [] {
      assert a == [a[0]] + a[1..] && b == [b[0]] + b[1..];
      if Le(cmp, a[0], b[0]) { MergedElements(cmp, a[1..], b); } else { MergedElements(cmp, a, b[1..]); }
    }
  }

  // ---------- the sort is sorted and stable ----------

  lemma {:induction false} InsertSorted(cmp: Cmp, x: Node, s: seq<Node>, dom: seq<Node>)
    requires TotalPreorder(cmp, dom) && x in dom && Within(s, dom)
    requires Sorted(cmp, s)
    ensures Sorted(cmp, Insert(cmp, x, s))
  {
    if s == [] {
    } else if Le(cmp, x, s[0]) {
      forall k | 0 <= k < |s| ensures Le(cmp, x, s[k]) { assert Le(cmp, s[0], s[k]) || k == 0; }
    } else {
      InsertSorted(cmp, x, s[1..], dom);
      var t := Insert(cmp, x, s[1..]);
      InsertElements(cmp, x, s[1..]);
      forall k | 0 <= k < |t| ensures Le(cmp, s[0], t[k]) {
        assert t[k] in multiset(t);
        assert t[k] == x || t[k] in multiset(s[1..]);
      }
    }
  }

  /** The output is ordered by `cmp`. */
  lemma {:induction false} SortSorted(cmp: Cmp, s: seq<Node>, dom: seq<Node>)
    requires TotalPreorder(cmp, dom) && Within(s, dom)
    ensures Sorted(cmp, StableSort(cmp, s))
  {
    if s != [] {
      assert s[0] in s && Within(s[1..], dom) by { assert Within(s[1..], s); }
      SortSorted(cmp, s[1..], dom);
      SortElements(cmp, s[1..]);
      assert Within(StableSort(cmp, s[1..]), dom);
      InsertSorted(cmp, s[0], StableSort(cmp, s[1..]), dom);
    }
  }

  lemma {:induction false} InsertTies(cmp: Cmp, x: Node, y: Node, s: seq<Node>, dom: seq<Node>)
    requires TotalPreorder(cmp, dom) && x in dom && y in dom && Within(s, dom)
    ensures Ties(cmp, y, Insert(cmp, x, s)) == Ties(cmp, y, [x] + s)
  {
    if s == [] || Le(cmp, x, s[0]) {
    } else {
      InsertTies(cmp, x, y, s[1..], dom);
      var t := Insert(cmp, x, s[1..]);
      assert ([s[0]] + t)[1..] == t && ([x] + s[1..])[1..] == s[1..] && ([x] + s)[1..] == s;
      // x is strictly above s[0], so at most one of the two is tied with y
    }
  }

  /** Ties keep the order they had in the input. */
  lemma {:induction false} SortStable(cmp: Cmp, y: Node, s: seq<Node>, dom: seq<Node>)
    requires TotalPreorder(cmp, dom) && y in dom && Within(s, dom)
    ensures Ties(cmp, y, StableSort(cmp, s)) == Ties(cmp, y, s)
  {
    if s != [] {
      assert s[0] in s && Within(s[1..], dom) by { assert Within(s[1..], s); }
      SortStable(cmp, y, s[1..], dom);
      SortElements(cmp, s[1..]);
      var t := StableSort(cmp, s[1..]);
      assert Within(t, dom);
      InsertTies(cmp, s[0], y, t, dom);
      assert ([s[0]] + t)[1..] == t;
    }
  }

  // ---------- merging sorted runs sorts their concatenation ----------

  lemma {:induction false} MergedInsert(cmp: Cmp, x: Node, a: seq<Node>, b: seq<Node>, dom: seq<Node>)
    requires TotalPreorder(cmp, dom) && x in dom && Within(a, dom) && Within(b, dom)
    ensures Merged(cmp, Insert(cmp, x, a), b) == Insert(cmp, x, Merged(cmp, a, b))
    decreases |a| + |b|
  {
    if b == [] {
    } else if a == [] {
      if Le(cmp, x, b[0]) { assert [x][1..] == []; }
      else { MergedInsert(cmp, x, a, b[1..], dom); assert Merged(cmp, a, b[1..]) == b[1..]; }
    } else if Le(cmp, a[0], b[0]) {
      if Le(cmp, x, a[0]) { assert Insert(cmp, x, a)[1..] == a; }
      else {
        MergedInsert(cmp, x, a[1..], b, dom);
        assert Insert(cmp, x, a)[1..] == Insert(cmp, x, a[1..]);
        assert Merged(cmp, a, b)[1..] == Merged(cmp, a[1..], b);
      }
    } else {
      var ins := Insert(cmp, x, a);
      assert Merged(cmp, a, b)[1..] == Merged(cmp, a, b[1..]);
      if Le(cmp, x, b[0]) { assert ins[1..] == a; }
      else { MergedInsert(cmp, x, a, b[1..], dom); }
    }
  }

  /** The algebra behind every merge the sort performs: runs of adjacent segments merge into the run of both. */
  lemma {:induction false} MergedSorts(cmp: Cmp, s: seq<Node>, t: seq<Node>, dom: seq<Node>)
    requires TotalPreorder(cmp, dom) && Within(s, dom) && Within(t, dom)
    ensures Merged(cmp, StableSort(cmp, s), StableSort(cmp, t)) == StableSort(cmp, s + t)
  {
    if s == [] {
      assert s + t == t;
    } else {
      var x, ss, st := s[0], StableSort(cmp, s[1..]), StableSort(cmp, t);
      assert Within(s[1..], dom) && x in dom by { assert x in s && Within(s[1..], s); }
      MergedSorts(cmp, s[1..], t, dom);
      assert Within(ss, dom) && Within(st, dom) by { SortElements(cmp, s[1..]); SortElements(cmp, t); }
      calc {
        Merged(cmp, StableSort(cmp, s), st);
        Merged(cmp, Insert(cmp, x, ss), st);
        { MergedInsert(cmp, x, ss, st, dom); }
        Insert(cmp, x, Merged(cmp, ss, st));
        Insert(cmp, x, StableSort(cmp, s[1..] + t));
        { assert (s + t)[0] == x && (s + t)[1..] == s[1..] + t; }
        StableSort(cmp, s + t);
      }
    }
  }
}
