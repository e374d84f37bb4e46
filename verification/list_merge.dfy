/** `merge`, `merge_and_restore_back_links` and `list_sort` of include/list.h, on the heap. */
module ListMerge {
  import opened ListHead
  import opened StableSorting
  import opened SortCounter

  /** Every node of the older run goes before every node of the newer one. */
  ghost predicate AllLe(cmp: Cmp, a: seq<Node>, b: seq<Node>) {
    forall x, y {:trigger Le(cmp, x, y)} :: x in a && y in b ==> Le(cmp, x, y)
  }

  /** The part of a merge already linked: `head` and the nodes after it, ending in `tail`. */
  ghost predicate Linked(head: Node, done: seq<Node>, tail: Node)
    reads head, done
  {
    && head !in done && Distinct(done)
    && tail == Nth(head, done, |done|)
    && forall i {:trigger Nth(head, done, i).next} :: 0 <= i < |done| ==> Nth(head, done, i).next == done[i]
  }

  lemma LinkedChain(head: Node, done: seq<Node>, tail: Node, rest: seq<Node>)
    requires Linked(head, done, tail)
    requires Chain(tail.next, rest) && Apart(done, rest)
    ensures Chain(head.next, done + rest)
  {
    var t := done + rest;
    DistinctConcat(done, rest);
    forall i | 0 <= i < |t| ensures t[i].next == if i + 1 < |t| then t[i + 1] else null {
      if i + 1 < |done| { assert Nth(head, done, i + 1).next == done[i + 1]; }
    }
    if done != [] { assert Nth(head, done, 0).next == done[0]; }
  }

  lemma TailIsLast(head: Node, done: seq<Node>, tail: Node)
    requires Linked(head, done, tail)
    ensures tail == head || tail in done
    ensures forall i {:trigger Nth(head, done, i)} :: 0 <= i < |done| ==> Nth(head, done, i) != tail
  {
    forall i | 0 <= i < |done| ensures Nth(head, done, i) != tail {
      assert done[|done| - 1] in done;
      if i > 0 { assert done[i - 1] != done[|done| - 1]; }
    }
  }

  lemma ChainTail(p: Node, s: seq<Node>)
    requires Chain(p, s)
    ensures s != [] && p == s[0] && Chain(p.next, s[1..]) && p !in s[1..]
  {
    assert s[0].next == if 1 < |s| then s[1] else null;
  }

  lemma ChainNull(p: Node?, s: seq<Node>)
    requires Chain(p, s)
    ensures p == null <==> s == []
  {}

  lemma FrontIn(p: Node, s: seq<Node>, xs: seq<Node>)
    requires Chain(p, s) && Within(s, xs)
    ensures p in xs
  {
    assert s[0] in s;
  }

  /** How far a merge of `xs` and `ys` has come: `done` is linked, `ra` and `rb` are still to be merged. */
  ghost predicate Merging(cmp: Cmp, xs: seq<Node>, ys: seq<Node>, done: seq<Node>, ra: seq<Node>, rb: seq<Node>) {
    && Distinct(ra) && Distinct(rb) && Apart(ra, rb)
    && Apart(done, ra) && Apart(done, rb)
    && Within(done, xs + ys) && Within(ra, xs) && Within(rb, ys)
    && done + Merged(cmp, ra, rb) == Merged(cmp, xs, ys)
    && |done| + |ra| + |rb| == |xs| + |ys|
    && (AllLe(cmp, xs, ys) && ys != [] ==> rb == ys)
  }

  lemma MergingTakesFirst(cmp: Cmp, xs: seq<Node>, ys: seq<Node>, done: seq<Node>, ra: seq<Node>, rb: seq<Node>)
    requires Merging(cmp, xs, ys, done, ra, rb) && ra != [] && rb != [] && Le(cmp, ra[0], rb[0])
    ensures Merging(cmp, xs, ys, done + [ra[0]], ra[1..], rb)
    ensures ra[0] !in done && ra[0] !in ra[1..] && ra[0] !in rb
  {
    assert ra[0] in ra && ra[0] in xs + ys;
    assert done + ([ra[0]] + Merged(cmp, ra[1..], rb)) == done + [ra[0]] + Merged(cmp, ra[1..], rb);
  }

  lemma MergingTakesSecond(cmp: Cmp, xs: seq<Node>, ys: seq<Node>, done: seq<Node>, ra: seq<Node>, rb: seq<Node>)
    requires Merging(cmp, xs, ys, done, ra, rb) && ra != [] && rb != [] && !Le(cmp, ra[0], rb[0])
    ensures Merging(cmp, xs, ys, done + [rb[0]], ra, rb[1..])
    ensures rb[0] !in done && rb[0] !in rb[1..] && rb[0] !in ra
  {
    assert ra[0] in ra && rb[0] in rb && ra[0] in xs && rb[0] in ys && rb[0] in xs + ys;
    assert done + ([rb[0]] + Merged(cmp, ra, rb[1..])) == done + [rb[0]] + Merged(cmp, ra, rb[1..]);
  }

  /** `tail->next = x; x = x->next; tail = tail->next`: moves the front of run `rx` behind `done`;
      the other run `ro` is not touched. */
  method Hook(head: Node, tail: Node, x: Node, o: Node?, ghost done: seq<Node>, ghost rx: seq<Node>,
      ghost ro: seq<Node>)
    returns (rest: Node?)
    requires Linked(head, done, tail) && Chain(x, rx) && Chain(o, ro)
    requires head !in rx && head !in ro && Apart(done, rx) && Apart(done, ro)
    modifies tail`next
    ensures Linked(head, done + [x], x) && Chain(rest, rx[1..]) && Chain(o, ro)
    ensures x.next == rest && rx != [] && x == rx[0]
  {
    ChainTail(x, rx);
    assert x in rx;
    TailIsLast(head, done, tail);
    tail.next := x;
    rest := x.next;
    ghost var t := done + [x];
    forall i | 0 <= i < |t| ensures Nth(head, t, i).next == t[i] {
      if i < |done| { assert Nth(head, done, i).next == done[i]; }
    }
  }

  /** `tail->next = a ? a : b; return head.next`: hooks on a whole run. */
  method HookRest(head: Node, tail: Node, p: Node?, ghost done: seq<Node>, ghost rest: seq<Node>) returns (r: Node?)
    requires Linked(head, done, tail) && Chain(p, rest) && head !in rest && Apart(done, rest)
    modifies tail`next
    ensures Chain(r, done + rest)
  {
    TailIsLast(head, done, tail);
    tail.next := p;
    LinkedChain(head, done, tail, rest);
    r := head.next;
  }

  /** One round of the loop in merge(): the smaller front node moves behind `tail`, the first run winning ties. */
  method MergeStep(cmp: Cmp, head: Node, tail: Node, a: Node, b: Node,
                   ghost xs: seq<Node>, ghost ys: seq<Node>, ghost done: seq<Node>, ghost ra: seq<Node>,
                       ghost rb: seq<Node>)
    returns (x: Node, a': Node?, b': Node?, ghost ra': seq<Node>, ghost rb': seq<Node>)
    requires Linked(head, done, tail) && Chain(a, ra) && Chain(b, rb)
    requires Merging(cmp, xs, ys, done, ra, rb) && head !in ra && head !in rb
    modifies tail`next
    ensures Linked(head, done + [x], x) && Chain(a', ra') && Chain(b', rb')
    ensures Merging(cmp, xs, ys, done + [x], ra', rb')
    ensures |ra'| + |rb'| < |ra| + |rb|
    ensures (x in xs || x in ys) && head !in ra' && head !in rb'
    ensures (x == a || x == b) && x !in done && x != head && (ra' != [] || rb' != [])
  {
    assert a in ra && b in rb by { ChainTail(a, ra); ChainTail(b, rb); }
    if cmp(a, b) <= 0 {
      MergingTakesFirst(cmp, xs, ys, done, ra, rb);
      var rest := Hook(head, tail, a, b, done, ra, rb);
      x, a', b', ra', rb' := a, rest, b, ra[1..], rb;
    } else {
      MergingTakesSecond(cmp, xs, ys, done, ra, rb);
      var rest := Hook(head, tail, b, a, done, rb, ra);
      x, a', b', ra', rb' := b, a, rest, ra, rb[1..];
    }
  }

  lemma MergingEnds(cmp: Cmp, xs: seq<Node>, ys: seq<Node>, done: seq<Node>, ra: seq<Node>, rb: seq<Node>)
    requires Merging(cmp, xs, ys, done, ra, rb) && (ra == [] || rb == [])
    ensures ra == [] ==> done + rb == Merged(cmp, xs, ys) && |done| + |rb| == |xs| + |ys|
    ensures ra != [] ==> done + ra == Merged(cmp, xs, ys) && |done| + |ra| == |xs| + |ys|
    ensures Apart(done, ra) && Apart(done, rb) && |done| <= |xs| + |ys|
    ensures AllLe(cmp, xs, ys) && ys != [] ==> |done| == |xs|
    ensures forall x :: x in ra ==> x in xs
    ensures forall x :: x in rb ==> x in ys
  {
  }

  /** merge(): rounds until one run is exhausted, then the other is hooked on whole. `calls` counts the callbacks. */
  method Merge(cmp: Cmp, a0: Node?, b0: Node?, ghost xs: seq<Node>, ghost ys: seq<Node>)
    returns (r: Node?, ghost calls: nat)
    requires Chain(a0, xs) && Chain(b0, ys) && Apart(xs, ys)
    modifies xs, ys
    ensures Chain(r, Merged(cmp, xs, ys))
    ensures calls <= |xs| + |ys|
    ensures AllLe(cmp, xs, ys) && ys != [] ==> calls == |xs|
  {
    var head := new Node();
    var tail: Node := head;
    var a, b := a0, b0;
    calls := 0;
    ghost var done: seq<Node>, ra, rb := [], xs, ys;
    while a != null && b != null
      invariant Linked(head, done, tail) && Chain(a, ra) && Chain(b, rb)
      invariant Merging(cmp, xs, ys, done, ra, rb)
      invariant head !in ra && head !in rb
      invariant fresh(head) && (tail == head || tail in xs || tail in ys)
      invariant calls == |done|
      decreases |ra| + |rb|
    {
      calls := calls + 1;
      tail, a, b, ra, rb := MergeStep(cmp, head, tail, a, b, xs, ys, done, ra, rb);
      done := done + [tail];
    }
    ChainNull(a, ra);
    ChainNull(b, rb);
    MergingEnds(cmp, xs, ys, done, ra, rb);
    if a != null {
      r := HookRest(head, tail, a, done, ra);
    } else {
      r := HookRest(head, tail, b, done, rb);
    }
  }

  /** A merge in progress whose back links are in place as well. */
  ghost predicate LinkedBoth(head: Node, done: seq<Node>, tail: Node)
    reads head, done
  {
    Linked(head, done, tail) && forall i {:trigger done[i].prev} :: 0 <= i < |done| ==>
      done[i].prev == Nth(head, done, i)
  }

  /** `x->prev = tail` for the node just linked. */
  method SetBack(head: Node, tail: Node, x: Node, ghost done: seq<Node>)
    requires forall i {:trigger done[i].prev} :: 0 <= i < |done| ==> done[i].prev == Nth(head, done, i)
    requires Linked(head, done + [x], x) && tail == Nth(head, done, |done|)
    modifies x`prev
    ensures LinkedBoth(head, done + [x], x)
  {
    ghost var t := done + [x];
    assert x == t[|done|] && x != head;
    x.prev := tail;
    forall i | 0 <= i < |t| ensures t[i].prev == Nth(head, t, i) {
      if i < |done| { assert t[i] != t[|done|] && t[i] == done[i]; }
    }
  }

  /** One round of the loop in merge_and_restore_back_links(). */
  method MergeStepBoth(cmp: Cmp, head: Node, tail: Node, a: Node, b: Node,
                       ghost xs: seq<Node>, ghost ys: seq<Node>, ghost done: seq<Node>, ghost ra: seq<Node>,
                           ghost rb: seq<Node>)
    returns (x: Node, a': Node?, b': Node?, ghost ra': seq<Node>, ghost rb': seq<Node>)
    requires LinkedBoth(head, done, tail) && Chain(a, ra) && Chain(b, rb)
    requires Merging(cmp, xs, ys, done, ra, rb) && head !in ra && head !in rb
    modifies tail`next, a`prev, b`prev
    ensures LinkedBoth(head, done + [x], x) && Chain(a', ra') && Chain(b', rb')
    ensures Merging(cmp, xs, ys, done + [x], ra', rb')
    ensures |ra'| + |rb'| < |ra| + |rb| && (ra' != [] || rb' != [])
    ensures (x in xs || x in ys) && head !in ra' && head !in rb'
  {
    x, a', b', ra', rb' := MergeStep(cmp, head, tail, a, b, xs, ys, done, ra, rb);
    SetBack(head, tail, x, done);
  }

  /** Moves one left-over node behind `tail`, restoring its back link. */
  method RestoreStep(head: Node, tail: Node, x: Node, ghost done: seq<Node>, ghost rest: seq<Node>)
    requires LinkedBoth(head, done, tail) && Chain(x, rest) && tail.next == x
    requires Apart(done, rest) && head !in rest
    modifies x`prev
    ensures LinkedBoth(head, done + [x], x) && Chain(x.next, rest[1..])
    ensures x == rest[0] && Apart(done + [x], rest[1..])
  {
    ChainTail(x, rest);
    assert x in rest && x !in done;
    ghost var t := done + [x];
    assert Linked(head, t, x) by {
      forall i | 0 <= i < |t| ensures Nth(head, t, i).next == t[i] {
        if i < |done| { assert Nth(head, done, i).next == done[i]; }
      }
    }
    SetBack(head, tail, x, done);
  }

  /** `tail->next = head; head->prev = tail`. */
  method CloseRing(head: Node, tail: Node, ghost done: seq<Node>)
    requires LinkedBoth(head, done, tail) && done != []
    modifies head`prev, tail`next
    ensures Ring(head, done)
  {
    TailIsLast(head, done, tail);
    tail.next := head;
    head.prev := tail;
    forall i | 1 <= i <= |done| + 1 ensures Nth(head, done, i).prev == Nth(head, done, i - 1) {
      if i <= |done| { assert done[i - 1].prev == Nth(head, done, i - 1); }
    }
  }

  /** `tail->next = a ? a : b` before the closing loop. */
  method HookLeft(head: Node, tail: Node, p: Node?, ghost done: seq<Node>, ghost rest: seq<Node>)
    requires LinkedBoth(head, done, tail) && Chain(p, rest) && head !in rest && Apart(done, rest)
    modifies tail`next
    ensures LinkedBoth(head, done, tail) && Chain(tail.next, rest) && tail.next == p
  {
    TailIsLast(head, done, tail);
    tail.next := p;
  }

  lemma DistinctParts<T>(s: seq<T>, k: nat)
    requires Distinct(s) && k <= |s|
    ensures Apart(s[..k], s[k..])
  {
  }

  /** The closing do-while over the left-over run, one callback per node. `k` of the nodes `all` are linked on entry. */
  method RestoreRest(head: Node, tail0: Node, ghost all: seq<Node>, ghost k: nat)
    returns (ghost calls: nat)
    requires Distinct(all) && head !in all && k < |all|
    requires LinkedBoth(head, all[..k], tail0) && Chain(tail0.next, all[k..])
    modifies head, tail0, all[k..]
    ensures Ring(head, all) && calls == |all| - k
  {
    calls := 0;
    var tail := tail0;
    ghost var i := k;
    while tail.next != null
      invariant k <= i <= |all| && calls == i - k
      invariant LinkedBoth(head, all[..i], tail) && Chain(tail.next, all[i..])
      invariant tail == if i == k then tail0 else all[k..][i - k - 1]
      decreases |all| - i
    {
      calls := calls + 1;
      var x: Node := tail.next;
      assert x == all[i..][0] == all[k..][i - k];
      DistinctParts(all, i);
      RestoreStep(head, tail, x, all[..i], all[i..]);
      assert all[..i] + [x] == all[..i + 1] && all[i..][1..] == all[i + 1..];
      tail, i := x, i + 1;
    }
    assert all[..i] == all;
    TailIsLast(head, all, tail);
    CloseRing(head, tail, all);
  }

  method FinishRing(head: Node, tail: Node, p: Node?, ghost done: seq<Node>, ghost rest: seq<Node>)
    returns (ghost calls: nat)
    requires LinkedBoth(head, done, tail) && Chain(p, rest) && head !in rest && Apart(done, rest) && rest != []
    modifies head, tail, rest
    ensures Ring(head, done + rest) && calls == |rest|
  {
    TailIsLast(head, done, tail);
    HookLeft(head, tail, p, done, rest);
    ghost var all := done + rest;
    DistinctConcat(done, rest);
    assert all[..|done|] == done && all[|done|..] == rest;
    calls := RestoreRest(head, tail, all, |done|);
  }

  /** The comparing loop of merge_and_restore_back_links(): `p` starts the run that is left over. */
  method MergeFront(cmp: Cmp, head: Node, a0: Node?, b0: Node?, ghost xs: seq<Node>, ghost ys: seq<Node>)
    returns (tail: Node, p: Node?, ghost done: seq<Node>, ghost rest: seq<Node>, ghost calls: nat)
    requires Chain(a0, xs) && Chain(b0, ys) && Apart(xs, ys) && xs != []
    requires head !in xs && head !in ys
    modifies head, xs, ys
    ensures LinkedBoth(head, done, tail) && Chain(p, rest) && Apart(done, rest) && rest != [] && head !in rest
    ensures done + rest == Merged(cmp, xs, ys) && |done| + |rest| == |xs| + |ys| && calls == |done|
    ensures tail == head || tail in xs || tail in ys
    ensures forall i :: 0 <= i < |rest| ==> rest[i] in xs || rest[i] in ys
  {
    tail := head;
    var a, b := a0, b0;
    ghost var ra, rb := xs, ys;
    done, calls := [], 0;
    while a != null && b != null
      invariant LinkedBoth(head, done, tail) && Chain(a, ra) && Chain(b, rb)
      invariant Merging(cmp, xs, ys, done, ra, rb)
      invariant head !in ra && head !in rb && (ra != [] || rb != [])
      invariant tail == head || tail in xs || tail in ys
      invariant calls == |done|
      decreases |ra| + |rb|
    {
      calls := calls + 1;
      FrontIn(a, ra, xs);
      FrontIn(b, rb, ys);
      tail, a, b, ra, rb := MergeStepBoth(cmp, head, tail, a, b, xs, ys, done, ra, rb);
      done := done + [tail];
    }
    ChainNull(a, ra);
    ChainNull(b, rb);
    MergingEnds(cmp, xs, ys, done, ra, rb);
    p := if a != null then a else b;
    rest := if a != null then ra else rb;
  }

  /** merge_and_restore_back_links(): the last merge, which also closes the ring. It calls back once per node. */
  method MergeAndRestoreBackLinks(cmp: Cmp, head: Node, a: Node?, b: Node?, ghost xs: seq<Node>, ghost ys: seq<Node>)
    returns (ghost calls: nat)
    requires Chain(a, xs) && Chain(b, ys) && Apart(xs, ys) && xs != []
    requires head !in xs && head !in ys
    modifies head, xs, ys
    ensures Ring(head, Merged(cmp, xs, ys))
    ensures calls == |xs| + |ys|
  {
    ghost var done, rest, more;
    var tail, p;
    tail, p, done, rest, calls := MergeFront(cmp, head, a, b, xs, ys);
    more := FinishRing(head, tail, p, done, rest);
    calls := calls + more;
  }
}
