/** `list_sort` of include/list.h: the bottom-up merge sort with its 20 partial lists. */
module ListSort {
  import opened ListHead
  import opened StableSorting
  import opened Arith
  import opened SortCounter
  import opened ListMerge
  import opened ListRing

  /** The consumed nodes that level `l` holds. */
  ghost function Segment(s: seq<Node>, n: nat, l: nat): seq<Node>
    requires n <= |s|
  {
    BoundMonotone(n, l, l + 1);
    s[Bound(n, l + 1)..Bound(n, l)]
  }

  /** A null-terminated run holding the stable sort of `seg`, a part of the ring's members `s`. */
  ghost predicate Run(cmp: Cmp, p: Node?, s: seq<Node>, seg: seq<Node>)
    reads s
  {
    var t := StableSort(cmp, seg);
    (forall i :: 0 <= i < |t| ==> t[i] in s) && Chain(p, t)
  }

  /** part[] after `n` nodes, from level `low` up: each level is the stable sort of its own segment. */
  ghost predicate Parts(cmp: Cmp, part: array<Node?>, s: seq<Node>, n: nat, low: nat)
    reads part, s
  {
    && part.Length == SLOTS && n <= |s| && Distinct(s)
    && (forall l :: low <= l < SLOTS ==> Run(cmp, part[l], s, Segment(s, n, l)))
  }

  lemma NullRun(cmp: Cmp, s: seq<Node>)
    ensures StableSort(cmp, []) == [] && Run(cmp, null, s, [])
  {
  }

  lemma RunEmpty(cmp: Cmp, p: Node?, s: seq<Node>, seg: seq<Node>)
    requires Run(cmp, p, s, seg)
    ensures p == null <==> seg == []
  {
    SortElements(cmp, seg);
    ChainNull(p, StableSort(cmp, seg));
  }

  /** The run of a slice holds that slice's nodes and no others. */
  lemma SliceRun(cmp: Cmp, s: seq<Node>, i: nat, j: nat)
    requires i <= j <= |s|
    ensures |StableSort(cmp, s[i..j])| == j - i
    ensures forall q :: 0 <= q < j - i ==> StableSort(cmp, s[i..j])[q] in s[i..j] && StableSort(cmp, s[i..j])[q] in s
    ensures Distinct(s) ==> Distinct(StableSort(cmp, s[i..j]))
  {
    var t := StableSort(cmp, s[i..j]);
    SortElements(cmp, s[i..j]);
    SameElements(t, s[i..j]);
    assert forall x :: x in s[i..j] ==> x in s;
    forall q | 0 <= q < j - i ensures t[q] in s { assert t[q] in s[i..j]; }
  }

  /** The binary-counter invariant: below 2^20 consumed nodes, part[l] is non-empty exactly when bit l of the
      count is set, and then holds the stable sort of 2^l consecutive input nodes. */
  lemma PartsAreBits(cmp: Cmp, part: array<Node?>, s: seq<Node>, n: nat, l: nat)
    requires Parts(cmp, part, s, n, 0) && n < 0x10_0000 && l <= TOP
    ensures part[l] != null <==> Shr(n, l) % 2 == 1
    ensures part[l] != null ==> |Segment(s, n, l)| == Pow2(l) && Chain(part[l], StableSort(cmp, Segment(s, n, l)))
  {
    Pow2Top();
    LevelIsBit(n, l);
    BoundMonotone(n, l, l + 1);
    assert Run(cmp, part[l], s, Segment(s, n, l));
    RunEmpty(cmp, part[l], s, Segment(s, n, l));
  }

  /** Runs of disjoint slices share no node. */
  lemma SlicesApart(cmp: Cmp, s: seq<Node>, i: nat, j: nat, k: nat, m: nat)
    requires Distinct(s) && i <= j <= k <= m <= |s|
    ensures Apart(StableSort(cmp, s[i..j]), StableSort(cmp, s[k..m]))
  {
    SortElements(cmp, s[i..j]);
    SortElements(cmp, s[k..m]);
    assert Apart(s[i..j], s[k..m]);
  }

  /** merge() on two adjacent segments: the result is the run of both. */
  method MergeRuns(cmp: Cmp, a: Node?, b: Node?, ghost s: seq<Node>, ghost i: nat, ghost j: nat, ghost k: nat)
    returns (r: Node?, ghost calls: nat)
    requires Distinct(s) && i <= j <= k <= |s| && TotalPreorder(cmp, s)
    requires Run(cmp, a, s, s[i..j]) && Run(cmp, b, s, s[j..k])
    modifies s[i..k]
    ensures Run(cmp, r, s, s[i..k])
    ensures calls <= k - i
    ensures AllLe(cmp, s, s) && j < k ==> calls == j - i
  {
    hide StableSort;
    ghost var xs, ys := StableSort(cmp, s[i..j]), StableSort(cmp, s[j..k]);
    MergeRunsFacts(cmp, s, i, j, k);
    r, calls := Merge(cmp, a, b, xs, ys);
  }

  lemma MergeRunsFacts(cmp: Cmp, s: seq<Node>, i: nat, j: nat, k: nat)
    requires Distinct(s) && i <= j <= k <= |s| && TotalPreorder(cmp, s)
    ensures var xs, ys := StableSort(cmp, s[i..j]), StableSort(cmp, s[j..k]);
      && |xs| == j - i && |ys| == k - j && Apart(xs, ys)
      && (forall q :: 0 <= q < |xs| ==> xs[q] in s[i..k])
      && (forall q :: 0 <= q < |ys| ==> ys[q] in s[i..k])
      && Merged(cmp, xs, ys) == StableSort(cmp, s[i..k])
      && (AllLe(cmp, s, s) ==> AllLe(cmp, xs, ys))
    ensures forall q :: 0 <= q < |StableSort(cmp, s[i..k])| ==> StableSort(cmp, s[i..k])[q] in s
  {
    SlicesApart(cmp, s, i, j, j, k);
    SliceRun(cmp, s, i, j);
    SliceRun(cmp, s, j, k);
    SliceRun(cmp, s, i, k);
    var xs, ys := StableSort(cmp, s[i..j]), StableSort(cmp, s[j..k]);
    assert s[i..j] + s[j..k] == s[i..k];
    assert forall q :: 0 <= q < |xs| ==> xs[q] in s[i..j] + s[j..k];
    assert forall q :: 0 <= q < |ys| ==> ys[q] in s[i..j] + s[j..k];
    MergedSorts(cmp, s[i..j], s[j..k], s);
  }

  /** The runs of levels above `lev` use none of the nodes consumed since. */
  lemma LevelsApart(cmp: Cmp, s: seq<Node>, n: nat, lev: nat, hi: nat, l: nat)
    requires Distinct(s) && lev < l && n <= |s| && Bound(n, lev + 1) <= hi <= |s|
    ensures forall q :: 0 <= q < |StableSort(cmp, Segment(s, n, l))| ==>
      StableSort(cmp, Segment(s, n, l))[q] !in s[Bound(n, lev + 1)..hi]
  {
    BoundMonotone(n, lev + 1, l);
    BoundMonotone(n, l, l + 1);
    SliceRun(cmp, s, Bound(n, l + 1), Bound(n, l));
    assert Apart(s[Bound(n, l + 1)..Bound(n, l)], s[Bound(n, lev + 1)..hi]);
  }

  /** `merge(part[lev], cur)` with the run `cur` of everything after the level's segment; the other levels keep
      their runs. */
  method MergeLevel(cmp: Cmp, part: array<Node?>, cur: Node?, lev: nat, ghost s: seq<Node>, ghost n: nat, ghost hi: nat)
    returns (up: Node, ghost calls: nat)
    requires TotalPreorder(cmp, s) && n <= hi <= |s| && lev < SLOTS
    requires Parts(cmp, part, s, n, lev) && part[lev] != null
    requires Run(cmp, cur, s, s[Bound(n, lev)..hi])
    modifies s[Bound(n, lev + 1)..hi]
    ensures Occupied(n, lev)
    ensures Parts(cmp, part, s, n, lev + 1)
    ensures Run(cmp, up, s, s[Bound(n, lev + 1)..hi])
    ensures calls <= hi - Bound(n, lev + 1)
    ensures AllLe(cmp, s, s) && Bound(n, lev) < hi ==> calls == Bound(n, lev) - Bound(n, lev + 1)
  {
    hide StableSort;
    ghost var i, j := Bound(n, lev + 1), Bound(n, lev);
    BoundMonotone(n, lev, lev + 1);
    RunEmpty(cmp, part[lev], s, Segment(s, n, lev));
    forall l | lev < l < SLOTS
      ensures forall q :: 0 <= q < |StableSort(cmp, Segment(s, n, l))| ==>
        StableSort(cmp, Segment(s, n, l))[q] !in s[i..hi]
    {
      LevelsApart(cmp, s, n, lev, hi, l);
    }
    var merged;
    merged, calls := MergeRuns(cmp, part[lev], cur, s, i, j, hi);
    RunEmpty(cmp, merged, s, s[i..hi]);
    forall l | lev + 1 <= l < SLOTS ensures Run(cmp, part[l], s, Segment(s, n, l)) {
      assert old(Run(cmp, part[l], s, Segment(s, n, l)));
    }
    up := merged;
  }

  /** The carry has reached its slot: putting the run there is the counter step from `n` to `m`. */
  lemma CarryLevels(cmp: Cmp, s: seq<Node>, n: nat, m: nat, lev: nat, slot: nat)
    requires m == n + 1 <= |s| && lev < SLOTS && slot == (if lev <= TOP then lev else TOP)
    requires forall k :: 0 <= k < lev ==> Occupied(n, k)
    requires !Occupied(n, lev)
    ensures Full(n, slot)
    ensures forall l: nat :: l < slot ==> Segment(s, m, l) == []
    ensures Segment(s, m, slot) == s[Bound(n, lev)..m]
    ensures forall l: nat :: slot < l ==> Segment(s, m, l) == Segment(s, n, l)
  {
    hide Bound, Full;
    FullBelow(n, slot);
    BoundMonotone(n, lev, lev + 1);
    BoundCarry(n, slot, slot);
    BoundCarry(n, slot, slot + 1);
    forall l: nat | l < slot ensures Segment(s, m, l) == [] {
      BoundCarry(n, slot, l);
      BoundCarry(n, slot, l + 1);
    }
    forall l: nat | slot < l ensures Segment(s, m, l) == Segment(s, n, l) {
      BoundCarry(n, slot, l);
      BoundCarry(n, slot, l + 1);
    }
  }

  /** What the callbacks of the first `n` nodes have cost so far, from above and, when older runs always win, from
      below. */
  ghost predicate CostSoFar(allLe: bool, n: nat, calls: nat) {
    && calls <= SumBound(n, TOP) + Overflow(Blocks(n))
    && (allLe ==> calls >= OverflowLow(Blocks(n)))
  }

  /** A carry that stays below the overflow. */
  lemma CarryCosts(allLe: bool, n: nat, lev: nat, before: nat, calls: nat)
    requires lev <= TOP && Full(n, lev) && !Occupied(n, lev)
    requires CostSoFar(allLe, n, before) && calls <= CarryCost(n, lev)
    ensures CostSoFar(allLe, n + 1, before + calls)
  {
    hide *;
    NoTopCarry(n, lev);
    SumBoundCarry(n, lev, TOP);
    BlocksCarry(n);
    SameBlocks(allLe, n, before, calls, CarryCost(n, lev));
  }

  /** A carry that ends at a free level leaves the top level as it is. */
  lemma NoTopCarry(n: nat, lev: nat)
    requires lev <= TOP && Full(n, lev) && !Occupied(n, lev)
    ensures Full(n, TOP) ==> lev == TOP && Blocks(n) == 0
  {
    if lev < TOP {
      ClearStep(n, lev);
      if Full(n, TOP) { FullDown(n, lev + 1, TOP); }
    } else {
      BoundMonotone(n, lev, lev + 1);
      TopBlocks(n);
    }
  }

  lemma SameBlocks(allLe: bool, n: nat, before: nat, calls: nat, cost: nat)
    requires CostSoFar(allLe, n, before) && calls <= cost
    requires SumBound(n + 1, TOP) == SumBound(n, TOP) + cost
    requires Blocks(n + 1) == Blocks(n) || (Blocks(n + 1) == 1 && Blocks(n) == 0)
    ensures CostSoFar(allLe, n + 1, before + calls)
  {
    hide SumBound, Blocks;
  }

  /** A carry out of the top level: the whole consumed prefix is merged once more. */
  lemma OverflowCosts(allLe: bool, n: nat, before: nat, calls: nat)
    requires Full(n, TOP) && Bound(n, TOP) > 0
    requires CostSoFar(allLe, n, before)
    requires calls <= CarryCost(n, TOP) + n + 1 && (allLe ==> calls >= Bound(n, TOP))
    ensures CostSoFar(allLe, n + 1, before + calls)
  {
    SumBoundCarry(n, TOP, TOP);
    BlocksCarry(n);
    TopBlocks(n);
    TopBlocks(n + 1);
    ClearSucc(n, TOP);
    assert n + 1 == Blocks(n + 1) * BLOCK;
  }

  lemma MaxLevUnique(n: nat, m: nat)
    requires n > 0 && m <= TOP && Bound(n, m) > 0 && forall k :: k > m ==> Bound(n, k) == 0
    ensures MaxLev(n) == m
  {
    BoundAboveMax(n, m);
    BoundAboveMax(n, MaxLev(n));
  }

  /** max_lev is always the highest occupied level. */
  lemma MaxLevStep(n: nat, m: nat, lev: nat, slot: nat, maxLev: nat)
    requires m == n + 1 && lev < SLOTS && slot == (if lev <= TOP then lev else TOP)
    requires Full(n, slot) && !Occupied(n, lev)
    requires maxLev == if n == 0 then 0 else MaxLev(n)
    ensures MaxLev(m) == if lev > maxLev then slot else maxLev
  {
    forall k: nat ensures Bound(m, k) == if k <= slot then n + 1 else Bound(n, k) { BoundCarry(n, slot, k); }
    forall k: nat | k > maxLev ensures Bound(n, k) == 0 { if n > 0 { BoundAboveMax(n, k); } }
    if n > 0 { BoundAboveMax(n, maxLev); }
    MaxLevUnique(m, if lev > maxLev then slot else maxLev);
  }

  /** The levels below `lev` were full, and merging them cost no more than the nodes moved. */
  ghost predicate Climbed(allLe: bool, n: nat, lev: nat, calls: nat) {
    && (forall k :: 0 <= k < lev ==> Occupied(n, k))
    && calls <= CarryCost(n, lev)
    && (allLe && lev > TOP ==> calls >= Bound(n, TOP))
  }

  lemma ClimbedOne(allLe: bool, n: nat, lev: nat, calls: nat, more: nat)
    requires Climbed(allLe, n, lev, calls) && Occupied(n, lev) && lev <= TOP
    requires more <= n + 1 - Bound(n, lev + 1)
    requires allLe ==> more == Bound(n, lev) - Bound(n, lev + 1)
    ensures Climbed(allLe, n, lev + 1, calls + more)
  {
  }

  /** A carry in progress: `cur` is the run of everything from the levels below `lev` plus the new node. */
  ghost predicate Carrying(cmp: Cmp, part: array<Node?>, cur: Node, lev: nat, s: seq<Node>, n: nat, calls: nat)
    reads part, s
  {
    && n < |s| && lev < SLOTS && Parts(cmp, part, s, n, lev)
    && Run(cmp, cur, s, s[Bound(n, lev)..n + 1])
    && (forall k :: 0 <= k < lev ==> part[k] == null)
    && Climbed(AllLe(cmp, s, s), n, lev, calls)
  }

  /** One round of the carry: level `lev` joins the climbing run and is emptied. */
  method Climb(cmp: Cmp, part: array<Node?>, cur: Node, lev: nat, ghost s: seq<Node>, ghost n: nat, ghost before: nat)
    returns (up: Node, ghost calls: nat)
    requires TotalPreorder(cmp, s) && Carrying(cmp, part, cur, lev, s, n, before) && part[lev] != null
    modifies part, s[..n + 1]
    ensures Carrying(cmp, part, up, lev + 1, s, n, calls)
  {
    hide StableSort, Climbed, Run, Segment, AllLe, Distinct;
    BoundMonotone(n, lev, lev + 1);
    assert s[Bound(n, lev + 1)..n + 1] == s[..n + 1][Bound(n, lev + 1)..];
    ghost var more;
    up, more := MergeLevel(cmp, part, cur, lev, s, n, n + 1);
    calls := before + more;
    ClimbedOne(AllLe(cmp, s, s), n, lev, before, more);
    part[lev] := null;
    forall l | lev + 1 <= l < SLOTS ensures Run(cmp, part[l], s, Segment(s, n, l)) {
      assert old(part[l]) == part[l];
    }
  }

  /** `for (lev = 0; part[lev]; lev++)`: the node climbs over the full levels, emptying them. */
  method Carry(cmp: Cmp, part: array<Node?>, node: Node, ghost s: seq<Node>, ghost n: nat)
    returns (cur: Node, lev: nat, ghost calls: nat)
    requires TotalPreorder(cmp, s) && n < |s| && Parts(cmp, part, s, n, 0)
    requires Run(cmp, node, s, s[n..n + 1])
    modifies part, s[..n + 1]
    ensures Carrying(cmp, part, cur, lev, s, n, calls) && part[lev] == null && !Occupied(n, lev)
    ensures part.Length == SLOTS && lev < SLOTS && Climbed(AllLe(cmp, s, s), n, lev, calls)
  {
    hide StableSort;
    cur := node;
    lev := 0;
    calls := 0;
    while part[lev] != null
      invariant Carrying(cmp, part, cur, lev, s, n, calls)
      decreases SLOTS - lev
    {
      cur, calls := Climb(cmp, part, cur, lev, s, n, calls);
      lev := lev + 1;
    }
    RunEmpty(cmp, part[lev], s, Segment(s, n, lev));
  }

  /** `part[lev] = cur`: the levels of `n + 1` nodes. */
  method Place(cmp: Cmp, part: array<Node?>, cur: Node, lev: nat, slot: nat, ghost s: seq<Node>, ghost n: nat,
      ghost m: nat, ghost calls: nat)
    requires Carrying(cmp, part, cur, lev, s, n, calls) && part[lev] == null && !Occupied(n, lev)
    requires m == n + 1 && slot == (if lev <= TOP then lev else TOP)
    modifies part
    ensures Parts(cmp, part, s, m, 0)
  {
    hide StableSort, Run, Segment, Occupied, CarryCost;
    NullRun(cmp, s);
    CarryLevels(cmp, s, n, m, lev, slot);
    part[slot] := cur;
    forall l | 0 <= l < SLOTS ensures Run(cmp, part[l], s, Segment(s, m, l)) {
      if l > slot { assert old(Run(cmp, part[l], s, Segment(s, n, l))); }
    }
  }

  /** The cost of the counter after one more node. */
  lemma CounterCost(allLe: bool, n: nat, lev: nat, before: nat, calls: nat)
    requires lev < SLOTS && !Occupied(n, lev) && Climbed(allLe, n, lev, calls)
    requires CostSoFar(allLe, n, before)
    ensures CostSoFar(allLe, n + 1, before + calls)
  {
    if lev <= TOP {
      FullBelow(n, lev);
      hide CostSoFar;
      CarryCosts(allLe, n, lev, before, calls);
    } else {
      FullBelow(n, TOP);
      assert Occupied(n, TOP);
      hide CostSoFar;
      OverflowCosts(allLe, n, before, calls);
    }
  }

  /** The top level of the counter after one more node. */
  lemma CounterTop(allLe: bool, n: nat, lev: nat, maxLev: nat, calls: nat)
    requires lev < SLOTS && !Occupied(n, lev) && Climbed(allLe, n, lev, calls)
    requires maxLev == if n == 0 then 0 else MaxLev(n)
    ensures MaxLev(n + 1) == if lev <= maxLev then maxLev else if lev <= TOP then lev else TOP
    ensures maxLev <= TOP
  {
    var slot := if lev <= TOP then lev else TOP;
    FullBelow(n, slot);
    MaxLevStep(n, n + 1, lev, slot, maxLev);
  }

  /** The body of the consuming loop: node `n` is carried into part[], emptying the full levels below its slot. */
  method Consume(cmp: Cmp, part: array<Node?>, node: Node, maxLev: nat, ghost s: seq<Node>, ghost n: nat,
      ghost before: nat)
    returns (maxLev': nat, ghost calls: nat)
    requires TotalPreorder(cmp, s) && n < |s| && Parts(cmp, part, s, n, 0)
    requires Run(cmp, node, s, s[n..n + 1])
    requires maxLev == if n == 0 then 0 else MaxLev(n)
    requires CostSoFar(AllLe(cmp, s, s), n, before)
    modifies part, s[..n + 1]
    ensures Parts(cmp, part, s, n + 1, 0)
    ensures maxLev' == MaxLev(n + 1)
    ensures CostSoFar(AllLe(cmp, s, s), n + 1, calls)
  {
    hide StableSort, Climbed, Parts, Carrying, Run, CostSoFar, MaxLev, Occupied;
    var cur, lev;
    ghost var more;
    cur, lev, more := Carry(cmp, part, node, s, n);
    CounterCost(AllLe(cmp, s, s), n, lev, before, more);
    CounterTop(AllLe(cmp, s, s), n, lev, maxLev, more);
    calls := before + more;
    maxLev' := maxLev;
    var at := lev;
    if lev > maxLev {
      if lev >= part.Length - 1 {
        at := lev - 1;
      }
      maxLev' := at;
    }
    Place(cmp, part, cur, lev, at, s, n, n + 1, more);
  }

  /** What is left of the input list once `n` nodes are consumed. */
  ghost predicate Rest(list: Node?, s: seq<Node>, n: nat)
    reads s
  {
    n <= |s| && list == (if n < |s| then s[n] else null)
    && forall i {:trigger s[i].next} :: n <= i < |s| ==> s[i].next == if i + 1 < |s| then s[i + 1] else null
  }

  /** `if (part[lev]) list = merge(part[lev], list)`. */
  method CollapseLevel(cmp: Cmp, part: array<Node?>, list0: Node?, lev: nat, ghost s: seq<Node>)
    returns (list: Node?, ghost calls: nat)
    requires TotalPreorder(cmp, s) && lev < TOP && Parts(cmp, part, s, |s|, lev)
    requires Run(cmp, list0, s, s[Bound(|s|, lev)..|s|])
    modifies s
    ensures Parts(cmp, part, s, |s|, lev + 1)
    ensures Run(cmp, list, s, s[Bound(|s|, lev + 1)..|s|])
    ensures calls < Pow2(lev + 1)
  {
    hide StableSort;
    ghost var n := |s|;
    RunEmpty(cmp, part[lev], s, Segment(s, n, lev));
    BoundMonotone(n, lev, lev + 1);
    list, calls := list0, 0;
    if part[lev] != null {
      list, calls := MergeLevel(cmp, part, list, lev, s, n, n);
      ClearStep(n, lev);
    }
  }

  /** The closing merges: everything below the top level joins into one run. */
  method Collapse(cmp: Cmp, part: array<Node?>, maxLev: nat, ghost s: seq<Node>)
    returns (list: Node?, ghost calls: nat)
    requires TotalPreorder(cmp, s) && s != [] && Parts(cmp, part, s, |s|, 0)
    requires maxLev == MaxLev(|s|)
    modifies s
    ensures maxLev < part.Length && Run(cmp, list, s, s[Bound(|s|, maxLev)..|s|])
    ensures Run(cmp, part[maxLev], s, s[0..Bound(|s|, maxLev)]) && Bound(|s|, maxLev) > 0
    ensures calls <= Pow2(maxLev + 1)
  {
    NullRun(cmp, s);
    hide StableSort;
    ghost var n := |s|;
    list := null;
    calls := 0;
    assert s[n..n] == [];
    for lev := 0 to maxLev
      invariant part.Length == SLOTS && Parts(cmp, part, s, n, lev)
      invariant Run(cmp, list, s, s[Bound(n, lev)..n])
      invariant calls <= Pow2(lev + 1) - 2
    {
      ghost var more;
      list, more := CollapseLevel(cmp, part, list, lev, s);
      calls := calls + more;
    }
    BoundAboveMax(n, maxLev + 1);
  }

  /** `cur = list; list = list->next; cur->next = NULL`: the front node becomes a run of its own. */
  method TakeFront(cmp: Cmp, part: array<Node?>, cur: Node, ghost s: seq<Node>, ghost n: nat)
    returns (list: Node?)
    requires Parts(cmp, part, s, n, 0) && Rest(cur, s, n)
    modifies cur`next
    ensures n < |s| && cur == s[n] && Parts(cmp, part, s, n, 0) && Rest(list, s, n + 1)
    ensures Run(cmp, cur, s, s[n..n + 1])
  {
    assert cur == s[n] && s[n].next == if n + 1 < |s| then s[n + 1] else null;
    list := cur.next;
    forall l | 0 <= l < SLOTS
      ensures forall q :: 0 <= q < |StableSort(cmp, Segment(s, n, l))| ==> StableSort(cmp, Segment(s, n, l))[q] != cur
    {
      BoundMonotone(n, l, l + 1);
      SliceRun(cmp, s, Bound(n, l + 1), Bound(n, l));
      assert cur !in s[Bound(n, l + 1)..Bound(n, l)];
    }
    cur.next := null;
    forall l | 0 <= l < SLOTS ensures Run(cmp, part[l], s, Segment(s, n, l)) {
      assert old(Run(cmp, part[l], s, Segment(s, n, l)));
    }
    assert s[n..n + 1] == [cur];
    assert StableSort(cmp, [cur]) == Insert(cmp, cur, StableSort(cmp, [])) == [cur];
  }

  /** The consuming loop: every node of the torn-open ring ends up in part[]. */
  method ConsumeAll(cmp: Cmp, part: array<Node?>, list0: Node?, ghost s: seq<Node>)
    returns (maxLev: nat, ghost calls: nat)
    requires TotalPreorder(cmp, s) && s != []
    requires Parts(cmp, part, s, 0, 0) && Rest(list0, s, 0)
    modifies part, s
    ensures Parts(cmp, part, s, |s|, 0) && maxLev == MaxLev(|s|)
    ensures CostSoFar(AllLe(cmp, s, s), |s|, calls)
  {
    ConsumeNone(cmp, s);
    hide *;
    maxLev := 0;
    calls := 0;
    var list := list0;
    ghost var n := 0;
    while list != null
      invariant Consumed(cmp, part, list, s, n, maxLev, calls)
      decreases |s| - n
    {
      list, maxLev, calls := ConsumeNext(cmp, part, list, maxLev, s, n, calls);
      n := n + 1;
    }
    ConsumedAll(cmp, part, s, n, maxLev, calls);
  }

  /** The consuming loop's invariant. */
  ghost predicate Consumed(cmp: Cmp, part: array<Node?>, list: Node?, s: seq<Node>, n: nat, maxLev: nat, calls: nat)
    reads part, s
  {
    && n <= |s| && Parts(cmp, part, s, n, 0) && Rest(list, s, n)
    && maxLev == (if n == 0 then 0 else MaxLev(n))
    && CostSoFar(AllLe(cmp, s, s), n, calls)
  }

  lemma ConsumeNone(cmp: Cmp, s: seq<Node>)
    ensures CostSoFar(AllLe(cmp, s, s), 0, 0)
    ensures forall part, list :: Parts(cmp, part, s, 0, 0) && Rest(list, s, 0) ==> Consumed(cmp, part, list, s, 0, 0, 0)
  {
    SumBoundZero(TOP);
  }

  lemma ConsumedAll(cmp: Cmp, part: array<Node?>, s: seq<Node>, n: nat, maxLev: nat, calls: nat)
    requires s != [] && Consumed(cmp, part, null, s, n, maxLev, calls)
    ensures Parts(cmp, part, s, |s|, 0) && maxLev == MaxLev(|s|) && CostSoFar(AllLe(cmp, s, s), |s|, calls)
  {
  }

  method ConsumeNext(cmp: Cmp, part: array<Node?>, cur: Node, maxLev0: nat, ghost s: seq<Node>, ghost n: nat,
      ghost before: nat)
    returns (list: Node?, maxLev: nat, ghost calls: nat)
    requires TotalPreorder(cmp, s) && Consumed(cmp, part, cur, s, n, maxLev0, before)
    modifies part, s
    ensures n < |s| && Consumed(cmp, part, list, s, n + 1, maxLev, calls)
  {
    hide StableSort, Run, Parts;
    assert cur == s[n];
    list := TakeFront(cmp, part, cur, s, n);
    ConsumedApart(cmp, part, s, n);
    maxLev, calls := Consume(cmp, part, cur, maxLev0, s, n, before);
  }

  lemma ConsumedApart(cmp: Cmp, part: array<Node?>, s: seq<Node>, n: nat)
    requires Parts(cmp, part, s, n, 0) && n < |s|
    ensures forall i :: n < i < |s| ==> s[i] !in s[..n + 1]
  {
  }

  lemma {:induction false} SumBoundZero(l: nat)
    ensures SumBound(0, l) == 0 && Blocks(0) == 0
  {
    if l > 0 { SumBoundZero(l - 1); }
    TopBlocks(0);
  }

  /** `head->prev->next = NULL; list = head->next`: the ring becomes a null-terminated list. */
  method TearOpen(head: Node, ghost s: seq<Node>) returns (list: Node?)
    requires Ring(head, s) && s != []
    modifies s
    ensures Rest(list, s, 0)
  {
    assert Nth(head, s, |s| + 1).prev == Nth(head, s, |s|);
    assert Nth(head, s, 0).next == Nth(head, s, 1);
    forall i | 0 <= i < |s| ensures s[i].next == Nth(head, s, i + 2) {
      assert Nth(head, s, i + 1).next == Nth(head, s, i + 2);
    }
    head.prev.next := null;
    list := head.next;
  }

  /** The last merge: the top level and everything below it. */
  method CloseSorted(cmp: Cmp, head: Node, a: Node?, b: Node?, ghost s: seq<Node>, ghost m: nat)
      returns (ghost calls: nat)
    requires TotalPreorder(cmp, s) && Distinct(s) && head !in s && 0 < m <= |s|
    requires Run(cmp, a, s, s[0..m]) && Run(cmp, b, s, s[m..|s|])
    modifies head, s
    ensures Ring(head, StableSort(cmp, s)) && calls == |s|
  {
    hide StableSort;
    MergeRunsFacts(cmp, s, 0, m, |s|);
    assert s[0..|s|] == s;
    calls := MergeAndRestoreBackLinks(cmp, head, a, b, StableSort(cmp, s[0..m]), StableSort(cmp, s[m..|s|]));
  }

  lemma NoParts(cmp: Cmp, part: array<Node?>, s: seq<Node>)
    requires part.Length == SLOTS && Distinct(s) && forall l :: 0 <= l < SLOTS ==> part[l] == null
    ensures Parts(cmp, part, s, 0, 0)
  {
  }

  /** list_sort(): for every ring and every comparison that is a total preorder on its nodes, the ring ends up
      holding the stable sort of its members, at the stated number of callbacks. */
  method Sort(cmp: Cmp, head: Node, ghost s: seq<Node>) returns (ghost calls: nat)
    requires Ring(head, s) && TotalPreorder(cmp, s)
    modifies head, s
    ensures Ring(head, StableSort(cmp, s))
    ensures s == [] ==> calls == 0
    ensures s != [] ==> calls <= SortCost(|s|)
    ensures 0 < |s| < LINEARITHMIC ==> calls <= |s| * (Log2(|s|) + 3)
    ensures AllLe(cmp, s, s) ==> calls >= OverflowLow(Blocks(|s|))
  {
    EmptyRing(cmp, head, s);
    hide *;
    calls := 0;
    if head.next != head {
      calls := SortMembers(cmp, head, s);
      if |s| < LINEARITHMIC { SortCostLogarithmic(|s|); }
    }
  }

  lemma EmptyRing(cmp: Cmp, head: Node, s: seq<Node>)
    requires Ring(head, s)
    ensures head.next == head <==> s == []
    ensures StableSort(cmp, []) == []
    ensures OverflowLow(Blocks(0)) == 0
  {
    assert Nth(head, s, 0).next == Nth(head, s, 1);
    SumBoundZero(0);
  }

  /** The part of list_sort() behind the test for an empty ring. */
  method SortMembers(cmp: Cmp, head: Node, ghost s: seq<Node>) returns (ghost calls: nat)
    requires Ring(head, s) && TotalPreorder(cmp, s) && s != []
    modifies head, s
    ensures Ring(head, StableSort(cmp, s)) && calls <= SortCost(|s|)
    ensures AllLe(cmp, s, s) ==> calls >= OverflowLow(Blocks(|s|))
  {
    RingMembers(head, s);
    hide *;
    var part := NewParts();
    NoParts(cmp, part, s);
    var list := TearOpen(head, s);
    var maxLev;
    maxLev, calls := ConsumeAll(cmp, part, list, s);
    ghost var more, last;
    list, more := Collapse(cmp, part, maxLev, s);
    last := CloseSorted(cmp, head, part[maxLev], list, s, Bound(|s|, maxLev));
    TotalCost(AllLe(cmp, s, s), |s|, calls, more);
    calls := calls + more + last;
  }

  method NewParts() returns (part: array<Node?>)
    ensures fresh(part) && part.Length == SLOTS && forall l :: 0 <= l < SLOTS ==> part[l] == null
  {
    part := new Node?[SLOTS](_ => null);
  }

  lemma RingMembers(head: Node, s: seq<Node>)
    requires Ring(head, s)
    ensures Distinct(s) && head !in s
  {
  }

  lemma TotalCost(allLe: bool, n: nat, calls: nat, more: nat)
    requires n > 0 && CostSoFar(allLe, n, calls) && more <= Pow2(MaxLev(n) + 1)
    ensures calls + more + n <= SortCost(n)
    ensures allLe ==> calls >= OverflowLow(Blocks(n))
  {
  }

  // ---------- a ring that breaks the promised bound ----------

  /** A ring of `n` fresh nodes. */
  method BuildRing(n: nat) returns (head: Node, ghost s: seq<Node>)
    ensures Ring(head, s) && |s| == n && fresh(head) && forall j :: 0 <= j < |s| ==> fresh(s[j])
  {
    head := new Node();
    Init(head);
    s := [];
    for i := 0 to n
      invariant Ring(head, s) && |s| == i && fresh(head) && forall j :: 0 <= j < |s| ==> fresh(s[j])
    {
      var x := new Node();
      AddTail(x, head, s);
      s := s + [x];
    }
  }

  /** Every node ties with every other. */
  function Tie(a: Node, b: Node): int { 0 }

  lemma {:induction false} TiesStay(s: seq<Node>)
    ensures TotalPreorder(Tie, s) && AllLe(Tie, s, s) && StableSort(Tie, s) == s
  {
    if s != [] {
      TiesStay(s[1..]);
      assert StableSort(Tie, s) == Insert(Tie, s[0], s[1..]);
      assert [s[0]] + s[1..] == s;
    }
  }

  /** Sorting a ring of ties: nothing moves, and from 56 * 2^19 nodes on it costs more than n*(floor(log2 n) + 3). */
  method SortTies(n: nat) returns (head: Node, ghost s: seq<Node>, ghost calls: nat)
    ensures Ring(head, s) && |s| == n
    ensures n >= QUADRATIC ==> calls > n * (Log2(n) + 3)
    ensures forall c: nat :: n >= Pow2(2 * c + 10) * BLOCK ==> calls > c * n * (Log2(n) + 1)
  {
    hide *;
    head, s := BuildRing(n);
    TiesStay(s);
    calls := Sort(Tie, head, s);
    OutgrowsAll(n, calls);
  }

  lemma OutgrowsAll(n: nat, calls: nat)
    requires calls >= OverflowLow(Blocks(n))
    ensures n >= QUADRATIC ==> calls > n * (Log2(n) + 3)
    ensures forall c: nat :: n >= Pow2(2 * c + 10) * BLOCK ==> calls > c * n * (Log2(n) + 1)
  {
    if n >= QUADRATIC { TopSlotIsQuadratic(n); }
    forall c: nat | n >= Pow2(2 * c + 10) * BLOCK ensures calls > c * n * (Log2(n) + 1) {
      NoConstantFits(c, n);
    }
  }
}
