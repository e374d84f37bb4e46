/** The ring primitives of include/list.h: each one is a sequence operation on the members. */
module ListRing {
  import opened ListHead

  /** INIT_LIST_HEAD. */
  method Init(head: Node)
    modifies head
    ensures Ring(head, [])
  {
    head.next := head;
    head.prev := head;
  }

  /** __list_add: links `add` between two neighbours; `k` is the position the new node takes. */
  method AddBetween(add: Node, prev: Node, next: Node, ghost head: Node, ghost s: seq<Node>, ghost k: nat)
    requires Ring(head, s) && add != head && add !in s
    requires k <= |s| && prev == Nth(head, s, k) && next == Nth(head, s, k + 1)
    modifies add, prev`next, next`prev
    ensures Ring(head, s[..k] + [add] + s[k..])
  {
    next.prev := add;
    add.next := next;
    add.prev := prev;
    prev.next := add;
    ghost var t := s[..k] + [add] + s[k..];
    assert forall x :: x in t ==> x == add || x in s;
    forall i | 0 <= i <= |t|
      ensures Nth(head, t, i).next == Nth(head, t, i + 1) && Nth(head, t, i + 1).prev == Nth(head, t, i)
    {
      ghost var j := if i <= k then i else i - 1;
      assert old(Nth(head, s, j).next) == Nth(head, s, j + 1) && old(Nth(head, s, j + 1).prev) == Nth(head, s, j);
    }
  }

  /** list_add: pushes at the front. */
  method Add(add: Node, head: Node, ghost s: seq<Node>)
    requires Ring(head, s) && add != head && add !in s
    modifies add, head, s
    ensures Ring(head, [add] + s)
  {
    assert Nth(head, s, 0).next == Nth(head, s, 1);
    AddBetween(add, head, head.next, head, s, 0);
    assert s[..0] + [add] + s[0..] == [add] + s;
  }

  /** list_add_tail: appends at the back. */
  method AddTail(add: Node, head: Node, ghost s: seq<Node>)
    requires Ring(head, s) && add != head && add !in s
    modifies add, head, s
    ensures Ring(head, s + [add])
  {
    assert Nth(head, s, |s| + 1).prev == Nth(head, s, |s|);
    AddBetween(add, head.prev, head, head, s, |s|);
    assert s[..|s|] + [add] + s[|s|..] == s + [add];
  }

  /** list_del: the neighbours are joined; the removed node keeps its stale links. */
  method Del(entry: Node, ghost head: Node, ghost s: seq<Node>, ghost k: nat)
    requires Ring(head, s) && k < |s| && s[k] == entry
    modifies head, s
    ensures Ring(head, s[..k] + s[k + 1..])
    ensures entry.next == old(entry.next) && entry.prev == old(entry.prev)
  {
    assert entry == Nth(head, s, k + 1);
    assert Nth(head, s, k + 1).prev == Nth(head, s, k);
    assert Nth(head, s, k + 1).next == Nth(head, s, k + 2);
    var prev, next := entry.prev, entry.next;
    next.prev := prev;
    prev.next := next;
    ghost var t := s[..k] + s[k + 1..];
    assert forall i :: 0 <= i < |s| ==> s[i] != head;
    forall i | 0 <= i <= |t|
      ensures Nth(head, t, i).next == Nth(head, t, i + 1) && Nth(head, t, i + 1).prev == Nth(head, t, i)
    {
      ghost var j := if i <= k then i else i + 1;
      ghost var m := if i < k then i else i + 1;
      assert Nth(head, t, i) == Nth(head, s, j) && Nth(head, t, i + 1) == Nth(head, s, m + 1);
      assert old(Nth(head, s, j).next) == Nth(head, s, j + 1) && old(Nth(head, s, m + 1).prev) == Nth(head, s, m);
    }
  }

  /** list_del_init: as `Del`, and the node becomes an empty ring of its own. */
  method DelInit(entry: Node, ghost head: Node, ghost s: seq<Node>, ghost k: nat)
    requires Ring(head, s) && k < |s| && s[k] == entry
    modifies head, s
    ensures Ring(head, s[..k] + s[k + 1..]) && Ring(entry, [])
  {
    Del(entry, head, s, k);
    ghost var t := s[..k] + s[k + 1..];
    assert entry != head && entry !in t;
    Init(entry);
    forall i | 0 <= i <= |t|
      ensures Nth(head, t, i).next == Nth(head, t, i + 1) && Nth(head, t, i + 1).prev == Nth(head, t, i)
    {
      assert Nth(head, t, i) in [head] + t;
      assert Nth(head, t, i + 1) in [head] + t;
    }
  }

  /** list_splice: the members of `list` move, in order, to the front of `head`. */
  method Splice(list: Node, head: Node, ghost a: seq<Node>, ghost s: seq<Node>)
    requires Ring(list, a) && Ring(head, s)
    requires Apart([list] + a, [head] + s)
    modifies head, s, a
    ensures Ring(head, a + s)
    ensures list.next == old(list.next) && list.prev == old(list.prev)
  {
    assert Nth(list, a, 0).next == Nth(list, a, 1) && Nth(list, a, |a| + 1).prev == Nth(list, a, |a|);
    assert Nth(head, s, 0).next == Nth(head, s, 1);
    assert forall i :: 0 <= i <= |a| ==> Nth(list, a, i) in [list] + a;
    assert forall i :: 0 <= i <= |s| ==> Nth(head, s, i) in [head] + s;
    assert list != head && list !in s && head !in a;
    var first := list.next;
    if first != list {
      var last := list.prev;
      var at := head.next;
      first.prev := head;
      head.next := first;
      last.next := at;
      at.prev := last;
      ghost var t := a + s;
      forall x | x in a ensures x !in s { assert x in [list] + a; assert x in s ==> x in [head] + s; }
      DistinctConcat(a, s);
      forall i | 0 <= i <= |t|
        ensures Nth(head, t, i).next == Nth(head, t, i + 1) && Nth(head, t, i + 1).prev == Nth(head, t, i)
      {
        if 0 < i < |a| {
          assert old(Nth(list, a, i).next) == Nth(list, a, i + 1) && old(Nth(list, a, i + 1).prev) == Nth(list, a, i);
        } else if |a| < i {
          var j := i - |a|;
          assert old(Nth(head, s, j).next) == Nth(head, s, j + 1) && old(Nth(head, s, j + 1).prev) == Nth(head, s, j);
        }
      }
    } else {
      assert a == [];
      assert a + s == s;
    }
  }
}
