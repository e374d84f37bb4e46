/** Intrusive rings of `struct list_head` and the bottom-up merge sort over them (include/list.h). A node carries only
    its two links, as in the source; the comparison callback sees node identities. */
module ListHead {

  class Node {
    var next: Node?
    var prev: Node?

    /** Fresh storage; the source leaves the links undefined. */
    constructor () {
    }
  }

  ghost predicate Distinct<T>(s: seq<T>) {
    forall i, j :: 0 <= i < j < |s| ==> s[i] != s[j]
  }

  /** Position `i` of the ring walk: the head, then the members, then the head again. */
  ghost function Nth(head: Node, s: seq<Node>, i: nat): Node
    requires i <= |s| + 1
  {
    if i == 0 || i == |s| + 1 then head else s[i - 1]
  }

  /** A well-formed doubly linked ring: `head` followed by exactly the nodes `s`. */
  ghost predicate Ring(head: Node, s: seq<Node>)
    reads head, s
  {
    && head !in s && Distinct(s)
    && (forall i {:trigger Nth(head, s, i).next} :: 0 <= i <= |s| ==> Nth(head, s, i).next == Nth(head, s, i + 1))
    && (forall i {:trigger Nth(head, s, i).prev} :: 1 <= i <= |s| + 1 ==> Nth(head, s, i).prev == Nth(head, s, i - 1))
  }

  /** A null-terminated run of `s`; back links are not maintained. */
  ghost predicate Chain(p: Node?, s: seq<Node>)
    reads s
  {
    && Distinct(s)
    && p == (if s == [] then null else s[0])
    && forall i {:trigger s[i].next} :: 0 <= i < |s| ==> s[i].next == if i + 1 < |s| then s[i + 1] else null
  }

  ghost predicate Apart<T>(a: seq<T>, b: seq<T>) {
    forall x :: x in a ==> x !in b
  }

  lemma DistinctConcat<T>(a: seq<T>, b: seq<T>)
    requires Distinct(a) && Distinct(b) && Apart(a, b)
    ensures Distinct(a + b)
  {
    var t := a + b;
    forall i, j | 0 <= i < j < |t| ensures t[i] != t[j] {
      if i < |a| && |a| <= j { assert t[i] in a && t[j] in b; }
    }
  }
}
