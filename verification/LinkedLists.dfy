/**
 Singly linked lists on the heap, as agent/cache.c and agent/call-daemon.c keep
 them: inserting at the front, and the two ways of unlinking.
 */
module LinkedLists {

  class Node<T> {
    var item: T
    var next: Node?<T>

    constructor (x: T, n: Node?<T>)
      ensures item == x && next == n
    {
      item, next := x, n;
    }
  }

  predicate Distinct<T(==)>(s: seq<T>) {
    forall i, j :: 0 <= i < j < |s| ==> s[i] != s[j]
  }

  /** The node at position i, or the end. */
  function At<T>(nodes: seq<Node<T>>, i: nat, end: Node?<T>): Node?<T> {
    if i < |nodes| then nodes[i] else end
  }

  /** From first, the nodes are linked in this order up to the end. */
  ghost predicate Segment<T>(first: Node?<T>, nodes: seq<Node<T>>, end: Node?<T>)
    reads nodes
  {
    && first == At(nodes, 0, end)
    && (forall i :: 0 <= i < |nodes| ==> nodes[i].next == At(nodes, i + 1, end))
  }

  /** The items of the nodes, in order. */
  ghost function ItemsOf<T>(nodes: seq<Node<T>>): (items: seq<T>)
    reads nodes
    ensures |items| == |nodes| && forall i :: 0 <= i < |nodes| ==> items[i] == nodes[i].item
  {
    if nodes == [] then [] else ItemsOf(nodes[..|nodes| - 1]) + [nodes[|nodes| - 1].item]
  }

  /** What is left of a list without the items that are dropped. */
  function Filter<T>(items: seq<T>, drop: T -> bool): seq<T> {
    if items == [] then []
    else
      var last := items[|items| - 1];
      Filter(items[..|items| - 1], drop) + (if drop(last) then [] else [last])
  }

  lemma FilterNext<T>(items: seq<T>, drop: T -> bool, k: nat)
    requires k < |items|
    ensures Filter(items[..k + 1], drop) == Filter(items[..k], drop) + (if drop(items[k]) then [] else [items[k]])
  {
    assert items[..k + 1][..k] == items[..k];
  }

  /** The successor of the node at position k of a list. */
  lemma Successor<T>(r: Node<T>, nodes: seq<Node<T>>, k: nat)
    requires k < |nodes| && Segment(r, nodes[k..], null)
    ensures r == nodes[k] && Segment(r.next, nodes[k + 1..], null) && r.next == At(nodes, k + 1, null)
  {
    var s, t := nodes[k..], nodes[k + 1..];
    assert s[0] == nodes[k] && t == s[1..];
    assert forall i :: 0 <= i < |t| ==> t[i] == s[i + 1];
  }

  /** A segment and the node that follows it. */
  lemma Longer<T>(first: Node?<T>, nodes: seq<Node<T>>, r: Node<T>)
    requires Segment(first, nodes, r)
    ensures Segment(first, nodes + [r], r.next)
  {
    var t := nodes + [r];
    assert forall i :: 0 <= i < |nodes| ==> t[i] == nodes[i];
  }

  /** A node that leads to a list. */
  lemma InFront<T>(node: Node<T>, first: Node?<T>, nodes: seq<Node<T>>)
    requires Distinct(nodes) && Segment(first, nodes, null) && node !in nodes && node.next == first
    ensures var s := [node] + nodes;
            Distinct(s) && Segment(node, s, null) && ItemsOf(s) == [node.item] + ItemsOf(nodes) && s[1..] == nodes
  {
    var s := [node] + nodes;
    assert forall i :: 0 < i < |s| ==> s[i] == nodes[i - 1];
  }

  /** Redirecting the link that leaves a segment. */
  method Redirect<T>(list: List<T>, rprev: Node?<T>, ghost front: seq<Node<T>>, ghost r: Node<T>, r2: Node?<T>)
    requires Distinct(front) && Segment(list.head, front, r)
    requires rprev == if front == [] then null else front[|front| - 1]
    modifies list`head, if rprev == null then {} else {rprev}`next
    ensures Segment(list.head, front, r2)
  {
    if rprev == null {
      list.head := r2;
    } else {
      rprev.next := r2;
    }
  }

  /** Somewhere in the walk: the kept nodes lead to r, and from there everything is as it was. */
  ghost predicate Walk<T>(head: Node?<T>, all: seq<Node<T>>, kept: seq<Node<T>>, k: nat, rprev: Node?<T>, r: Node?<T>)
    reads all, kept
  {
    && k <= |all| && Distinct(all) && Distinct(kept) && (forall n :: n in kept ==> n in all[..k])
    && rprev == (if kept == [] then null else kept[|kept| - 1])
    && r == At(all, k, null) && Segment(head, kept, r) && Segment(r, all[k..], null)
  }

  lemma WalkStarts<T>(head: Node?<T>, all: seq<Node<T>>)
    requires Distinct(all) && Segment(head, all, null)
    ensures Walk(head, all, [], 0, null, head)
  {
    assert all[0..] == all;
  }

  /** What the walk knows about the node it has reached. */
  lemma Reached<T>(head: Node?<T>, all: seq<Node<T>>, kept: seq<Node<T>>, k: nat, rprev: Node?<T>, r: Node<T>)
    requires Walk(head, all, kept, k, rprev, r)
    ensures k < |all| && r == all[k] && r.next == At(all, k + 1, null)
    ensures rprev != null ==> rprev in kept && rprev in all && rprev !in all[k + 1..]
    ensures Segment(r.next, all[k + 1..], null)
  {
    hide Segment;
    Successor(r, all, k);
    NotBehind(all, kept, k);
    assert rprev != null ==> rprev in kept;
  }

  /** The node stays. */
  lemma WalkKeeps<T>(head: Node?<T>, all: seq<Node<T>>, kept: seq<Node<T>>, k: nat, rprev: Node?<T>, r: Node<T>)
    requires Walk(head, all, kept, k, rprev, r)
    ensures Walk(head, all, kept + [r], k + 1, r, r.next)
    ensures ItemsOf(kept + [r]) == ItemsOf(kept) + [r.item]
  {
    hide Segment;
    Reached(head, all, kept, k, rprev, r);
    NotBehind(all, kept, k);
    Longer(head, kept, r);
  }

  /** The node is unlinked. */
  method Drop<T>(list: List<T>, ghost all: seq<Node<T>>, ghost kept: seq<Node<T>>, ghost k: nat, rprev: Node?<T>, r: Node<T>)
    requires Walk(list.head, all, kept, k, rprev, r)
    modifies list`head, if rprev == null then {} else {rprev}`next
    ensures Walk(list.head, all, kept, k + 1, rprev, old(r.next))
    ensures ItemsOf(kept) == old(ItemsOf(kept))
  {
    hide Segment;
    Reached(list.head, all, kept, k, rprev, r);
    NotBehind(all, kept, k);
    var r2 := r.next;
    Redirect(list, rprev, kept, r, r2);
  }

  lemma NothingLeft<T>(items: seq<T>, drop: T -> bool)
    ensures Filter(items[..0], drop) == []
  {
  }

  /** The kept nodes are not among those still to come. */
  lemma NotBehind<T>(all: seq<Node<T>>, kept: seq<Node<T>>, k: nat)
    requires Distinct(all) && k < |all| && forall n :: n in kept ==> n in all[..k]
    ensures forall n :: n in kept ==> n in all[..k + 1] && n !in all[k..] && n !in all[k + 1..]
    ensures all[k] in all[..k + 1] && all[k] !in kept
  {
    forall n | n in kept
      ensures n in all[..k + 1] && n !in all[k..] && n !in all[k + 1..]
    {
      var i :| 0 <= i < k && all[..k][i] == n;
      assert all[..k + 1][i] == n;
    }
    assert all[..k + 1][k] == all[k];
  }

  class List<T> {
    var head: Node?<T>
    ghost var nodes: seq<Node<T>>

    ghost predicate Valid()
      reads this, nodes
    {
      Distinct(nodes) && Segment(head, nodes, null)
    }

    ghost function Items(): seq<T>
      reads this, nodes
    {
      ItemsOf(nodes)
    }

    constructor ()
      ensures Valid() && nodes == []
    {
      head, nodes := null, [];
    }

    /** A new node at the front. */
    method Push(x: T)
      requires Valid()
      modifies this
      ensures Valid() && nodes != [] && fresh(nodes[0]) && nodes[1..] == old(nodes)
      ensures Items() == [x] + old(Items())
    {
      hide ItemsOf, Segment, Distinct;
      ghost var was := nodes;
      var node := new Node(x, head);
      InFront(node, head, was);
      head := node;
      nodes := [node] + was;
    }

    /** The loop with rprev: unlink every node whose item is to be dropped, while walking. */
    method RemoveIf(drop: T -> bool)
      requires Valid()
      modifies this, nodes
      ensures Valid() && (forall n :: n in nodes ==> n in old(nodes))
      ensures forall n :: n in old(nodes) ==> n.item == old(n.item)
      ensures Items() == Filter(old(Items()), drop)
    {
      hide Filter, Segment, Walk;
      ghost var all, items := nodes, Items();
      ghost var kept: seq<Node<T>>, k := [], 0;
      var rprev: Node?<T> := null;
      var r := head;
      WalkStarts(head, all);
      NothingLeft(items, drop);
      while r != null
        invariant nodes == all && Walk(head, all, kept, k, rprev, r)
        invariant forall n :: n in all ==> n.item == old(n.item)
        invariant k <= |all| && ItemsOf(kept) == Filter(items[..k], drop)
        decreases |all| - k
      {
        Reached(head, all, kept, k, rprev, r);
        FilterNext(items, drop, k);
        var r2 := r.next;
        if drop(r.item) {
          Drop(this, all, kept, k, rprev, r);
        } else {
          WalkKeeps(head, all, kept, k, rprev, r);
          kept := kept + [r];
          rprev := r;
        }
        r, k := r2, k + 1;
      }
      WalkEnds(head, all, kept, k, rprev);
      assert items[..k] == items;
      nodes := kept;
    }

    /** Unlink one node: at the head, or behind the node that leads to it. */
    method Unlink(node: Node<T>) returns (ghost i: nat)
      requires Valid() && node in nodes
      modifies this, nodes
      ensures i < |old(nodes)| && old(nodes)[i] == node && nodes == old(nodes)[..i] + old(nodes)[i + 1..]
      ensures Valid() && forall n :: n in old(nodes) ==> n.item == old(n.item)
    {
      hide Segment;
      ghost var all := nodes;
      var sl;
      sl, i := Before(node);
      SplitAt(head, all, i);
      Successor(node, all, i);
      Parts(all, i);
      Redirect(this, sl, all[..i], node, node.next);
      Join(head, all[..i], node.next, all[i + 1..]);
      nodes := all[..i] + all[i + 1..];
    }

    /** The node that leads to this one, if it is not at the head. */
    method Before(node: Node<T>) returns (sl: Node?<T>, ghost i: nat)
      requires Valid() && node in nodes
      ensures i < |nodes| && nodes[i] == node && sl == if i == 0 then null else nodes[i - 1]
    {
      hide Segment, Distinct;
      HeadIs(head, nodes);
      if head == node {
        return null, 0;
      }
      sl, i := head, 1;
      assert nodes[0..] == nodes;
      NotHere(nodes, node, 0);
      NextIs(head, nodes, 0);
      while sl.next != node
        invariant 0 < i < |nodes| && sl == nodes[i - 1] && sl.next == nodes[i] && node in nodes[i..]
        decreases |nodes| - i
      {
        NotHere(nodes, node, i);
        NextIs(head, nodes, i);
        sl, i := sl.next, i + 1;
      }
    }

    /** An assignment to an item of the list. */
    method SetItem(r: Node<T>, x: T, ghost i: nat)
      requires Valid() && i < |nodes| && r == nodes[i]
      modifies r`item
      ensures Valid() && Items() == old(Items())[i := x]
    {
      r.item := x;
    }

    /** A loop that treats every item. */
    method Update(f: T -> T)
      requires Valid()
      modifies nodes`item
      ensures Valid() && |Items()| == |old(Items())|
      ensures forall i :: 0 <= i < |Items()| ==> Items()[i] == f(old(Items())[i])
    {
      hide Segment, Distinct, Valid;
      ghost var was, i := Items(), 0;
      ValidHead(this);
      var r := head;
      while r != null
        invariant Valid() && i <= |was| == |Items()| == |nodes| && r == At(nodes, i, null)
        invariant forall j :: 0 <= j < |was| ==> Items()[j] == if j < i then f(was[j]) else was[j]
        decreases |was| - i
      {
        assert r in nodes && r.item == Items()[i];
        SetItem(r, f(r.item), i);
        ValidNext(this, i);
        r, i := r.next, i + 1;
      }
    }
  }

  lemma WalkEnds<T>(head: Node?<T>, all: seq<Node<T>>, kept: seq<Node<T>>, k: nat, rprev: Node?<T>)
    requires Walk(head, all, kept, k, rprev, null)
    ensures k == |all| && Distinct(kept) && Segment(head, kept, null) && forall n :: n in kept ==> n in all
  {
    hide Segment;
    assert all[..k] == all;
  }

  lemma HeadIs<T>(first: Node?<T>, nodes: seq<Node<T>>)
    requires Segment(first, nodes, null)
    ensures first == At(nodes, 0, null)
  {
  }

  lemma NextIs<T>(first: Node?<T>, nodes: seq<Node<T>>, i: nat)
    requires Segment(first, nodes, null) && i < |nodes|
    ensures nodes[i].next == At(nodes, i + 1, null)
  {
  }

  lemma ValidHead<T>(list: List<T>)
    requires list.Valid()
    ensures list.head == At(list.nodes, 0, null)
  {
  }

  lemma ValidNext<T>(list: List<T>, i: nat)
    requires list.Valid() && i < |list.nodes|
    ensures list.nodes[i].next == At(list.nodes, i + 1, null)
  {
  }

  lemma NotHere<T>(nodes: seq<Node<T>>, node: Node<T>, i: nat)
    requires i < |nodes| && node in nodes[i..] && nodes[i] != node
    ensures i + 1 < |nodes| && node in nodes[i + 1..]
  {
    assert nodes[i..] == [nodes[i]] + nodes[i + 1..];
  }

  lemma SplitAt<T>(first: Node?<T>, nodes: seq<Node<T>>, i: nat)
    requires Segment(first, nodes, null) && i <= |nodes|
    ensures Segment(first, nodes[..i], At(nodes, i, null)) && Segment(At(nodes, i, null), nodes[i..], null)
  {
    var a, b := nodes[..i], nodes[i..];
    assert forall j :: 0 <= j < |a| ==> a[j] == nodes[j];
    assert forall j :: 0 <= j < |b| ==> b[j] == nodes[i + j];
  }

  lemma Join<T>(first: Node?<T>, a: seq<Node<T>>, second: Node?<T>, b: seq<Node<T>>)
    requires Segment(first, a, second) && Segment(second, b, null)
    ensures Segment(first, a + b, null)
  {
    var s := a + b;
    assert forall j :: 0 <= j < |a| ==> s[j] == a[j];
    assert forall j :: 0 <= j < |b| ==> s[|a| + j] == b[j];
  }

  lemma Parts<T>(all: seq<T>, i: nat)
    requires Distinct(all) && i < |all|
    ensures Distinct(all[..i]) && Distinct(all[..i] + all[i + 1..])
    ensures forall x :: x in all[..i] ==> x !in all[i + 1..]
  {
  }
}
