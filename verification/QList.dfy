/** The intrusive circular list: a head and the items linked behind it, each
    operation rewriting the pointers of its neighbours. */
module QList {
  import opened Common

  class Node {
    var next: Node?
    var prev: Node?

    constructor ()
      ensures next == null && prev == null
    {
      next, prev := null, null;
    }
  }

  /** The round from the head back to the head. */
  ghost function Round(head: Node, items: seq<Node>): (r: seq<Node>)
    ensures |r| == |items| + 2 && r[0] == head && r[|items| + 1] == head
    ensures forall i :: 0 <= i < |items| ==> r[i + 1] == items[i]
  {
    [head] + items + [head]
  }

  /** Each node of `r` and the one behind it point at each other. */
  ghost predicate Linked(r: seq<Node>)
    reads r
  {
    forall i, j :: 0 <= i && j == i + 1 && j < |r| ==> r[i].next == r[j] && r[j].prev == r[i]
  }

  /** No node twice, and the head not among the items. */
  ghost predicate Distinct(head: Node, items: seq<Node>)
  {
    && head !in items
    && forall i, j :: 0 <= i < j < |items| ==> items[i] != items[j]
  }

  /** The list of `head` holds exactly `items`, in this order. */
  ghost predicate Ring(head: Node, items: seq<Node>)
    reads head, items
  {
    Distinct(head, items) && Linked(Round(head, items))
  }

  method Init(node: Node)
    modifies node
    ensures Ring(node, [])
  {
    node.next := node;
    node.prev := node;
  }

  method AddTail(head: Node, item: Node, ghost items: seq<Node>)
    requires Ring(head, items) && item != head && item !in items
    modifies head, item, items
    ensures Ring(head, items + [item])
  {
    ghost var r := Round(head, items);
    ghost var last := |items|;
    assert head.prev == r[last] by {
      assert r[last + 1] == head;
    }
    item.next := head;
    item.prev := head.prev;
    head.prev.next := item;
    head.prev := item;
    ghost var q := Round(head, items + [item]);
    assert forall k :: 0 <= k <= last ==> q[k] == r[k];
    forall i, j | 0 <= i && j == i + 1 && j < |q|
      ensures q[i].next == q[j] && q[j].prev == q[i]
    {
      if i < last {
        assert r[i].next == q[j] && r[j].prev == q[i];
      }
    }
  }

  function Without(items: seq<Node>, k: nat): (s: seq<Node>)
    requires k < |items|
    ensures |s| == |items| - 1
    ensures forall i :: 0 <= i < k ==> s[i] == items[i]
    ensures forall i :: k <= i < |s| ==> s[i] == items[i + 1]
  {
    items[..k] + items[k + 1..]
  }

  lemma {:induction false} DistinctWithout(head: Node, items: seq<Node>, k: nat)
    requires Distinct(head, items) && k < |items|
    ensures Distinct(head, Without(items, k)) && items[k] !in Without(items, k)
  {
  }

  /** The round without the item skips it. */
  lemma {:induction false} RoundWithout(head: Node, items: seq<Node>, k: nat)
    requires k < |items|
    ensures var r, q := Round(head, items), Round(head, Without(items, k));
            && (forall i :: 0 <= i <= k ==> q[i] == r[i])
            && (forall i :: k < i < |q| ==> q[i] == r[i + 1])
  {
  }

  method Remove(item: Node, ghost head: Node, ghost items: seq<Node>, ghost k: nat)
    requires Ring(head, items) && k < |items| && items[k] == item
    modifies head, items
    ensures Ring(head, Without(items, k))
    ensures item.next == old(item.next) && item.prev == old(item.prev)
  {
    ghost var r := Round(head, items);
    assert item == r[k + 1] && item.next == r[k + 2] && item.prev == r[k];
    item.next.prev := item.prev;
    item.prev.next := item.next;
    DistinctWithout(head, items, k);
    RoundWithout(head, items, k);
    ghost var q := Round(head, Without(items, k));
    forall i, j | 0 <= i && j == i + 1 && j < |q|
      ensures q[i].next == q[j] && q[j].prev == q[i]
    {
      if i < k {
        assert r[i].next == q[j] && r[j].prev == q[i];
      } else if i > k {
        assert r[i + 1].next == q[j] && r[j + 1].prev == q[i];
      }
    }
  }

  method Empty(list: Node, ghost items: seq<Node>) returns (empty: bool)
    requires Ring(list, items)
    ensures empty <==> items == []
  {
    ghost var r := Round(list, items);
    assert r[0].next == r[1];
    empty := list == list.next;
  }

  /** The first and the last node, or the list itself. */
  method Ends(list: Node, ghost items: seq<Node>) returns (first: Node, last: Node)
    requires Ring(list, items)
    ensures first == if items == [] then list else items[0]
    ensures last == if items == [] then list else items[|items| - 1]
  {
    ghost var r := Round(list, items);
    assert r[0].next == r[1] && r[|items| + 1].prev == r[|items|];
    first, last := list.next, list.prev;
  }

  /** Following next visits the items in order and ends at the head. */
  method Forward(list: Node, ghost items: seq<Node>) returns (visited: seq<Node>)
    requires Ring(list, items)
    ensures visited == items
  {
    ghost var r := Round(list, items);
    assert r[0].next == r[1];
    var node := list.next;
    visited := [];
    while node != list
      invariant |visited| <= |items| && visited == items[..|visited|] && node == r[|visited| + 1]
      decreases |items| - |visited|
    {
      assert r[|visited| + 1].next == r[|visited| + 2];
      visited := visited + [node];
      node := node.next;
    }
  }

  /** Following prev visits them in reverse. */
  method Backward(list: Node, ghost items: seq<Node>) returns (visited: seq<Node>)
    requires Ring(list, items)
    ensures visited == Reversed(items)
  {
    ghost var r, n := Round(list, items), |items|;
    assert r[n + 1].prev == r[n];
    var node := list.prev;
    visited := [];
    while node != list
      invariant |visited| <= n && visited == Reversed(items)[..|visited|] && node == r[n - |visited|]
      decreases n - |visited|
    {
      assert r[n - |visited|].prev == r[n - |visited| - 1];
      visited := visited + [node];
      node := node.prev;
    }
  }

  // ----- runs ----------------------------------------------------------------

  datatype Op = Clear | Add(item: Node) | Drop(item: Node)

  ghost predicate Legal(head: Node, items: seq<Node>, op: Op)
  {
    match op
    case Clear => true
    case Add(n) => n != head && n !in items
    case Drop(n) => n in items
  }

  function Position(items: seq<Node>, n: Node): (k: nat)
    requires n in items
    ensures k < |items| && items[k] == n
  {
    if items[0] == n then 0 else 1 + Position(items[1..], n)
  }

  /** What an operation does to the sequence. */
  function Done(items: seq<Node>, op: Op): seq<Node>
    requires op.Drop? ==> op.item in items
  {
    match op
    case Clear => []
    case Add(n) => items + [n]
    case Drop(n) => Without(items, Position(items, n))
  }

  ghost predicate AllLegal(head: Node, items: seq<Node>, ops: seq<Op>)
    decreases |ops|
  {
    ops == [] || (Legal(head, items, ops[0]) && AllLegal(head, Done(items, ops[0]), ops[1..]))
  }

  function DoneAll(head: Node, items: seq<Node>, ops: seq<Op>): seq<Node>
    requires AllLegal(head, items, ops)
    decreases |ops|
  {
    if ops == [] then items else DoneAll(head, Done(items, ops[0]), ops[1..])
  }

  ghost predicate Among(head: Node, items: seq<Node>, ops: seq<Op>, nodes: set<Node>)
  {
    && head in nodes
    && (forall n :: n in items ==> n in nodes)
    && (forall i :: 0 <= i < |ops| && !ops[i].Clear? ==> ops[i].item in nodes)
  }

  method Perform(head: Node, op: Op, ghost items: seq<Node>, ghost nodes: set<Node>)
    requires Ring(head, items) && Legal(head, items, op) && Among(head, items, [op], nodes)
    modifies nodes
    ensures Ring(head, Done(items, op))
    ensures forall n :: n in Done(items, op) ==> n in nodes
  {
    assert !op.Clear? ==> [op][0].item in nodes;
    match op
    case Clear => Init(head);
    case Add(n) => AddTail(head, n, items);
    case Drop(n) => Remove(n, head, items, Position(items, n));
  }

  /** After any legal run, next gives the abstract sequence and prev its reverse. */
  method Run(head: Node, ops: seq<Op>, ghost nodes: set<Node>) returns (there: seq<Node>, back: seq<Node>)
    requires AllLegal(head, [], ops) && Among(head, [], ops, nodes)
    modifies nodes
    ensures there == DoneAll(head, [], ops) && back == Reversed(there)
  {
    Init(head);
    ghost var items: seq<Node> := [];
    for i := 0 to |ops|
      invariant Ring(head, items) && Among(head, items, ops, nodes)
      invariant AllLegal(head, items, ops[i..]) && DoneAll(head, items, ops[i..]) == DoneAll(head, [], ops)
    {
      assert ops[i..][0] == ops[i] && ops[i..][1..] == ops[i + 1..];
      Perform(head, ops[i], items, nodes);
      items := Done(items, ops[i]);
    }
    there := Forward(head, items);
    back := Backward(head, items);
  }
}
