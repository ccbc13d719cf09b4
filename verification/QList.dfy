/** The intrusive circular list of qlist.h: a head node and the nodes linked into its ring. */
module QList {

  class Node {
    var next: Node
    var prev: Node

    /** qlist_init */
    constructor ()
      ensures Ring(this, [])
    {
      next, prev := this, this;
      new;
      assert Link([this], 0);
      assert [this] + [] == [this];
    }
  }

  function After(ring: seq<Node>, i: nat): Node
    requires i < |ring|
  {
    if i + 1 < |ring| then ring[i + 1] else ring[0]
  }

  /** The i-th node of a ring and the one behind it point at each other. */
  ghost predicate Link(ring: seq<Node>, i: nat)
    requires i < |ring|
    reads ring
  {
    ring[i].next == After(ring, i) && After(ring, i).prev == ring[i]
  }

  ghost predicate Distinct(ring: seq<Node>) {
    forall i, j :: 0 <= i < j < |ring| ==> ring[i] != ring[j]
  }

  /** The head and the items, in this order, are one ring in which next and prev undo each other. */
  ghost predicate Ring(head: Node, items: seq<Node>)
    reads head, items
  {
    var ring := [head] + items;
    && Distinct(ring)
    && (forall i :: 0 <= i < |ring| ==> Link(ring, i))
  }

  /** qlist_init on a node that is in no list any more. */
  method Init(node: Node)
    modifies node
    ensures Ring(node, [])
  {
    node.next := node;
    node.prev := node;
  }

  /** qlist_empty */
  method Empty(head: Node, ghost items: seq<Node>) returns (empty: bool)
    requires Ring(head, items)
    ensures empty <==> items == []
  {
    ghost var ring := [head] + items;
    assert Link(ring, 0);
    empty := head == head.next;
  }

  /** qlist_add_tail */
  method AddTail(head: Node, item: Node, ghost items: seq<Node>)
    requires Ring(head, items) && item != head && item !in items
    modifies head`prev, head.prev`next, item
    ensures Ring(head, items + [item])
  {
    ghost var ring := [head] + items;
    ghost var last := |ring| - 1;
    assert Link(ring, last);
    item.next := head;
    item.prev := head.prev;
    head.prev.next := item;
    head.prev := item;
    ghost var longer := [head] + (items + [item]);
    assert longer == ring + [item];
    forall i | 0 <= i < |longer| ensures Link(longer, i) {
      if i < last {
        assert old(Link(ring, i)) && ring[i + 1] != head;
      }
    }
  }

  /** qlist_remove of the k-th item; the pointers of the node itself stay as they were. */
  method Remove(item: Node, ghost head: Node, ghost items: seq<Node>, ghost k: nat)
    requires Ring(head, items) && k < |items| && items[k] == item
    modifies item.next`prev, item.prev`next
    ensures Ring(head, items[..k] + items[k + 1..])
    ensures item.next == old(item.next) && item.prev == old(item.prev)
  {
    hide Distinct, After, Without;
    ghost var ring := [head] + items;
    AfterItem(ring, k);
    assert Link(ring, k) && Link(ring, k + 1) && ring[k + 1] == item;
    item.next.prev := item.prev;
    item.prev.next := item.next;
    ghost var shorter := [head] + (items[..k] + items[k + 1..]);
    assert shorter == Without(ring, k + 1) by { RingWithout(head, items, k); }
    DistinctWithout(ring, k + 1);
    forall i | 0 <= i < |shorter| ensures Link(shorter, i) {
      AfterWithout(ring, k + 1, i);
      ghost var j := if i < k + 1 then i else i + 1;
      assert old(Link(ring, j));
      if i != k {
        AfterApart(ring, j, k);
        AfterApart(ring, j, k + 1);
      }
    }
  }

  function Without(ring: seq<Node>, k: nat): seq<Node>
    requires k < |ring|
  {
    ring[..k] + ring[k + 1..]
  }

  lemma RingWithout(head: Node, items: seq<Node>, k: nat)
    requires k < |items|
    ensures [head] + (items[..k] + items[k + 1..]) == Without([head] + items, k + 1)
  {}

  lemma DistinctWithout(ring: seq<Node>, k: nat)
    requires Distinct(ring) && k < |ring|
    ensures Distinct(Without(ring, k)) && |Without(ring, k)| == |ring| - 1
  {}

  lemma AfterItem(ring: seq<Node>, k: nat)
    requires k + 1 < |ring|
    ensures After(ring, k) == ring[k + 1]
  {}

  lemma AfterApart(ring: seq<Node>, i: nat, j: nat)
    requires Distinct(ring) && i < |ring| && j < |ring| && i != j
    ensures ring[i] != ring[j] && After(ring, i) != After(ring, j)
  {}

  lemma AfterWithout(ring: seq<Node>, k: nat, i: nat)
    requires 0 < k < |ring| && i < |ring| - 1
    ensures Without(ring, k)[i] == ring[if i < k then i else i + 1]
    ensures After(Without(ring, k), i) ==
      if i == k - 1 then After(ring, k) else After(ring, if i < k then i else i + 1)
  {}

  /** qlist_for_each */
  method ForEach(head: Node, ghost items: seq<Node>) returns (visited: seq<Node>)
    requires Ring(head, items)
    ensures visited == items
  {
    visited := [];
    ghost var ring := [head] + items;
    assert Link(ring, 0);
    var node := head.next;
    while node != head
      invariant |visited| <= |items| && visited == items[..|visited|]
      invariant node == After(ring, |visited|)
      decreases |items| - |visited|
    {
      ghost var n := |visited|;
      assert n < |items| && node == ring[n + 1] && Link(ring, n + 1);
      visited := visited + [node];
      node := node.next;
    }
    assert |visited| == |items|;
  }

  // ------------------------------------------------------------- any use of a list

  /** A new node at the tail, or the k-th item removed. */
  datatype Op = Add | RemoveAt(k: nat)

  function Adds(ops: seq<Op>): nat {
    if ops == [] then 0 else Adds(ops[..|ops| - 1]) + if ops[|ops| - 1].Add? then 1 else 0
  }

  /** Which of the nodes added, counted from 0, are in the list after some operations. */
  function Members(ops: seq<Op>): (r: seq<nat>)
    ensures forall i :: 0 <= i < |r| ==> r[i] < Adds(ops)
  {
    if ops == [] then []
    else
      var m, op := Members(ops[..|ops| - 1]), ops[|ops| - 1];
      if op.Add? then m + [Adds(ops[..|ops| - 1])]
      else if op.k < |m| then m[..op.k] + m[op.k + 1..]
      else m
  }

  lemma OpStep(ops: seq<Op>, i: nat)
    requires i < |ops|
    ensures
      var m := Members(ops[..i]);
      && Members(ops[..i + 1]) ==
           (if ops[i].Add? then m + [Adds(ops[..i])]
            else if ops[i].k < |m| then m[..ops[i].k] + m[ops[i].k + 1..] else m)
      && Adds(ops[..i + 1]) == Adds(ops[..i]) + if ops[i].Add? then 1 else 0
  {
    assert ops[..i + 1][..i] == ops[..i];
  }

  ghost predicate Picked(items: seq<Node>, nodes: seq<Node>, members: seq<nat>) {
    |items| == |members| && forall i :: 0 <= i < |items| ==> members[i] < |nodes| && items[i] == nodes[members[i]]
  }

  /** After any operations, going through the list visits exactly the nodes still in it, in the order
      in which they were added. */
  method Use(ops: seq<Op>) returns (nodes: seq<Node>, visited: seq<Node>)
    ensures |nodes| == Adds(ops) && Picked(visited, nodes, Members(ops))
  {
    hide Members, Adds, Picked;
    var head := new Node();
    nodes := [];
    var items: seq<Node> := [];
    NoOps(ops);
    assert Picked([], [], []) by { PickedNone(); }
    for i := 0 to |ops|
      invariant fresh(head) && forall n <- nodes :: fresh(n)
      invariant head !in nodes && forall n <- items :: n in nodes
      invariant Ring(head, items) && |nodes| == Adds(ops[..i]) && Picked(items, nodes, Members(ops[..i]))
    {
      OpStep(ops, i);
      PickedLength(items, nodes, Members(ops[..i]));
      if ops[i].Add? {
        var node := new Node();
        LastIsTail(head, items);
        assert items != [] ==> items[|items| - 1] in items;
        AddTail(head, node, items);
        PickedAdd(items, nodes, Members(ops[..i]), node);
        items := items + [node];
        nodes := nodes + [node];
      } else if ops[i].k < |items| {
        var k := ops[i].k;
        Neighbours(head, items, k);
        PickedRemove(items, nodes, Members(ops[..i]), k);
        Remove(items[k], head, items, k);
        items := items[..k] + items[k + 1..];
      }
    }
    assert ops[..|ops|] == ops;
    visited := ForEach(head, items);
  }

  lemma PickedNone()
    ensures Picked([], [], [])
  {}

  lemma PickedLength(items: seq<Node>, nodes: seq<Node>, members: seq<nat>)
    requires Picked(items, nodes, members)
    ensures |items| == |members|
  {}

  lemma PickedAdd(items: seq<Node>, nodes: seq<Node>, members: seq<nat>, node: Node)
    requires Picked(items, nodes, members)
    ensures Picked(items + [node], nodes + [node], members + [|nodes|])
  {}

  lemma PickedRemove(items: seq<Node>, nodes: seq<Node>, members: seq<nat>, k: nat)
    requires Picked(items, nodes, members) && k < |items|
    ensures k < |members| && Picked(items[..k] + items[k + 1..], nodes, members[..k] + members[k + 1..])
  {}

  lemma NoOps(ops: seq<Op>)
    ensures Members(ops[..0]) == [] && Adds(ops[..0]) == 0
  {}

  lemma LastIsTail(head: Node, items: seq<Node>)
    requires Ring(head, items)
    ensures head.prev == if items == [] then head else items[|items| - 1]
  {
    var ring := [head] + items;
    assert Link(ring, |items|);
  }

  lemma Neighbours(head: Node, items: seq<Node>, k: nat)
    requires Ring(head, items) && k < |items|
    ensures items[k].next == head || items[k].next in items
    ensures items[k].prev == head || items[k].prev in items
  {
    var ring := [head] + items;
    assert Link(ring, k) && Link(ring, k + 1) && ring[k + 1] == items[k];
  }
}
