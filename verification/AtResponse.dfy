/** ATResponse: the intermediate lines of one command in a linked list, newest first, which is
    turned round in place before the command returns. */
module AtResponse {
  import opened Options
  import opened Sequences

  function Reversed<T>(s: seq<T>): (r: seq<T>)
    ensures |r| == |s|
  {
    if s == [] then [] else Reversed(s[1..]) + [s[0]]
  }

  lemma {:induction false} ReversedSnoc<T>(s: seq<T>, x: T)
    ensures Reversed(s + [x]) == [x] + Reversed(s)
    decreases |s|
  {
    if s == [] {
      assert s + [x] == [x];
    } else {
      assert (s + [x])[1..] == s[1..] + [x];
      ReversedSnoc(s[1..], x);
    }
  }

  lemma {:induction false} ReversedTwice<T>(s: seq<T>)
    ensures Reversed(Reversed(s)) == s
    decreases |s|
  {
    if s != [] {
      ReversedTwice(s[1..]);
      ReversedSnoc(Reversed(s[1..]), s[0]);
    }
  }

  class AtLine {
    const line: string
    var next: AtLine?

    constructor (line: string, next: AtLine?)
      ensures this.line == line && this.next == next
    {
      this.line, this.next := line, next;
    }
  }

  function At(nodes: seq<AtLine>, i: nat): AtLine? {
    if i < |nodes| then nodes[i] else null
  }

  /** A chain of next pointers from head to null that runs through exactly these nodes. */
  ghost predicate Linked(head: AtLine?, nodes: seq<AtLine>)
    reads nodes
  {
    && head == At(nodes, 0)
    && (forall i {:trigger nodes[i]} :: 0 <= i < |nodes| ==> nodes[i].next == At(nodes, i + 1))
    && (forall i, j :: 0 <= i < j < |nodes| ==> nodes[i] != nodes[j])
  }

  function Texts(nodes: seq<AtLine>): (r: seq<string>)
    ensures |r| == |nodes|
  {
    if nodes == [] then [] else [nodes[0].line] + Texts(nodes[1..])
  }

  class Response {
    var intermediates: AtLine?
    var finalResponse: Option<string>
    var success: bool
    ghost var nodes: seq<AtLine>

    ghost predicate Valid()
      reads this, nodes
    {
      Linked(intermediates, nodes)
    }

    /** The lines in the order of the list. */
    ghost function Lines(): seq<string>
      reads this
    {
      Texts(nodes)
    }

    constructor ()
      ensures Valid() && nodes == [] && Lines() == [] && finalResponse == None && !success
    {
      intermediates, finalResponse, success, nodes := null, None, false, [];
    }

    /** addIntermediate: a copy of the line becomes the head. */
    method Add(line: string)
      requires Valid()
      modifies this`intermediates, this`nodes
      ensures Valid() && Lines() == [line] + old(Lines())
      ensures forall n <- nodes :: n in old(nodes) || fresh(n)
    {
      var node := new AtLine(line, intermediates);
      intermediates := node;
      nodes := [node] + nodes;
      assert nodes[1..] == old(nodes);
    }

    /** Moves the first node of a chain in front of the list, and gives the rest of the chain. */
    method Push(cur: AtLine, ghost rest: seq<AtLine>) returns (next: AtLine?)
      requires Linked(cur, rest) && rest != [] && Valid()
      requires forall n <- rest :: n !in nodes
      modifies this`intermediates, this`nodes, cur`next
      ensures Valid() && nodes == [cur] + old(nodes)
      ensures Linked(next, rest[1..])
      ensures forall n <- rest[1..] :: n !in nodes
    {
      assert cur == rest[0] && cur !in nodes;
      next := cur.next;
      cur.next := intermediates;
      intermediates := cur;
      nodes := [cur] + nodes;
      forall i | 0 <= i < |nodes| ensures nodes[i].next == At(nodes, i + 1) {
        if i > 0 {
          assert nodes[i] == old(nodes)[i - 1];
        }
      }
    }

    /** reverseIntermediates: every next pointer is turned round, and no node is added or lost. */
    method Reverse()
      requires Valid()
      modifies this`intermediates, this`nodes, nodes
      ensures Valid() && Lines() == Reversed(old(Lines()))
      ensures nodes == Reversed(old(nodes))
    {
      var cur := intermediates;
      ghost var rest := nodes;
      intermediates, nodes := null, [];
      while cur != null
        invariant Linked(cur, rest) && Linked(intermediates, nodes)
        invariant forall n <- rest :: n in old(nodes)
        invariant forall n <- nodes :: n in old(nodes)
        invariant forall n <- rest :: n !in nodes
        invariant Reversed(rest) + nodes == Reversed(old(nodes))
        decreases |rest|
      {
        hide Reversed, Linked;
        assert cur in rest && rest == [cur] + rest[1..] by { HeadIn(cur, rest); }
        Split(rest, nodes);
        cur := Push(cur, rest);
        rest := rest[1..];
      }
      assert Reversed(rest) + nodes == nodes;
      TextsReversed(old(nodes));
    }
  }

  lemma HeadIn(head: AtLine, nodes: seq<AtLine>)
    requires Linked(head, nodes)
    ensures nodes != [] && head == nodes[0] && nodes == [head] + nodes[1..]
  {}

  lemma Split(rest: seq<AtLine>, done: seq<AtLine>)
    requires rest != []
    ensures Reversed(rest[1..]) + ([rest[0]] + done) == Reversed(rest) + done
  {
    SeqAssoc(Reversed(rest[1..]), [rest[0]], done);
  }

  lemma {:induction false} TextsSnoc(nodes: seq<AtLine>, n: AtLine)
    ensures Texts(nodes + [n]) == Texts(nodes) + [n.line]
    decreases |nodes|
  {
    if nodes == [] {
      assert nodes + [n] == [n];
    } else {
      assert (nodes + [n])[1..] == nodes[1..] + [n];
      TextsSnoc(nodes[1..], n);
    }
  }

  lemma {:induction false} TextsReversed(nodes: seq<AtLine>)
    ensures Texts(Reversed(nodes)) == Reversed(Texts(nodes))
    decreases |nodes|
  {
    if nodes != [] {
      TextsReversed(nodes[1..]);
      TextsSnoc(Reversed(nodes[1..]), nodes[0]);
    }
  }
}
