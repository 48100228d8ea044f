/** The stack-ended queue: a singly linked list with a pointer to each end and a count. */
module StequeModel {
  import opened Collections

  class Node<T> {
    var item: T
    var next: Node?<T>

    constructor (item: T, next: Node?<T>)
      ensures this.item == item && this.next == next
    {
      this.item, this.next := item, next;
    }
  }

  class Steque<T> {
    var front: Node?<T>
    var back: Node?<T>
    var N: int

    ghost var Contents: seq<T>
    ghost var nodes: seq<Node<T>>

    /** `nodes` is the list from front to back: no node twice, the last one ends it, and each holds its item. */
    ghost predicate Valid()
      reads this, nodes
    {
      && N == |nodes| == |Contents|
      && (forall i, j :: 0 <= i < j < |nodes| ==> nodes[i] != nodes[j])
      && (forall i :: 0 <= i < |nodes| ==> nodes[i].item == Contents[i])
      && (forall i :: 0 <= i < |nodes| - 1 ==> nodes[i].next == nodes[i + 1])
      && (if nodes == [] then front == null && back == null
          else front == nodes[0] && back == nodes[|nodes| - 1] && nodes[|nodes| - 1].next == null)
    }

    /** steque_init */
    constructor ()
      ensures Valid() && Contents == []
    {
      front, back, N := null, null, 0;
      Contents, nodes := [], [];
    }

    method Enqueue(item: T)
      requires Valid()
      modifies this, nodes
      ensures Valid() && Contents == old(Contents) + [item]
      ensures |nodes| == |old(nodes)| + 1 && fresh(nodes[|old(nodes)|]) && nodes[..|old(nodes)|] == old(nodes)
    {
      var node := new Node(item, null);
      if back == null {
        front := node;
      } else {
        back.next := node;
      }
      back := node;
      N := N + 1;
      Contents, nodes := Contents + [item], nodes + [node];
    }

    method Push(item: T)
      requires Valid()
      modifies this
      ensures Valid() && Contents == [item] + old(Contents)
      ensures |nodes| == |old(nodes)| + 1 && fresh(nodes[0]) && nodes[1..] == old(nodes)
    {
      var node := new Node(item, front);
      if back == null {
        back := node;
      }
      front := node;
      N := N + 1;
      Contents, nodes := [item] + Contents, [node] + nodes;
    }

    method Size() returns (n: int)
      requires Valid()
      ensures n == |Contents|
    {
      n := N;
    }

    method IsEmpty() returns (empty: bool)
      requires Valid()
      ensures empty <==> Contents == []
    {
      empty := N == 0;
    }

    /** None where the source reports an underflow and ends the program. */
    method Pop() returns (r: Option<T>)
      requires Valid()
      modifies this
      ensures Valid()
      ensures old(Contents) == [] ==> r == None && Contents == [] && nodes == old(nodes)
      ensures old(Contents) != [] ==>
                r == Some(old(Contents)[0]) && Contents == old(Contents)[1..] && nodes == old(nodes)[1..]
    {
      if front == null {
        return None;
      }
      var node := front;
      var ans := node.item;
      front := front.next;
      if front == null {
        back := null;
      }
      N := N - 1;
      Contents, nodes := Contents[1..], nodes[1..];
      return Some(ans);
    }

    /** None where the source reports an underflow and ends the program. */
    method Front() returns (r: Option<T>)
      requires Valid()
      ensures r == if Contents == [] then None else Some(Contents[0])
    {
      if front == null {
        return None;
      }
      return Some(front.item);
    }

    /** The front item moves to the back; the list is a ring for a moment, also when it has one node. */
    method Cycle()
      requires Valid()
      modifies this, nodes
      ensures Valid() && Contents == Rotated(old(Contents)) && nodes == Rotated(old(nodes))
    {
      if back == null {
        return;
      }
      back.next := front;
      back := front;
      front := front.next;
      back.next := null;
      Contents, nodes := Rotated(Contents), Rotated(nodes);
    }

    method Destroy()
      requires Valid()
      modifies this
      ensures Valid() && Contents == [] && front == null && back == null && N == 0
    {
      var empty := IsEmpty();
      while !empty
        invariant Valid() && (empty <==> Contents == [])
        decreases |Contents|
      {
        var _ := Pop();
        empty := IsEmpty();
      }
    }

    /** Following `next` from the front reads off the contents and meets the end after N nodes. */
    lemma FrontLeadsThroughContents()
      requires Valid()
      ensures Walk(front, N, set n | n in nodes) == Some(Contents)
    {
      SuffixWalk(0);
      assert Contents[0..] == Contents;
    }

    lemma {:induction false} SuffixWalk(i: nat)
      requires Valid() && i <= |nodes|
      ensures Walk(if i < |nodes| then nodes[i] else null, |nodes| - i, set n | n in nodes) == Some(Contents[i..])
      decreases |nodes| - i
    {
      if i < |nodes| {
        SuffixWalk(i + 1);
        assert nodes[i].next == if i + 1 < |nodes| then nodes[i + 1] else null;
        assert Contents[i..] == [Contents[i]] + Contents[i + 1..];
      }
    }
  }

  function Rotated<T>(s: seq<T>): (r: seq<T>) {
    if s == [] then [] else s[1..] + [s[0]]
  }

  /** The items of exactly n nodes linked by `next` from the given node on; None if the list ends earlier or later, or
  leaves the region. */
  ghost function Walk<T>(node: Node?<T>, n: nat, region: set<Node<T>>): (r: Option<seq<T>>)
    reads region
  {
    if n == 0 then (if node == null then Some([]) else None)
    else if node == null || node !in region then None
    else match Walk(node.next, n - 1, region)
      case None => None
      case Some(rest) => Some([node.item] + rest)
  }

  function Cycled<T>(s: seq<T>, k: nat): (r: seq<T>)
    decreases k
  {
    if k == 0 then s else Cycled(Rotated(s), k - 1)
  }

  /** k cycles bring the k-th item to the front; as many cycles as there are items change nothing. */
  lemma {:induction false} CycledAt<T>(s: seq<T>, k: nat)
    requires k <= |s|
    ensures Cycled(s, k) == s[k..] + s[..k]
    decreases k
  {
    if k > 0 {
      CycledAt(Rotated(s), k - 1);
      assert Rotated(s)[k - 1..] + Rotated(s)[..k - 1] == s[k..] + s[..k];
    }
  }
}
