/** The circular doubly linked list of `list.h`. A node carries the structure it
    is embedded in; the list head is a node that carries none. */
module IntrusiveList {
  import opened Bytes

  class Node<T> {
    var prev: Node<T>
    var next: Node<T>
    var entry: Option<T>  // what `container_of` recovers

    constructor (e: Option<T>)
      ensures entry == e && prev == this && next == this
    {
      entry := e;
      prev, next := this, this;
    }
  }

  function Remove<T>(xs: seq<T>, k: nat): (r: seq<T>)
    requires k < |xs|
    ensures |r| == |xs| - 1
    ensures forall i :: 0 <= i < k ==> r[i] == xs[i]
    ensures forall i :: k <= i < |r| ==> r[i] == xs[i + 1]
  {
    xs[..k] + xs[k + 1..]
  }

  lemma {:induction false} RemoveAppend<T>(xs: seq<T>, k: nat, ys: seq<T>)
    requires k < |xs|
    ensures Remove(xs + ys, k) == Remove(xs, k) + ys
  {
    assert (xs + ys)[..k] == xs[..k] && (xs + ys)[k + 1..] == xs[k + 1..] + ys;
    ConcatAssoc(xs[..k], xs[k + 1..], ys);
  }

  /** A list: its head, the nodes linked in, in order, and a set of nodes among
      which they are found. */
  class List<T> {
    const head: Node<T>
    ghost var xs: seq<Node<T>>
    ghost var nodes: set<Node<T>>

    /** The node at position `i` of the ring `head, xs[0], xs[1], ..., head`. */
    ghost function At(i: int): Node<T>
      requires -1 <= i <= |xs|
      reads this`xs
    {
      if i == -1 || i == |xs| then head else xs[i]
    }

    /** Following `next` from the head visits `ys` and returns to the head. */
    ghost predicate Forward(ys: seq<Node<T>>)
      reads head`next, ys`next
    {
      && head.next == (if ys == [] then head else ys[0])
      && forall i {:trigger ys[i].next} :: 0 <= i < |ys| ==> ys[i].next == (if i + 1 == |ys| then head else ys[i + 1])
    }

    /** Following `prev` from the head visits `ys` backwards. */
    ghost predicate Backward(ys: seq<Node<T>>)
      reads head`prev, ys`prev
    {
      && head.prev == (if ys == [] then head else ys[|ys| - 1])
      && forall i {:trigger ys[i].prev} :: 0 <= i < |ys| ==> ys[i].prev == (if i == 0 then head else ys[i - 1])
    }

    ghost predicate Among(ys: seq<Node<T>>)
      reads this`nodes
    {
      head in nodes && head !in ys && Distinct(ys) && forall i :: 0 <= i < |ys| ==> ys[i] in nodes
    }

    ghost predicate Valid()
      reads this, nodes`prev, nodes`next
    {
      Among(xs) && Forward(xs) && Backward(xs)
    }

    constructor ()
      ensures Valid() && xs == [] && nodes == {head} && fresh(head)
    {
      head := new Node(None);
      xs := [];
      new;
      nodes := {head};
    }

    lemma {:induction false} NextAt(k: nat)
      requires Valid() && k < |xs|
      ensures xs[k].next == At(k + 1)
    {}

    lemma {:induction false} EndAt(k: nat)
      requires Valid() && k <= |xs|
      ensures At(k) == head <==> k == |xs|
    {}

    /** Admits a new node to the set the list is made from. */
    ghost method Admit(item: Node<T>)
      requires Valid()
      modifies this`nodes
      ensures Valid() && nodes == old(nodes) + {item}
    {
      nodes := nodes + {item};
    }

    /** `list_add`: links `item` in as the last node. */
    method Add(item: Node<T>)
      requires Valid() && item in nodes && item != head && item !in xs
      modifies this`xs, nodes`prev, nodes`next
      ensures Valid() && xs == old(xs) + [item]
    {
      var prev := head.prev;
      item.next := head;
      item.prev := prev;
      head.prev := item;
      prev.next := item;
      xs := xs + [item];
    }

    /** `list_del`: unlinks the node at position `k`; its own pointers are left
        as they were. */
    method Del(item: Node<T>, ghost k: nat)
      requires Valid() && k < |xs| && item == xs[k]
      modifies this`xs, nodes`prev, nodes`next
      ensures Valid() && xs == Remove(old(xs), k)
      ensures item.next == old(item.next) && item.prev == old(item.prev)
    {
      ghost var ys := Remove(xs, k);
      assert xs[k].prev == At(k - 1) && xs[k].next == At(k + 1);
      item.prev.next := item.next;
      assert Forward(ys);
      item.next.prev := item.prev;
      assert Backward(ys);
      xs := ys;
    }

    /** `list_empty`. */
    method Empty() returns (b: bool)
      requires Valid()
      ensures b <==> xs == []
    {
      b := head.next == head;
    }
  }
}
