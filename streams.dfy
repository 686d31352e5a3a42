/** `DefaultStream`: a memoised lazy stream over a shared iterator, used for the
    tokenizer's output. Each node fixes at construction whether it is empty,
    pulls its head from the iterator at most once, and creates its tail on the
    same iterator after its head. */
module Streams {
  import opened Wrappers

  const EMPTY_STREAM := "Empty stream."

  /** A `java.util.Iterator` over a list: the elements and the next position. */
  class ElementIterator<T> {
    const elements: seq<T>
    var cursor: nat
    /** The stream nodes created over this iterator, in order; `ChainValid`
        relates their cached heads and tails to the iterator's position. */
    ghost var nodes: seq<DefaultStream<T>>

    constructor (elements: seq<T>)
      ensures this.elements == elements && cursor == 0 && nodes == []
    {
      this.elements := elements;
      cursor := 0;
      nodes := [];
    }

    function HasNext(): bool
      reads this
    {
      cursor < |elements|
    }

    method Next() returns (e: T)
      requires cursor < |elements|
      modifies this`cursor
      ensures e == elements[old(cursor)] && cursor == old(cursor) + 1
    {
      e := elements[cursor];
      cursor := cursor + 1;
    }

    /** Node `k` is consistent: emptiness is fixed and right, a cached head is
        the first element it stands for, every node but the last has its head and
        its tail is the next node, and the iterator's remaining elements are what
        the last node, or the node after it, stands for. */
    ghost predicate NodeOk(k: nat)
      requires k < |nodes|
      reads this, nodes
    {
      var n := nodes[k];
      n.elements == this && n.index == k &&
      (n.empty <==> n.rest == []) &&
      (n.head.Some? ==> n.rest != [] && n.head.value == n.rest[0]) &&
      (k + 1 < |nodes| ==>
         n.head.Some? && n.tail == nodes[k + 1] && nodes[k + 1].rest == n.rest[1..]) &&
      (k + 1 == |nodes| ==>
         cursor <= |elements| &&
         (n.empty ==> n.head.None? && elements[cursor..] == [] && (n.tail == null || n.tail == n)) &&
         (!n.empty && n.head.None? ==> n.tail == null && elements[cursor..] == n.rest) &&
         (n.head.Some? ==> n.tail == null && elements[cursor..] == n.rest[1..]))
    }

    ghost predicate ChainValid()
      reads this, nodes
    {
      forall k | 0 <= k < |nodes| :: NodeOk(k)
    }
  }

  class DefaultStream<T> {
    const elements: ElementIterator<T>
    const empty: bool
    var head: Option<T>
    var tail: DefaultStream?<T>
    /** This node's position in `elements.nodes`. */
    ghost const index: nat
    /** The elements this node stands for. */
    ghost const rest: seq<T>

    ghost predicate Valid()
      reads this, elements, elements.nodes
    {
      elements.ChainValid() && index < |elements.nodes| && elements.nodes[index] == this
    }

    /** A node over `elements` that is empty exactly when the iterator has no
        next element, registered as the last node of its chain. */
    constructor (elements: ElementIterator<T>, ghost rest: seq<T>)
      modifies elements`nodes
      ensures this.elements == elements && this.rest == rest && index == |old(elements.nodes)|
      ensures empty == !elements.HasNext() && head == None && tail == null
      ensures elements.nodes == old(elements.nodes) + [this]
    {
      this.elements := elements;
      this.rest := rest;
      index := |elements.nodes|;
      empty := !elements.HasNext();
      head := None;
      tail := null;
      new;
      elements.nodes := elements.nodes + [this];
    }

    predicate IsEmpty()
      reads this
    {
      empty
    }

    /** The first element, or "Empty stream."; the iterator is advanced only by
        the first call on a node. */
    method Head() returns (r: Result<T>)
      requires Valid()
      modifies this`head, elements`cursor
      ensures r.Err? <==> rest == []
      ensures r.Err? ==> r == Err(EMPTY_STREAM)
      ensures r.Ok? ==> r.value == rest[0] && head == Some(r.value)
      ensures Valid()
      ensures old(head).Some? || rest == [] ==> head == old(head) && elements.cursor == old(elements.cursor)
    {
      assert elements.NodeOk(index);
      if IsEmpty() {
        return Err(EMPTY_STREAM);
      }
      var h := InitHead();
      return Ok(h);
    }

    method InitHead() returns (h: T)
      requires Valid() && !empty
      modifies this`head, elements`cursor
      ensures Valid() && rest != [] && head == Some(h) && h == rest[0]
      ensures old(head).Some? ==> head == old(head) && elements.cursor == old(elements.cursor)
    {
      assert elements.NodeOk(index);
      if head.Some? {
        return head.value;
      }
      h := elements.Next();
      head := Some(h);
      forall k | 0 <= k < |elements.nodes| && k != index
        ensures elements.NodeOk(k)
      {
        assert old(elements.NodeOk(k));
      }
      assert elements.elements[elements.cursor..] == old(elements.elements[elements.cursor..])[1..];
      assert elements.NodeOk(index);
    }

    /** The memoised tail: the node itself when empty, otherwise a node over the
        same iterator standing for the rest, created after the head is pulled. */
    method Tail() returns (t: DefaultStream<T>)
      requires Valid()
      modifies this`head, this`tail, elements
      ensures Valid() && t.Valid() && t.elements == elements && tail == t
      ensures rest == [] ==> t == this
      ensures rest != [] ==> t.rest == rest[1..]
      ensures old(tail) != null ==> t == old(tail) && unchanged(this, elements)
      ensures old(elements.nodes) <= elements.nodes
    {
      assert elements.NodeOk(index);
      if tail != null {
        if index + 1 < |elements.nodes| {
          assert elements.NodeOk(index + 1);
        }
        return tail;
      }
      if IsEmpty() {
        tail := this;
        forall k | 0 <= k < |elements.nodes| && k != index
          ensures elements.NodeOk(k)
        {
          assert old(elements.NodeOk(k));
        }
        assert elements.NodeOk(index);
        return this;
      }
      var _ := InitHead();
      assert elements.NodeOk(index);
      t := AppendTail();
    }

    method AppendTail() returns (next: DefaultStream<T>)
      requires Valid() && head.Some? && tail == null && rest != []
      modifies this`tail, elements`nodes
      ensures Valid() && next.Valid() && fresh(next) && tail == next
      ensures next.elements == elements && next.rest == rest[1..]
      ensures old(elements.nodes) <= elements.nodes
    {
      assert elements.NodeOk(index);
      next := new DefaultStream(elements, rest[1..]);
      tail := next;
      forall k | 0 <= k < index
        ensures elements.NodeOk(k)
      {
        assert old(elements.NodeOk(k));
      }
      assert elements.NodeOk(index);
      assert elements.NodeOk(index + 1);
    }
  }

  /** `newStream(iterator)` over a fresh iterator on `elements`. */
  method NewStream<T>(elements: seq<T>) returns (s: DefaultStream<T>)
    ensures fresh(s) && s.Valid() && s.rest == elements
  {
    var it := new ElementIterator(elements);
    assert elements[0..] == elements;
    s := new DefaultStream(it, elements);
    assert it.NodeOk(0);
  }
}
