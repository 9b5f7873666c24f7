/** The singly linked list with head, tail and count that the worker keeps its jobs and its
    forwarded requests in (ds4_distributed.c). */
module LinkedFifo {

  class Node<T> {
    var value: T
    var next: Node?<T>

    constructor (value: T)
      ensures this.value == value && next == null
    {
      this.value, next := value, null;
    }
  }

  /** values without the element at position k. */
  function Without<T>(values: seq<T>, k: nat): seq<T>
    requires k < |values|
  {
    values[..k] + values[k + 1..]
  }

  lemma WithoutAt<T>(values: seq<T>, k: nat)
    requires k < |values|
    ensures |Without(values, k)| == |values| - 1
    ensures forall i :: 0 <= i < |values| - 1 ==> Without(values, k)[i] == if i < k then values[i] else values[i + 1]
  {
  }

  ghost predicate Distinct<T>(values: seq<T>) {
    forall i, j :: 0 <= i < j < |values| ==> values[i] != values[j]
  }

  lemma OnlyAt<T>(values: seq<T>, k: nat)
    requires Distinct(values) && k < |values|
    ensures forall i :: 0 <= i < |values| && i != k ==> values[i] != values[k]
  {
  }

  lemma DistinctWithout<T>(values: seq<T>, k: nat)
    requires Distinct(values) && k < |values|
    ensures Distinct(Without(values, k))
  {
  }

  lemma DistinctAppend<T>(values: seq<T>, value: T)
    requires Distinct(values) && value !in values
    ensures Distinct(values + [value])
  {
  }

  class Fifo<T> {
    var head: Node?<T>
    var tail: Node?<T>
    var count: nat
    ghost var nodes: seq<Node<T>>
    /** What the list holds, oldest first. */
    ghost var contents: seq<T>

    /** The links lead through nodes, which are all different and hold the contents; tail is the last
        of them. */
    ghost predicate Valid()
      reads this, nodes
    {
      && count == |nodes| == |contents|
      && Distinct(nodes)
      && (forall i :: 0 <= i < |nodes| ==> nodes[i].value == contents[i])
      && (forall i, j :: 0 <= i < |nodes| && j == i + 1 && j < |nodes| ==> nodes[i].next == nodes[j])
      && (if nodes == [] then head == null && tail == null
          else head == nodes[0] && tail == nodes[|nodes| - 1] && tail.next == null)
    }

    constructor ()
      ensures Valid() && contents == [] && nodes == []
    {
      head, tail, count, nodes, contents := null, null, 0, [], [];
    }

    method Append(value: T)
      requires Valid()
      modifies this, nodes
      ensures Valid() && contents == old(contents) + [value]
      ensures |nodes| == |old(nodes)| + 1 && nodes[..|old(nodes)|] == old(nodes) && fresh(nodes[|old(nodes)|])
    {
      hide Distinct;
      var node := new Node(value);
      DistinctAppend(nodes, node);
      if tail != null {
        tail.next := node;
      } else {
        head := node;
      }
      tail := node;
      count := count + 1;
      nodes, contents := nodes + [node], contents + [value];
    }

    method PopFront() returns (value: T)
      requires Valid() && contents != []
      modifies this
      ensures Valid() && [value] + contents == old(contents)
      ensures nodes == old(nodes)[1..]
    {
      value := head.value;
      head := head.next;
      if head == null {
        tail := null;
      }
      count := count - 1;
      nodes, contents := nodes[1..], contents[1..];
    }

    method Clear()
      requires Valid()
      modifies this
      ensures Valid() && contents == [] && nodes == []
    {
      head, tail, count, nodes, contents := null, null, 0, [], [];
    }

    /** Unlinks the node at position k, whose predecessor is prev. */
    method Unlink(prev: Node?<T>, node: Node<T>, ghost k: nat)
      requires Valid() && k < |nodes| && node == nodes[k]
      requires prev == if k == 0 then null else nodes[k - 1]
      modifies this, nodes
      ensures Valid() && contents == Without(old(contents), k) && nodes == Without(old(nodes), k)
    {
      hide Distinct;
      ghost var was, values, last := nodes, contents, |nodes| - 1;
      WithoutAt(was, k);
      WithoutAt(values, k);
      DistinctWithout(was, k);
      OnlyAt(was, k);
      if prev == null {
        head := node.next;
      } else {
        OnlyAt(was, k - 1);
        prev.next := node.next;
      }
      if tail == node {
        tail := prev;
      }
      count := count - 1;
      nodes, contents := Without(was, k), Without(values, k);
    }

    /** Unlinks the first value that wanted holds of, from the front, the middle or the end. */
    method RemoveFirst(wanted: T -> bool) returns (found: bool)
      requires Valid()
      modifies this, nodes
      ensures Valid()
      ensures !found ==> contents == old(contents) && nodes == old(nodes)
      ensures !found ==> forall v :: v in contents ==> !wanted(v)
      ensures found ==> exists k :: 0 <= k < |old(contents)| && FirstAt(old(contents), wanted, k)
                                    && contents == Without(old(contents), k) && nodes == Without(old(nodes), k)
    {
      var prev: Node?<T>, node := null, head;
      ghost var k := 0;
      while node != null
        invariant 0 <= k <= |nodes|
        invariant node == (if k < |nodes| then nodes[k] else null)
        invariant prev == (if k == 0 then null else nodes[k - 1])
        invariant forall i :: 0 <= i < k ==> !wanted(contents[i])
        decreases |nodes| - k
      {
        if wanted(node.value) {
          Unlink(prev, node, k);
          assert FirstAt(old(contents), wanted, k);
          return true;
        }
        prev, node := node, node.next;
        k := k + 1;
      }
      return false;
    }

    /** Rewrites the first value that wanted holds of. */
    method UpdateFirst(wanted: T -> bool, update: T -> T)
      requires Valid()
      modifies this`contents, nodes
      ensures Valid() && nodes == old(nodes)
      ensures (contents == old(contents) && forall v :: v in contents ==> !wanted(v))
              || exists k :: 0 <= k < |old(contents)| && FirstAt(old(contents), wanted, k)
                             && contents == old(contents)[k := update(old(contents)[k])]
    {
      var node := head;
      ghost var k := 0;
      while node != null
        invariant 0 <= k <= |nodes|
        invariant node == (if k < |nodes| then nodes[k] else null)
        invariant forall i :: 0 <= i < k ==> !wanted(contents[i])
        decreases |nodes| - k
      {
        if wanted(node.value) {
          node.value := update(node.value);
          contents := contents[k := update(contents[k])];
          assert FirstAt(old(contents), wanted, k);
          return;
        }
        node := node.next;
        k := k + 1;
      }
    }
  }

  /** k is the first position that wanted holds of. */
  ghost predicate FirstAt<T>(values: seq<T>, wanted: T -> bool, k: int) {
    0 <= k < |values| && wanted(values[k]) && forall i :: 0 <= i < k ==> !wanted(values[i])
  }
}
