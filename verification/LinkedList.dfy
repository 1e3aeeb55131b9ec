/** The singly linked list with insertion at the end, and its iterator. */
module LinkedList {

  datatype Lookup<+T> = OutOfBounds | Found(value: T)

  class Node<T> {
    var data: T
    var next: Node?<T>

    constructor (data: T)
      ensures this.data == data && next == null
    {
      this.data := data;
      next := null;
    }
  }

  class List<T> {
    var first: Node?<T>
    var last: Node?<T>
    var length: nat
    /** The nodes reachable from `first`, in order. */
    ghost var nodes: seq<Node<T>>

    ghost predicate Valid()
      reads this, nodes
    {
      && length == |nodes|
      && first == (if nodes == [] then null else nodes[0])
      && last == (if nodes == [] then null else nodes[|nodes| - 1])
      && (forall i | 0 <= i < |nodes| :: nodes[i].next == if i + 1 < |nodes| then nodes[i + 1] else null)
      && (forall i, j | 0 <= i < j < |nodes| :: nodes[i] != nodes[j])
    }

    ghost function Contents(): (s: seq<T>)
      reads this, nodes
      ensures |s| == |nodes|
    {
      seq(|nodes|, i requires 0 <= i < |nodes| reads this, nodes => nodes[i].data)
    }

    constructor ()
      ensures Valid() && Contents() == [] && nodes == []
    {
      first, last, length := null, null, 0;
      nodes := [];
    }

    method Add(x: T)
      requires Valid()
      modifies this, nodes
      ensures Valid() && Contents() == old(Contents()) + [x]
      ensures fresh(last) && nodes == old(nodes) + [last]
    {
      var node := new Node(x);
      if first == null {
        first := node;
        last := first;
      } else {
        last.next := node;
        last := last.next;
      }
      length := length + 1;
      nodes := nodes + [node];
    }

    /** The element at `index`; outside the list the program ends with an error. */
    method Get(index: int) returns (r: Lookup<T>)
      requires Valid()
      ensures r == if 0 <= index < |Contents()| then Found(Contents()[index]) else OutOfBounds
    {
      if index < 0 || index >= length {
        return OutOfBounds;
      }
      var runner := first;
      var i := index;
      while i > 0
        invariant 0 <= i <= index
        invariant runner == nodes[index - i]
      {
        runner := runner.next;
        i := i - 1;
      }
      return Found(runner.data);
    }

    method Length() returns (n: nat)
      requires Valid()
      ensures n == |Contents()|
    {
      n := length;
    }
  }

  class Iterator<T> {
    var ptr: Node?<T>
    ghost const list: List<T>
    /** How many elements were already delivered. */
    ghost var pos: nat

    ghost predicate Valid()
      reads this, list, list.nodes
    {
      && list.Valid() && pos <= |list.nodes|
      && ptr == (if pos < |list.nodes| then list.nodes[pos] else null)
    }

    constructor (list: List<T>)
      requires list.Valid()
      ensures Valid() && this.list == list && pos == 0
    {
      this.list := list;
      ptr := list.first;
      pos := 0;
    }

    method HasNext() returns (more: bool)
      requires Valid()
      ensures more <==> pos < |list.Contents()|
    {
      more := ptr != null;
    }

    /** The next element; on a depleted iterator the program ends with an error. */
    method Next() returns (r: Lookup<T>)
      requires Valid()
      modifies this`ptr, this`pos
      ensures Valid()
      ensures r == if old(pos) < |list.Contents()| then Found(list.Contents()[old(pos)]) else OutOfBounds
      ensures pos == if old(pos) < |list.Contents()| then old(pos) + 1 else old(pos)
    {
      if ptr == null {
        return OutOfBounds;
      }
      ghost var node := list.nodes[pos];
      assert node.next == if pos + 1 < |list.nodes| then list.nodes[pos + 1] else null;
      r := Found(ptr.data);
      ptr := ptr.next;
      pos := pos + 1;
    }
  }

  /** An iterator visits every element once, in order. */
  method Visit<T>(list: List<T>) returns (visited: seq<T>)
    requires list.Valid()
    ensures visited == list.Contents()
  {
    hide List.Valid, List.Contents;
    ghost var all := list.Contents();
    var iter := new Iterator(list);
    visited := [];
    var more := iter.HasNext();
    while more
      invariant iter.Valid() && iter.list == list && fresh(iter) && list.Contents() == all
      invariant iter.pos <= |all| && visited == all[..iter.pos]
      invariant more <==> iter.pos < |all|
      decreases |all| - iter.pos
    {
      var next := iter.Next();
      visited := visited + [next.value];
      more := iter.HasNext();
    }
  }
}
