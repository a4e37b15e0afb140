/** The doubly linked list the procedures hang on, and its refinement of a plain sequence. */
module ProcList {

  class Node<T> {
    var prev: Node?<T>
    var next: Node?<T>
    const data: T

    constructor (data: T)
      ensures prev == null && next == null && this.data == data
    {
      this.data := data;
      prev, next := null, null;
    }
  }

  /** The nodes are distinct and each points to its neighbours; nothing stands before the first or after the last. */
  ghost predicate Linked<T>(nodes: seq<Node<T>>)
    reads nodes
  {
    && (forall i, j :: 0 <= i < j < |nodes| ==> nodes[i] != nodes[j])
    && (forall i {:trigger nodes[i].prev} :: 0 <= i < |nodes| ==>
          nodes[i].prev == (if i == 0 then null else nodes[i - 1]))
    && (forall i {:trigger nodes[i].next} :: 0 <= i < |nodes| ==>
          nodes[i].next == (if i == |nodes| - 1 then null else nodes[i + 1]))
  }

  function DataOf<T>(nodes: seq<Node<T>>): (r: seq<T>)
    ensures |r| == |nodes|
  {
    seq(|nodes|, k requires 0 <= k < |nodes| => nodes[k].data)
  }

  function Without<T>(nodes: seq<T>, k: nat): seq<T>
    requires k < |nodes|
  {
    nodes[..k] + nodes[k + 1..]
  }

  function Inserted<T>(nodes: seq<T>, k: nat, node: T): seq<T>
    requires k <= |nodes|
  {
    nodes[..k] + [node] + nodes[k..]
  }

  lemma WithoutAt<T>(nodes: seq<T>, k: nat)
    requires k < |nodes|
    ensures |Without(nodes, k)| == |nodes| - 1
    ensures forall i :: 0 <= i < |nodes| - 1 ==> Without(nodes, k)[i] == (if i < k then nodes[i] else nodes[i + 1])
  {}

  lemma InsertedAt<T>(nodes: seq<T>, k: nat, node: T)
    requires k <= |nodes|
    ensures |Inserted(nodes, k, node)| == |nodes| + 1
    ensures forall i :: 0 <= i <= |nodes| ==>
              Inserted(nodes, k, node)[i] == (if i < k then nodes[i] else if i == k then node else nodes[i - 1])
  {}

  /** `list_unlink`: the neighbours are joined; the node keeps its own pointers. */
  method ListUnlink<T>(node: Node<T>, ghost nodes: seq<Node<T>>, ghost k: nat)
    requires Linked(nodes) && k < |nodes| && node == nodes[k]
    modifies nodes
    ensures Linked(Without(nodes, k))
    ensures node.prev == old(node.prev) && node.next == old(node.next)
  {
    WithoutAt(nodes, k);
    hide Without;
    if node.prev != null { node.prev.next := node.next; }
    if node.next != null { node.next.prev := node.prev; }
  }

  /** `list_append`: puts the node right after the k-th. */
  method ListAppend<T>(list: Node<T>, node: Node<T>, ghost nodes: seq<Node<T>>, ghost k: nat)
    requires Linked(nodes) && k < |nodes| && list == nodes[k] && node !in nodes
    modifies nodes, node
    ensures Linked(Inserted(nodes, k + 1, node))
  {
    InsertedAt(nodes, k + 1, node);
    hide Inserted;
    node.next := list.next;
    if list.next != null { list.next.prev := node; }
    list.next := node;
    node.prev := list;
  }

  /** `list_prepend`: puts the node right before the k-th. */
  method ListPrepend<T>(list: Node<T>, node: Node<T>, ghost nodes: seq<Node<T>>, ghost k: nat) returns (first: Node<T>)
    requires Linked(nodes) && k < |nodes| && list == nodes[k] && node !in nodes
    modifies nodes, node
    ensures Linked(Inserted(nodes, k, node)) && first == node
  {
    InsertedAt(nodes, k, node);
    hide Inserted;
    node.prev := list.prev;
    if list.prev != null { list.prev.next := node; }
    list.prev := node;
    node.next := list;
    first := node;
  }

  /** `list_tail`: follows the next pointers to the end. */
  method ListTail<T>(node: Node<T>, ghost nodes: seq<Node<T>>, ghost k: nat) returns (tail: Node<T>)
    requires Linked(nodes) && k < |nodes| && node == nodes[k]
    ensures tail == nodes[|nodes| - 1]
  {
    tail := node;
    ghost var i := k;
    while tail.next != null
      invariant i < |nodes| && tail == nodes[i]
      decreases |nodes| - i
    {
      tail := tail.next;
      i := i + 1;
    }
  }

  /** Finding the tail and appending there, as starting a procedure and yielding both do. */
  method AppendToTail<T>(first: Node<T>, node: Node<T>, ghost nodes: seq<Node<T>>)
    requires Linked(nodes) && nodes != [] && first == nodes[0] && node !in nodes
    modifies nodes, node
    ensures Linked(nodes + [node])
  {
    hide Linked;
    var tail := ListTail(first, nodes, 0);
    AppendedLast(nodes, node);
    ListAppend(tail, node, nodes, |nodes| - 1);
  }

  /** The VM's runnable procedures. */
  class Procedures<T> {
    var procedures: Node?<T>
    ghost var nodes: seq<Node<T>>

    ghost predicate Valid()
      reads this, nodes
    {
      Linked(nodes) && procedures == if nodes == [] then null else nodes[0]
    }

    ghost function Contents(): seq<T>
      reads this
    {
      DataOf(nodes)
    }

    constructor ()
      ensures Valid() && Contents() == [] && nodes == []
    {
      procedures, nodes := null, [];
    }

    /** `make_procedure`: a new node behind the last. */
    method MakeProcedure(proc: T)
      requires Valid()
      modifies this, nodes
      ensures Valid() && Contents() == old(Contents()) + [proc]
      ensures |nodes| == |old(nodes)| + 1 && nodes[..|nodes| - 1] == old(nodes) && fresh(nodes[|nodes| - 1])
    {
      var node := new Node(proc);
      if procedures == null {
        procedures := node;
        nodes := [node];
      } else {
        AppendToTail(procedures, node, nodes);
        nodes := nodes + [node];
      }
    }

    /** `delete_current_procedure`: the head leaves and its successor leads. */
    method DeleteCurrent()
      requires Valid() && Contents() != []
      modifies this, nodes
      ensures Valid() && Contents() == old(Contents())[1..] && nodes == old(nodes)[1..]
    {
      HeadLinks(nodes);
      hide Linked;
      var current := procedures;
      procedures := current.next;
      ListUnlink(current, nodes, 0);
      nodes := nodes[1..];
    }

    /** `sys_yield`: the head is unlinked and appended behind the last. */
    method Yield()
      requires Valid() && Contents() != []
      modifies this, nodes
      ensures Valid()
      ensures Contents() == old(Contents())[1..] + [old(Contents())[0]]
      ensures nodes == old(nodes)[1..] + [old(nodes)[0]]
    {
      HeadLinks(nodes);
      hide Linked;
      if procedures.next == null { return; }
      var self := procedures;
      procedures := procedures.next;
      ListUnlink(self, nodes, 0);
      ghost var rest := nodes[1..];
      AppendToTail(procedures, self, rest);
      nodes := rest + [self];
    }
  }

  lemma HeadLinks<T>(nodes: seq<Node<T>>)
    requires Linked(nodes) && nodes != []
    ensures nodes[0].next == (if |nodes| == 1 then null else nodes[1]) && nodes[0] !in nodes[1..]
    ensures Without(nodes, 0) == nodes[1..]
  {}

  lemma AppendedLast<T>(nodes: seq<T>, node: T)
    ensures Inserted(nodes, |nodes|, node) == nodes + [node]
  {}
}
