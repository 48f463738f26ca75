/** The list of AIO handlers: nodes linked in memory, and the sequence of nodes they stand for. */
module AioList {

  type Ptr = nat

  datatype Link = Nil | To(p: Ptr)

  /** What points at a node: the head of the list or the link of the node before it. */
  datatype Where = Head | NextOf(p: Ptr)

  datatype Node = Node(fd: int, read: bool, write: bool, flush: bool, data: int, deleted: bool, next: Link, prev: Where)

  /** The memory: the nodes that are allocated. */
  type Heap = map<Ptr, Node>

  datatype List = List(heap: Heap, first: Link)

  function LinkAt(order: seq<Ptr>, i: nat): Link {
    if i < |order| then To(order[i]) else Nil
  }

  function WhereAt(order: seq<Ptr>, i: nat): Where
    requires i <= |order|
  {
    if i == 0 then Head else NextOf(order[i - 1])
  }

  ghost predicate Distinct(order: seq<Ptr>) {
    forall i, j | 0 <= i < j < |order| :: order[i] != order[j]
  }

  /** The links go through exactly the allocated nodes, in that order, and back. */
  ghost predicate Linked(l: List, order: seq<Ptr>) {
    && Distinct(order)
    && (forall p :: p in l.heap <==> p in order)
    && l.first == LinkAt(order, 0)
    && (forall i: nat | i < |order| :: NodeOk(l.heap, order, i))
  }

  ghost predicate NodeOk(heap: Heap, order: seq<Ptr>, i: nat)
    requires i < |order|
  {
    order[i] in heap && heap[order[i]].next == LinkAt(order, i + 1) && heap[order[i]].prev == WhereAt(order, i)
  }

  // ---------------------------------------------------------------------------------------------
  // LIST_INSERT_HEAD and LIST_REMOVE

  function InsertHead(l: List, p: Ptr, n: Node): List {
    var heap :=
      if l.first.To? && l.first.p in l.heap then l.heap[l.first.p := l.heap[l.first.p].(prev := NextOf(p))] else l.heap;
    List(heap[p := n.(next := l.first, prev := Head)], To(p))
  }

  function Remove(l: List, p: Ptr): List
    requires p in l.heap
  {
    var n := l.heap[p];
    var heap :=
      if n.next.To? && n.next.p in l.heap then l.heap[n.next.p := l.heap[n.next.p].(prev := n.prev)] else l.heap;
    var unlinked :=
      if n.prev.NextOf? && n.prev.p in heap then List(heap[n.prev.p := heap[n.prev.p].(next := n.next)], l.first)
      else List(heap, n.next);
    List(unlinked.heap - {p}, unlinked.first)
  }

  lemma {:induction false} InsertLinked(l: List, order: seq<Ptr>, p: Ptr, n: Node)
    requires Linked(l, order) && p !in l.heap
    ensures Linked(InsertHead(l, p, n), [p] + order)
  {
    hide NodeOk;
    var m, all := InsertHead(l, p, n), [p] + order;
    InsertFirstOk(l, order, p, n);
    forall i: nat | i < |all|
      ensures NodeOk(m.heap, all, i)
    {
      if i > 0 {
        InsertNodeOk(l, order, p, n, i - 1);
      }
    }
    InsertKeys(l, order, p, n);
  }

  lemma {:induction false} InsertFirstOk(l: List, order: seq<Ptr>, p: Ptr, n: Node)
    requires l.first == LinkAt(order, 0)
    ensures var m := InsertHead(l, p, n); m.first == To(p) && NodeOk(m.heap, [p] + order, 0)
  {
  }

  lemma {:induction false} InsertNodeOk(l: List, order: seq<Ptr>, p: Ptr, n: Node, i: nat)
    requires i < |order| && Distinct(order) && p !in l.heap && l.first == LinkAt(order, 0) && NodeOk(l.heap, order, i)
    ensures NodeOk(InsertHead(l, p, n).heap, [p] + order, i + 1)
  {
  }

  lemma {:induction false} InsertKeys(l: List, order: seq<Ptr>, p: Ptr, n: Node)
    requires forall q :: q in l.heap <==> q in order
    ensures forall q :: q in InsertHead(l, p, n).heap <==> q in [p] + order
  {
  }

  function Without(order: seq<Ptr>, i: nat): (r: seq<Ptr>)
    requires i < |order|
    ensures |r| == |order| - 1
  {
    order[..i] + order[i + 1..]
  }

  /** Apart from the links, the other nodes stay what they are. */
  lemma {:induction false} RemoveKeeps(l: List, p: Ptr, q: Ptr)
    requires p in l.heap && q in l.heap && q != p
    ensures var m := Remove(l, p);
            && q in m.heap && m.heap[q] == l.heap[q].(next := m.heap[q].next, prev := m.heap[q].prev)
            && p !in m.heap
  {
  }

  lemma {:induction false} RemoveLinks(l: List, order: seq<Ptr>, i: nat, j: nat)
    requires i < |order| && j < |order| && j != i && Distinct(order) && NodeOk(l.heap, order, i) && NodeOk(l.heap, order, j)
    ensures var m, q := Remove(l, order[i]), order[j];
            && q in m.heap
            && m.heap[q].next == (if j + 1 == i then LinkAt(order, i + 1) else LinkAt(order, j + 1))
            && m.heap[q].prev == (if j == i + 1 then WhereAt(order, i) else WhereAt(order, j))
  {
  }

  lemma {:induction false} RemoveNodeOk(l: List, order: seq<Ptr>, i: nat, k: nat)
    requires i < |order| && k < |order| - 1 && Distinct(order)
    requires NodeOk(l.heap, order, i) && NodeOk(l.heap, order, if k < i then k else k + 1)
    ensures NodeOk(Remove(l, order[i]).heap, Without(order, i), k)
  {
    hide Remove;
    var j := if k < i then k else k + 1;
    RemoveLinks(l, order, i, j);
    var rest := Without(order, i);
    assert rest[k] == order[j];
    assert k + 1 < |rest| ==> rest[k + 1] == order[if k + 1 < i then k + 1 else k + 2];
    assert k > 0 ==> rest[k - 1] == order[if k - 1 < i then k - 1 else k];
  }

  lemma {:induction false} RemoveLinked(l: List, order: seq<Ptr>, i: nat)
    requires Linked(l, order) && i < |order|
    ensures Linked(Remove(l, order[i]), Without(order, i))
  {
    hide NodeOk, Remove;
    var rest := Without(order, i);
    assert NodeOk(l.heap, order, i);
    InHeap(l, order, i);
    var m := Remove(l, order[i]);
    forall k: nat | k < |rest|
      ensures NodeOk(m.heap, rest, k)
    {
      assert NodeOk(l.heap, order, if k < i then k else k + 1);
      RemoveNodeOk(l, order, i, k);
    }
    RemoveFirst(l, order, i);
    RemoveKeys(l, order, i);
  }

  lemma {:induction false} InHeap(l: List, order: seq<Ptr>, i: nat)
    requires Linked(l, order) && i < |order|
    ensures order[i] in l.heap
  {
  }

  lemma {:induction false} RemoveFirst(l: List, order: seq<Ptr>, i: nat)
    requires i < |order| && NodeOk(l.heap, order, i) && l.first == LinkAt(order, 0)
    requires i > 0 ==> order[i - 1] in l.heap
    ensures Remove(l, order[i]).first == LinkAt(Without(order, i), 0)
  {
  }

  lemma {:induction false} RemoveKeys(l: List, order: seq<Ptr>, i: nat)
    requires Distinct(order) && i < |order| && forall p :: p in l.heap <==> p in order
    ensures order[i] in l.heap
    ensures forall p :: p in Remove(l, order[i]).heap <==> p in Without(order, i)
  {
  }

  // ---------------------------------------------------------------------------------------------
  // What the list means

  /** No file descriptor has two handlers that are not deleted. */
  ghost predicate OneLive(heap: Heap) {
    forall p, q | p in heap && q in heap && !heap[p].deleted && !heap[q].deleted && heap[p].fd == heap[q].fd :: p == q
  }

  datatype Handler = Handler(read: bool, write: bool, flush: bool, data: int)

  function HandlerOf(n: Node): Handler {
    Handler(n.read, n.write, n.flush, n.data)
  }

  /** fd is handled by h. */
  ghost predicate Handles(heap: Heap, fd: int, h: Handler) {
    exists p :: p in heap && !heap[p].deleted && heap[p].fd == fd && HandlerOf(heap[p]) == h
  }

  ghost predicate Handled(heap: Heap, fd: int) {
    exists p :: p in heap && !heap[p].deleted && heap[p].fd == fd
  }
}
