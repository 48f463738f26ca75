/** The AIO handlers: registration, and the walk that dispatches to them while they change. */
module Aio {
  import opened AioList
  import opened AioWalk

  /** The old list is the tail of the new one. */
  ghost predicate EndsIn(all: seq<Ptr>, tail: seq<Ptr>) {
    |tail| <= |all| && all[|all| - |tail|..] == tail
  }

  lemma {:induction false} EndsInTwice(a: seq<Ptr>, b: seq<Ptr>, c: seq<Ptr>)
    requires EndsIn(a, b) && EndsIn(b, c)
    ensures EndsIn(a, c)
  {
  }

  lemma {:induction false} EndsInItself(all: seq<Ptr>)
    ensures EndsIn(all, all)
  {
  }

  lemma {:induction false} EndsInAt(all: seq<Ptr>, tail: seq<Ptr>, i: nat)
    requires EndsIn(all, tail) && i < |tail|
    ensures all[|all| - |tail| + i] == tail[i]
  {
  }

  /** The node with the links of another. */
  function Relinked(n: Node, m: Node): Node {
    n.(next := m.next, prev := m.prev)
  }

  /** The nodes of the list have the contents they had. */
  ghost predicate SameNodes(a: Heap, b: Heap, order: seq<Ptr>) {
    forall q | q in order :: q in a && q in b && b[q] == Relinked(a[q], b[q])
  }

  // ---------------------------------------------------------------------------------------------
  // Which nodes the callbacks have marked

  /** Exactly the nodes of the dropped descriptors have been marked, and none has gone. */
  ghost predicate MarkedBy(before: Heap, after: Heap, calls: seq<Call>) {
    forall q | q in before ::
      q in after && after[q].fd == before[q].fd && (after[q].deleted <==> before[q].deleted || Drops(calls, before[q].fd))
  }

  /** The same for the nodes of a list and the callbacks from, ..., to-1. */
  ghost predicate MarkedOn(script: nat -> seq<Call>, from: nat, to: nat, before: Heap, after: Heap, order: seq<Ptr>) {
    forall q | q in order ::
      && q in before && q in after && after[q].fd == before[q].fd
      && (after[q].deleted <==> before[q].deleted || Dropped(script, from, to, before[q].fd))
  }

  lemma {:induction false} MarkedByNone(heap: Heap)
    ensures MarkedBy(heap, heap, [])
  {
  }

  lemma {:induction false} MarkedByNext(a: Heap, b: Heap, c: Heap, calls: seq<Call>, call: Call)
    requires MarkedBy(a, b, calls) && MarkedBy(b, c, [call])
    ensures MarkedBy(a, c, calls + [call])
  {
    hide Drops;
    forall q | q in a
      ensures q in c && c[q].fd == a[q].fd && (c[q].deleted <==> a[q].deleted || Drops(calls + [call], a[q].fd))
    {
      assert q in b && b[q].fd == a[q].fd;
      DropsMore(calls, call, a[q].fd);
    }
  }

  lemma {:induction false} DropsMore(calls: seq<Call>, call: Call, fd: int)
    ensures Drops(calls + [call], fd) <==> Drops(calls, fd) || Drops([call], fd)
  {
    assert forall c | c in calls :: c in calls + [call];
    assert call in calls + [call];
  }

  lemma {:induction false} MarkedOnNone(script: nat -> seq<Call>, k: nat, heap: Heap, order: seq<Ptr>)
    requires forall q | q in order :: q in heap
    ensures MarkedOn(script, k, k, heap, heap, order)
  {
    hide Dropped;
    forall q | q in order
      ensures !Dropped(script, k, k, heap[q].fd)
    {
      DroppedNone(script, k, heap[q].fd);
    }
  }

  lemma {:induction false} MarkedOnOne(script: nat -> seq<Call>, k: nat, before: Heap, after: Heap, order: seq<Ptr>)
    requires MarkedBy(before, after, script(k)) && forall q | q in order :: q in before
    ensures MarkedOn(script, k, k + 1, before, after, order)
  {
    hide Dropped, Drops;
    forall q | q in order
      ensures Dropped(script, k, k + 1, before[q].fd) <==> Drops(script(k), before[q].fd)
    {
      DroppedOne(script, k, before[q].fd);
    }
  }

  lemma {:induction false} MarkedOnTwice(script: nat -> seq<Call>, from: nat, mid: nat, to: nat, a: Heap, b: Heap, c: Heap, order: seq<Ptr>)
    requires from <= mid <= to && MarkedOn(script, from, mid, a, b, order) && MarkedOn(script, mid, to, b, c, order)
    ensures MarkedOn(script, from, to, a, c, order)
  {
    hide Dropped;
    forall q | q in order
      ensures q in a && q in c && c[q].fd == a[q].fd && (c[q].deleted <==> a[q].deleted || Dropped(script, from, to, a[q].fd))
    {
      assert q in b && b[q].fd == a[q].fd;
      DroppedSplit(script, from, mid, to, a[q].fd);
    }
  }

  lemma {:induction false} MarkedOnRest(script: nat -> seq<Call>, from: nat, to: nat, a: Heap, b: Heap, order: seq<Ptr>)
    requires order != [] && MarkedOn(script, from, to, a, b, order)
    ensures MarkedOn(script, from, to, a, b, order[1..])
  {
    hide Dropped;
    assert forall q | q in order[1..] :: q in order;
  }

  /** What a node is called back for is what is due for its descriptor. */
  lemma {:induction false} EventIsDue(script: nat -> seq<Call>, reg: Registry, from: nat, k: nat, start: Heap, now: Heap, p: Ptr,
                                      order: seq<Ptr>, reading: bool, ready: set<int>)
    requires MarkedOn(script, from, from + k, start, now, order) && p in order
    requires Represents(now, RegAt(script, reg, from, k))
    ensures p in start && p in now
    ensures EventOf(now[p], reading, ready) == Due(script, reg, from, k, start[p].fd, start[p].deleted, reading, ready)
  {
    hide RegAt, Dropped;
    if !now[p].deleted {
      assert Handles(now, now[p].fd, HandlerOf(now[p]));
    }
  }

  lemma {:induction false} RegisteredRepresents(before: Heap, after: Heap, c: Call, reg: Registry)
    requires Registered(before, after, c) && Represents(before, reg)
    ensures Represents(after, SetReg(reg, c))
  {
    hide Handles;
  }

  // ---------------------------------------------------------------------------------------------
  // What registering a handler does to the memory

  function NewNode(c: Call): Node {
    Node(c.fd, c.handler.read, c.handler.write, c.handler.flush, c.handler.data, false, Nil, Head)
  }

  function Updated(n: Node, h: Handler): Node {
    n.(read := h.read, write := h.write, flush := h.flush, data := h.data)
  }

  /** Marking and updating leave the links alone. */
  lemma {:induction false} ChangeLinked(l: List, order: seq<Ptr>, p: Ptr, n: Node)
    requires Linked(l, order) && p in l.heap && n.next == l.heap[p].next && n.prev == l.heap[p].prev
    ensures Linked(List(l.heap[p := n], l.first), order)
  {
    hide LinkAt, WhereAt;
    var m := l.heap[p := n];
    forall i: nat | i < |order|
      ensures NodeOk(m, order, i)
    {
      assert NodeOk(l.heap, order, i);
    }
  }

  /** Every descriptor but one has the handler it had. */
  ghost predicate OnlyChanges(before: Heap, after: Heap, fd: int) {
    forall f, h | f != fd :: Handles(after, f, h) <==> Handles(before, f, h)
  }

  /** The registry as a map: fd has exactly that handler, or none; the others are as before. */
  ghost predicate Registered(before: Heap, after: Heap, c: Call) {
    && OnlyChanges(before, after, c.fd)
    && (forall h :: Handles(after, c.fd, h) <==> (c.handler.read || c.handler.write) && h == c.handler)
  }

  /** Away from p, the nodes have the contents they had; p is all that can be different about fd. */
  ghost predicate Differs(before: Heap, after: Heap, p: Ptr, fd: int) {
    && (forall q | q != p :: q in after <==> q in before)
    && (forall q | q != p && q in before :: after[q] == Relinked(before[q], after[q]))
    && (p in before ==> before[p].fd == fd)
    && (p in after ==> after[p].fd == fd)
  }

  lemma {:induction false} DiffersElsewhere(before: Heap, after: Heap, p: Ptr, fd: int)
    requires Differs(before, after, p, fd)
    ensures OnlyChanges(before, after, fd)
  {
    forall f, h | f != fd
      ensures Handles(after, f, h) <==> Handles(before, f, h)
    {
      if Handles(after, f, h) {
        var q :| q in after && !after[q].deleted && after[q].fd == f && HandlerOf(after[q]) == h;
        assert q != p && q in before && before[q].fd == f && HandlerOf(before[q]) == h;
      }
      if Handles(before, f, h) {
        var q :| q in before && !before[q].deleted && before[q].fd == f && HandlerOf(before[q]) == h;
        assert q != p && q in after && after[q].fd == f && HandlerOf(after[q]) == h;
      }
    }
  }

  /** fd has its one live handler at p afterwards, or none. */
  lemma {:induction false} DiffersRegisters(before: Heap, after: Heap, p: Ptr, c: Call)
    requires Differs(before, after, p, c.fd) && OneLive(before)
    requires (p in before && !before[p].deleted) || !Handled(before, c.fd)
    requires if c.handler.read || c.handler.write then p in after && !after[p].deleted && HandlerOf(after[p]) == c.handler
             else p in after ==> after[p].deleted
    ensures Registered(before, after, c) && OneLive(after)
  {
    DiffersElsewhere(before, after, p, c.fd);
    forall q | q in after && !after[q].deleted && after[q].fd == c.fd
      ensures q == p
    {
    }
    forall q, r | q in after && r in after && !after[q].deleted && !after[r].deleted && after[q].fd == after[r].fd
      ensures q == r
    {
      if after[q].fd != c.fd {
        assert q in before && r in before && before[q].fd == before[r].fd;
      }
    }
  }

  /** Unregistering marks the one live node of the descriptor; any other registration marks nothing. */
  lemma {:induction false} DiffersMarks(before: Heap, after: Heap, p: Ptr, c: Call)
    requires Differs(before, after, p, c.fd) && OneLive(before) && (p in before ==> p in after)
    requires (p in before && !before[p].deleted) || !Handled(before, c.fd)
    requires p in before ==> (after[p].deleted <==> before[p].deleted || Unregisters(c, c.fd))
    ensures MarkedBy(before, after, [c])
  {
    forall q | q in before
      ensures q in after && after[q].fd == before[q].fd && (after[q].deleted <==> before[q].deleted || Drops([c], before[q].fd))
    {
      DropsOne(c, before[q].fd);
      if q != p && before[q].fd == c.fd {
        assert before[q].deleted;
      }
    }
  }

  lemma {:induction false} DropsOne(c: Call, fd: int)
    ensures Drops([c], fd) <==> Unregisters(c, fd)
  {
    assert c in [c];
  }

  class Handlers {
    var list: List
    var walking: bool
    var limit: nat
    var log: seq<Event>
    var invoked: nat
    ghost var order: seq<Ptr>
    ghost var registry: Registry
    /** The registrations callback k makes; they may be any. */
    const script: nat -> seq<Call>

    constructor (s: nat -> seq<Call>)
      ensures Valid() && Current() && !walking && script == s && order == [] && log == [] && registry == map[]
    {
      list, walking, limit, log, invoked, order, script := List(map[], Nil), false, 0, [], 0, [], s;
      registry := map[];
    }

    /** The live nodes are the registry. */
    ghost predicate Current()
      reads this
    {
      Represents(list.heap, registry)
    }

    ghost predicate Valid()
      reads this
    {
      Linked(list, order) && OneLive(list.heap) && (forall p | p in list.heap :: p < limit)
    }

    /** find_aio_handler: the live handler of the descriptor. */
    method Find(fd: int) returns (r: Link)
      requires Valid()
      ensures r.To? ==> r.p in list.heap && list.heap[r.p].fd == fd && !list.heap[r.p].deleted
      ensures r.Nil? ==> !Handled(list.heap, fd)
    {
      r := list.first;
      ghost var i := 0;
      while r.To?
        invariant 0 <= i <= |order| && r == LinkAt(order, i)
        invariant forall j | 0 <= j < i :: order[j] in list.heap && (list.heap[order[j]].fd == fd ==> list.heap[order[j]].deleted)
        decreases |order| - i
      {
        assert NodeOk(list.heap, order, i);
        if list.heap[r.p].fd == fd {
          if !list.heap[r.p].deleted {
            return;
          }
        }
        r := list.heap[r.p].next;
        i := i + 1;
      }
    }

    /** While handlers are walked, nodes are only added in front and marked; otherwise a deleted node goes at once. */
    method SetFdHandler(c: Call)
      requires Valid() && Current()
      modifies this`list, this`limit, this`order, this`registry
      ensures Valid() && Current() && registry == SetReg(old(registry), c)
      ensures Registered(old(list).heap, list.heap, c)
      ensures walking ==> EndsIn(order, old(order))
      ensures walking ==> MarkedBy(old(list).heap, list.heap, [c])
    {
      hide Linked, OneLive, Handled, Registered, InsertHead, Remove, Represents, SetReg, MarkedBy;
      var node := Find(c.fd);
      if !c.handler.read && !c.handler.write {
        if node.To? {
          if walking {
            MarkDeleted(c, node.p);
          } else {
            Unregister(c, node.p);
          }
        } else {
          NothingToDelete(list.heap, c);
          NothingToMark(list.heap, c);
        }
      } else {
        if node.Nil? {
          Register(c);
        } else {
          Update(c, node.p);
        }
      }
      RegisteredRepresents(old(list).heap, list.heap, c, registry);
      registry := SetReg(registry, c);
    }

    method MarkDeleted(c: Call, p: Ptr)
      requires Valid() && p in list.heap && list.heap[p].fd == c.fd && !list.heap[p].deleted
      requires !c.handler.read && !c.handler.write
      modifies this`list
      ensures Valid() && Registered(old(list).heap, list.heap, c)
      ensures MarkedBy(old(list).heap, list.heap, [c])
    {
      hide Linked, OneLive, Handled, Registered, MarkedBy;
      ghost var before := list.heap;
      var n := list.heap[p].(deleted := true);
      ChangeLinked(list, order, p, n);
      list := List(list.heap[p := n], list.first);
      DiffersRegisters(before, list.heap, p, c);
      DiffersMarks(before, list.heap, p, c);
    }

    method Unregister(c: Call, p: Ptr)
      requires Valid() && p in list.heap && list.heap[p].fd == c.fd && !list.heap[p].deleted
      requires !c.handler.read && !c.handler.write
      modifies this`list, this`order
      ensures Valid() && Registered(old(list).heap, list.heap, c)
    {
      hide OneLive, Handled, Registered, Remove, NodeOk;
      ghost var l := list;
      ghost var i :| 0 <= i < |order| && order[i] == p;
      RemoveLinked(list, order, i);
      RemovedDiffers(l, p, c.fd);
      list := Remove(list, p);
      order := Without(order, i);
      DiffersRegisters(l.heap, list.heap, p, c);
    }

    method Register(c: Call)
      requires Valid() && !Handled(list.heap, c.fd) && (c.handler.read || c.handler.write)
      modifies this`list, this`limit, this`order
      ensures Valid() && Registered(old(list).heap, list.heap, c) && EndsIn(order, old(order))
      ensures MarkedBy(old(list).heap, list.heap, [c])
    {
      hide Linked, OneLive, Handled, Registered, InsertHead, MarkedBy;
      ghost var l := list;
      var p := limit;
      InsertLinked(list, order, p, NewNode(c));
      InsertedDiffers(l, p, c);
      list := InsertHead(list, p, NewNode(c));
      order := [p] + order;
      limit := limit + 1;
      DiffersRegisters(l.heap, list.heap, p, c);
      DiffersMarks(l.heap, list.heap, p, c);
    }

    method Update(c: Call, p: Ptr)
      requires Valid() && p in list.heap && list.heap[p].fd == c.fd && !list.heap[p].deleted
      requires c.handler.read || c.handler.write
      modifies this`list
      ensures Valid() && Registered(old(list).heap, list.heap, c)
      ensures MarkedBy(old(list).heap, list.heap, [c])
    {
      hide Linked, OneLive, Handled, Registered, MarkedBy;
      ghost var before := list.heap;
      var n := Updated(list.heap[p], c.handler);
      ChangeLinked(list, order, p, n);
      list := List(list.heap[p := n], list.first);
      DiffersRegisters(before, list.heap, p, c);
      DiffersMarks(before, list.heap, p, c);
    }

    /** A callback of a live node runs: it is logged and makes its registrations. */
    method Invoke(p: Ptr, reading: bool)
      requires Valid() && Current() && walking && p in list.heap && !list.heap[p].deleted
      requires if reading then list.heap[p].read else list.heap[p].write
      modifies this`list, this`limit, this`order, this`log, this`invoked, this`registry
      ensures Valid() && Current() && EndsIn(order, old(order))
      ensures log == old(log) + [Event(old(list).heap[p].fd, reading, old(list).heap[p].data)]
      ensures invoked == old(invoked) + 1 && registry == SetRegs(old(registry), script(old(invoked)))
      ensures MarkedBy(old(list).heap, list.heap, script(old(invoked)))
    {
      hide Linked, OneLive, EndsIn, Registered, Represents, SetReg, MarkedBy;
      log := log + [Event(list.heap[p].fd, reading, list.heap[p].data)];
      var calls := script(invoked);
      invoked := invoked + 1;
      var i := 0;
      EndsInItself(order);
      MarkedByNone(list.heap);
      while i < |calls|
        invariant 0 <= i <= |calls| && Valid() && Current() && EndsIn(order, old(order)) && invoked == old(invoked) + 1
        invariant registry == SetRegs(old(registry), calls[..i])
        invariant MarkedBy(old(list).heap, list.heap, calls[..i])
        invariant log == old(log) + [Event(old(list).heap[p].fd, reading, old(list).heap[p].data)]
      {
        ghost var before, heap := order, list.heap;
        SetFdHandler(calls[i]);
        EndsInTwice(order, before, old(order));
        assert calls[..i + 1][..i] == calls[..i] && calls[..i + 1] == calls[..i] + [calls[i]];
        MarkedByNext(old(list).heap, heap, list.heap, calls[..i], calls[i]);
        i := i + 1;
      }
      assert calls[..i] == calls;
    }

    lemma {:induction false} Front(rest: seq<Ptr>)
      requires Valid() && EndsIn(order, rest) && rest != []
      ensures rest[0] in list.heap && list.heap[rest[0]].next == LinkAt(rest, 1)
    {
      AtFront(list, order, rest);
    }

    /** A node's callback for one direction, if it is not deleted, ready and has one. */
    method Call(p: Ptr, reading: bool, ready: set<int>, ghost rd: set<int>, ghost wr: set<int>, ghost rest: seq<Ptr>)
      requires Valid() && Current() && walking && rest != [] && rest[0] == p && EndsIn(order, rest)
      requires ready == if reading then rd else wr
      modifies this`list, this`limit, this`order, this`log, this`invoked, this`registry
      ensures Valid() && Current() && EndsIn(order, rest) && Ready(old(log), log, rd, wr)
      ensures Follows(script, old(registry), old(invoked), old(log), log, registry, invoked)
      ensures p in old(list).heap && log == old(log) + EventOf(old(list).heap[p], reading, ready)
      ensures old(invoked) <= invoked && MarkedOn(script, old(invoked), invoked, old(list).heap, list.heap, rest)
    {
      hide Valid, EndsIn, Ready, Follows, Represents, Owner, MarkedOn, MarkedBy;
      Front(rest);
      RestInHeap(rest);
      MarkedOnNone(script, invoked, list.heap, rest);
      ReadyNone(log, rd, wr);
      FollowsNone(script, registry, invoked, log);
      var n := list.heap[p];
      if !n.deleted && n.fd in ready && (if reading then n.read else n.write) {
        ghost var before := order;
        ReadyOne(log, Event(n.fd, reading, n.data), rd, wr);
        NodeOwns(list.heap, registry, p, reading);
        FollowsOne(script, registry, invoked, log, Event(n.fd, reading, n.data));
        Invoke(p, reading);
        EndsInTwice(order, before, rest);
        MarkedOnOne(script, old(invoked), old(list).heap, list.heap, rest);
      } else {
        assert log + [] == log;
      }
    }

    /** One node of the walk: its callbacks, if it is still there to be called, and its removal if it was deleted. */
    method Visit(p: Ptr, rd: set<int>, wr: set<int>, ghost rest: seq<Ptr>, ghost start: Heap, ghost reg: Registry, ghost from: nat)
      returns (next: Link, ghost es: seq<Event>)
      requires Valid() && Current() && walking && rest != [] && rest[0] == p && EndsIn(order, rest)
      requires from <= invoked && MarkedOn(script, from, invoked, start, list.heap, rest)
      requires registry == RegAt(script, reg, from, invoked - from)
      modifies this`list, this`limit, this`order, this`log, this`invoked, this`registry
      ensures Valid() && Current() && EndsIn(order, rest[1..]) && next == LinkAt(rest, 1)
      ensures Ready(old(log), log, rd, wr)
      ensures Follows(script, old(registry), old(invoked), old(log), log, registry, invoked)
      ensures p in old(list).heap && log == old(log) + es
      ensures from <= invoked && MarkedOn(script, from, invoked, start, list.heap, rest[1..])
      ensures p in start && var k, n := old(invoked) - from, start[p];
              var first := Due(script, reg, from, k, n.fd, n.deleted, true, rd);
              es == first + Due(script, reg, from, k + |first|, n.fd, n.deleted, false, wr)
    {
      hide Valid, EndsIn, Ready, Follows, LinkAt, EventOf, EventsOf, Kept, Represents, MarkedOn, Due, RegAt;
      RestInHeap(rest);
      EventIsDue(script, reg, from, invoked - from, start, list.heap, p, rest, true, rd);
      Call(p, true, rd, rd, wr, rest);
      ghost var between, heap, now, k := log, list.heap, registry, invoked;
      MarkedOnTwice(script, from, old(invoked), k, start, old(list).heap, heap, rest);
      FollowsReg(script, reg, from, old(registry), old(invoked), old(log), between, now, k);
      EventIsDue(script, reg, from, k - from, start, heap, p, rest, false, wr);
      Front(rest);
      Call(p, false, wr, rd, wr, rest);
      ReadyTwice(old(log), between, log, rd, wr);
      FollowsTwice(script, old(registry), old(invoked), old(log), between, now, k, log, registry, invoked);
      MarkedOnTwice(script, from, k, invoked, start, heap, list.heap, rest);
      es := EventOf(old(list).heap[p], true, rd) + EventOf(heap[p], false, wr);
      assert log == old(log) + es;
      Front(rest);
      next := list.heap[p].next;
      AfterFront(order, rest);
      MarkedOnRest(script, from, invoked, start, list.heap, rest);
      if list.heap[p].deleted {
        ghost var marked := list.heap;
        TakeOut(p, rest);
        MarkedOnSame(script, from, invoked, start, marked, list.heap, rest[1..]);
      }
    }

    lemma {:induction false} RestInHeap(rest: seq<Ptr>)
      requires Valid() && EndsIn(order, rest)
      ensures forall p | p in rest :: p in list.heap
    {
      forall p | p in rest
        ensures p in list.heap
      {
        var i :| 0 <= i < |rest| && rest[i] == p;
        EndsInAt(order, rest, i);
        InHeap(list, order, |order| - |rest| + i);
      }
    }

    ghost predicate Quiet() {
      forall k: nat :: script(k) == []
    }

    method TakeOut(p: Ptr, ghost rest: seq<Ptr>)
      requires Valid() && Current() && rest != [] && rest[0] == p && EndsIn(order, rest) && p in list.heap && list.heap[p].deleted
      modifies this`list, this`order
      ensures Valid() && Current() && EndsIn(order, rest[1..])
      ensures SameNodes(old(list).heap, list.heap, rest[1..])
    {
      hide Linked, OneLive, Remove, NodeOk, Represents, SameNodes;
      ghost var i := |order| - |rest|;
      EndsInAt(order, rest, 0);
      RemoveLinked(list, order, i);
      RemovedOneLive(list, p);
      RemovedContents(list, order, i, rest);
      RemovedRepresents(list, p, registry);
      list := Remove(list, p);
      order := Without(order, i);
    }

    /** The dispatch walk: every node that was there is visited once, in order, and none is touched after its
        removal. Every callback is one of the handler that its descriptor has at that moment; the handlers of
        descriptors that no callback registers for are called as if the callbacks registered nothing. */
    method Dispatch(rd: set<int>, wr: set<int>)
      requires Valid() && Current()
      modifies this
      ensures Valid() && Current() && !walking
      ensures Ready(old(log), log, rd, wr)
      ensures Follows(script, old(registry), old(invoked), old(log), log, registry, invoked)
      ensures (forall p | p in old(order) :: p in old(list).heap) && |old(log)| <= |log|
      ensures Kept(script, log[|old(log)|..]) == Kept(script, Expected(old(list).heap, old(order), rd, wr))
      ensures Quiet() ==> log == old(log) + Expected(old(list).heap, old(order), rd, wr)
      ensures log == old(log) + Walk(script, old(registry), old(invoked), old(list).heap, old(order), rd, wr)
    {
      hide Linked, OneLive, EventsOf, Ready, Follows, EndsIn, Expected, Kept, Represents, Walk, Due, MarkedOn, RegAt;
      walking := true;
      var node := list.first;
      ghost var rest, done, es: seq<Event> := order, 0, [];
      StartWalk(list, order);
      ReadyNone(log, rd, wr);
      FollowsNone(script, registry, invoked, log);
      WalkNone(script, registry, invoked, list.heap, order, rd, wr);
      MarkedOnNone(script, invoked, list.heap, order);
      while node.To?
        invariant Valid() && Current() && walking && EndsIn(order, rest) && node == LinkAt(rest, 0)
        invariant 0 <= done <= |old(order)| && rest == old(order)[done..]
        invariant Ready(old(log), log, rd, wr)
        invariant Follows(script, old(registry), old(invoked), old(log), log, registry, invoked)
        invariant log == old(log) + es
        invariant invoked == old(invoked) + |es| && MarkedOn(script, old(invoked), invoked, old(list).heap, list.heap, rest)
        invariant es == Walk(script, old(registry), old(invoked), old(list).heap, old(order)[..done], rd, wr)
        decreases |rest|
      {
        ghost var before, reg, k, more := log, registry, invoked, [];
        FollowsCount(script, old(registry), old(invoked), old(log), log, registry, invoked);
        node, more := Visit(node.p, rd, wr, rest, old(list).heap, old(registry), old(invoked));
        WalkNext(script, old(registry), old(invoked), old(list).heap, old(order), done, rd, wr);
        ReadyTwice(old(log), before, log, rd, wr);
        FollowsTwice(script, old(registry), old(invoked), old(log), before, reg, k, log, registry, invoked);
        FollowsCount(script, old(registry), old(invoked), old(log), log, registry, invoked);
        assert old(log) + es + more == old(log) + (es + more);
        assert rest[1..] == old(order)[done + 1..];
        rest, done, es := rest[1..], done + 1, es + more;
      }
      assert old(order)[..done] == old(order);
      assert log[|old(log)|..] == es;
      WalkKept(script, old(registry), old(invoked), old(list).heap, old(order), rd, wr);
      if Quiet() {
        WalkQuiet(script, old(registry), old(invoked), old(list).heap, old(order), rd, wr);
      }
      walking := false;
    }
  }

  // ---------------------------------------------------------------------------------------------
  // Steps of the walk

  lemma {:induction false} NothingToMark(heap: Heap, c: Call)
    requires !Handled(heap, c.fd)
    ensures MarkedBy(heap, heap, [c])
  {
    forall q | q in heap
      ensures heap[q].deleted || !Drops([c], heap[q].fd)
    {
      DropsOne(c, heap[q].fd);
    }
  }

  lemma {:induction false} NothingToDelete(heap: Heap, c: Call)
    requires !Handled(heap, c.fd) && !c.handler.read && !c.handler.write
    ensures Registered(heap, heap, c)
  {
  }

  lemma {:induction false} RemovedDiffers(l: List, p: Ptr, fd: int)
    requires p in l.heap && l.heap[p].fd == fd
    ensures Differs(l.heap, Remove(l, p).heap, p, fd) && p !in Remove(l, p).heap
  {
    var m := Remove(l, p);
    forall q | q != p && q in l.heap
      ensures q in m.heap && m.heap[q] == Relinked(l.heap[q], m.heap[q])
    {
      RemoveKeeps(l, p, q);
    }
  }

  lemma {:induction false} InsertedDiffers(l: List, p: Ptr, c: Call)
    requires p !in l.heap
    ensures var m := InsertHead(l, p, NewNode(c)).heap;
            Differs(l.heap, m, p, c.fd) && p in m && !m[p].deleted && HandlerOf(m[p]) == c.handler
  {
  }

  lemma {:induction false} RemovedOneLive(l: List, p: Ptr)
    requires p in l.heap && OneLive(l.heap)
    ensures OneLive(Remove(l, p).heap) && forall q | q in Remove(l, p).heap :: q in l.heap
  {
    hide Remove;
    RemovedDiffers(l, p, l.heap[p].fd);
  }

  lemma {:induction false} AtFront(l: List, order: seq<Ptr>, rest: seq<Ptr>)
    requires Linked(l, order) && EndsIn(order, rest) && rest != []
    ensures rest[0] in l.heap && l.heap[rest[0]].next == LinkAt(rest, 1)
  {
    var i := |order| - |rest|;
    EndsInAt(order, rest, 0);
    assert NodeOk(l.heap, order, i);
    if |rest| > 1 {
      EndsInAt(order, rest, 1);
    }
  }

  lemma {:induction false} AfterFront(order: seq<Ptr>, rest: seq<Ptr>)
    requires EndsIn(order, rest) && rest != []
    ensures EndsIn(order, rest[1..])
  {
  }

  lemma {:induction false} RemovedContents(l: List, order: seq<Ptr>, i: nat, rest: seq<Ptr>)
    requires Linked(l, order) && rest != [] && EndsIn(order, rest) && i == |order| - |rest|
    ensures order[i] in l.heap
    ensures EndsIn(Without(order, i), rest[1..])
    ensures SameNodes(l.heap, Remove(l, order[i]).heap, rest[1..])
  {
    hide Remove, NodeOk, Untouched;
    InHeap(l, order, i);
    var m := Remove(l, order[i]);
    forall p | p in rest[1..]
      ensures p in m.heap && p in l.heap && m.heap[p] == Relinked(l.heap[p], m.heap[p])
    {
      var j :| 0 <= j < |rest[1..]| && rest[1..][j] == p;
      EndsInAt(order, rest, j + 1);
      assert order[i] != order[i + 1 + j];
      InHeap(l, order, i + 1 + j);
      RemoveKeeps(l, order[i], p);
    }
    assert Without(order, i)[|order| - 1 - |rest[1..]|..] == order[i + 1..];
  }

  /** Taking out a deleted node changes no handler. */
  lemma {:induction false} RemovedRepresents(l: List, p: Ptr, reg: Registry)
    requires p in l.heap && l.heap[p].deleted && Represents(l.heap, reg)
    ensures Represents(Remove(l, p).heap, reg)
  {
    hide Remove;
    var m := Remove(l, p).heap;
    RemovedDiffers(l, p, l.heap[p].fd);
    forall f, h
      ensures Handles(m, f, h) <==> Handles(l.heap, f, h)
    {
      if Handles(m, f, h) {
        var q :| q in m && !m[q].deleted && m[q].fd == f && HandlerOf(m[q]) == h;
        assert q in l.heap && l.heap[q].fd == f && HandlerOf(l.heap[q]) == h && !l.heap[q].deleted;
      }
      if Handles(l.heap, f, h) {
        var q :| q in l.heap && !l.heap[q].deleted && l.heap[q].fd == f && HandlerOf(l.heap[q]) == h;
        assert q != p && q in m && m[q].fd == f && HandlerOf(m[q]) == h && !m[q].deleted;
      }
    }
  }

  lemma {:induction false} StartWalk(l: List, order: seq<Ptr>)
    requires Linked(l, order)
    ensures EndsIn(order, order) && l.first == LinkAt(order, 0)
    ensures forall p | p in order :: p in l.heap
  {
  }

  lemma {:induction false} MarkedOnSame(script: nat -> seq<Call>, from: nat, to: nat, start: Heap, a: Heap, b: Heap, order: seq<Ptr>)
    requires MarkedOn(script, from, to, start, a, order)
    requires SameNodes(a, b, order)
    ensures MarkedOn(script, from, to, start, b, order)
  {
    hide Dropped;
  }

}
