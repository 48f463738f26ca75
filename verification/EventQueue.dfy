/** The firmware's two linked queues in a shared heap of entries: pending events (reads before writes)
    and completed reads. An address is a positive number; 0 is the null pointer. */
module EventQueues {
  import opened Options
  import opened Disk

  type Ptr = nat
  const NULL: Ptr := 0

  datatype IoType = READ | WRITE

  /** The fields of an event_queue_entry other than its link; `buf` is a frame index, None is null. */
  datatype Event = Event(ioType: IoType, valid: bool, sector: nat, length: nat, buf: Option<nat>)

  /** event_queue_entry */
  datatype Node = Node(event: Event, next: Ptr)

  type Heap = map<Ptr, Node>

  predicate Distinct(ids: seq<Ptr>) {
    forall i, j :: 0 <= i < j < |ids| ==> ids[i] != ids[j]
  }

  /** The i-th address, or null past the end. */
  function At(ids: seq<Ptr>, i: nat): Ptr {
    if i < |ids| then ids[i] else NULL
  }

  /** A read gets its buffer position, unless it has one. */
  function Placed(v: Event, at: nat): Event {
    if v.buf.None? then v.(buf := Some(at)) else v
  }

  /** The entries `ids` are allocated and linked in this order, and the last link is null. */
  predicate Chain(h: Heap, ids: seq<Ptr>) {
    && Distinct(ids)
    && forall i :: 0 <= i < |ids| ==> ids[i] != NULL && ids[i] in h && h[ids[i]].next == At(ids, i + 1)
  }

  /** event_queue: `head`, `tail` and `entry_nb` agree with the chain. */
  datatype Queue = Queue(head: Ptr, tail: Ptr, entryNb: int)

  predicate Lists(h: Heap, q: Queue, ids: seq<Ptr>) {
    && Chain(h, ids) && q.entryNb == |ids|
    && q.head == At(ids, 0)
    && q.tail == (if ids == [] then NULL else ids[|ids| - 1])
  }

  /** The events of a chain. */
  function Events(h: Heap, ids: seq<Ptr>): (vs: seq<Event>)
    requires forall i :: 0 <= i < |ids| ==> ids[i] in h
    ensures |vs| == |ids| && forall i :: 0 <= i < |ids| ==> vs[i] == h[ids[i]].event
  {
    seq(|ids|, i requires 0 <= i < |ids| => h[ids[i]].event)
  }

  // ---------------------------------------------------------------------------------------------
  // Linking and unlinking

  /** Entries elsewhere in the heap do not matter to a queue. */
  lemma {:induction false} Untouched(h: Heap, g: Heap, q: Queue, ids: seq<Ptr>)
    requires Lists(h, q, ids)
    requires forall p :: p in ids ==> p in g && g[p] == h[p]
    ensures Lists(g, q, ids) && Events(g, ids) == Events(h, ids)
  {
  }

  /** Unlinks the first entry. */
  function PopFront(h: Heap, q: Queue): Queue
    requires q.head in h
  {
    if q.entryNb - 1 == 0 then Queue(NULL, NULL, 0) else Queue(h[q.head].next, q.tail, q.entryNb - 1)
  }

  lemma {:induction false} PopFrontOk(h: Heap, q: Queue, ids: seq<Ptr>)
    requires Lists(h, q, ids) && ids != []
    ensures q.head == ids[0] && q.head in h && ids[0] !in ids[1..]
    ensures Lists(h, PopFront(h, q), ids[1..]) && Events(h, ids[1..]) == Events(h, ids)[1..]
  {
  }

  /** Links entry `p` behind the last one. */
  function PushBack(h: Heap, q: Queue, p: Ptr, v: Event): (Heap, Queue)
    requires q.entryNb != 0 ==> q.tail in h
  {
    if q.entryNb == 0 then (h[p := Node(v, NULL)], Queue(p, p, 1))
    else (h[p := Node(v, NULL)][q.tail := Node(h[q.tail].event, p)], Queue(q.head, p, q.entryNb + 1))
  }

  /** The only entries that change are those of the queue and `p`. */
  predicate Confined(h: Heap, g: Heap, ids: seq<Ptr>, p: Ptr) {
    && g.Keys == h.Keys + {p}
    && forall x :: x in h && x !in ids && x != p ==> g[x] == h[x]
  }

  lemma {:induction false} PushBackOk(h: Heap, q: Queue, ids: seq<Ptr>, p: Ptr, v: Event)
    requires Lists(h, q, ids) && p != NULL && p !in ids
    ensures q.entryNb != 0 ==> q.tail in h
    ensures var (g, r) := PushBack(h, q, p, v);
            Lists(g, r, ids + [p]) && Events(g, ids + [p]) == Events(h, ids) + [v] && Confined(h, g, ids, p)
  {
    hide Chain, Confined;
    PushBackHeap(h, q, ids, p, v);
    var g := PushBack(h, q, p, v).0;
    var n := |ids|;
    assert ids[..n] + [p] + ids[n..] == ids + [p];
    ChainInsert(h, g, ids, n, p);
    EventsInsert(h, g, ids, n, p);
    assert Events(h, ids)[..n] + [v] + Events(h, ids)[n..] == Events(h, ids) + [v];
  }

  /** What PushBack does to the heap. */
  lemma {:induction false} PushBackHeap(h: Heap, q: Queue, ids: seq<Ptr>, p: Ptr, v: Event)
    requires Lists(h, q, ids) && p != NULL && p !in ids
    ensures q.entryNb != 0 ==> q.tail in h
    ensures var g := PushBack(h, q, p, v).0;
            && Confined(h, g, ids, p) && p in g && g[p] == Node(v, NULL)
            && forall i :: 0 <= i < |ids| ==>
                 ids[i] in g && g[ids[i]] == Node(h[ids[i]].event, if i + 1 == |ids| then p else h[ids[i]].next)
  {
  }

  /** Links entry `p` behind entry `last`, or in front when `last` is null (ENQUEUE_READ). */
  function InsertAfter(h: Heap, q: Queue, last: Ptr, p: Ptr, v: Event): (Heap, Queue)
    requires last != NULL ==> last in h
  {
    if last == NULL then
      if q.entryNb == 0 then (h[p := Node(v, NULL)], Queue(p, p, 1))
      else (h[p := Node(v, q.head)], Queue(p, q.tail, q.entryNb + 1))
    else if last == q.tail then (h[p := Node(v, NULL)][last := Node(h[last].event, p)], Queue(q.head, p, q.entryNb + 1))
    else (h[p := Node(v, h[last].next)][last := Node(h[last].event, p)], Queue(q.head, q.tail, q.entryNb + 1))
  }

  /** The last of the first `k` addresses, or null. */
  function LastOf(ids: seq<Ptr>, k: nat): Ptr {
    if 0 < k <= |ids| then ids[k - 1] else NULL
  }

  /** Linking `p` after the first `k` entries. */
  lemma {:induction false} ChainInsert(h: Heap, g: Heap, ids: seq<Ptr>, k: nat, p: Ptr)
    requires Chain(h, ids) && k <= |ids| && p != NULL && p !in ids
    requires p in g && g[p].next == At(ids, k)
    requires forall i :: 0 <= i < |ids| ==> ids[i] in g && g[ids[i]].next == if i + 1 == k then p else h[ids[i]].next
    ensures Chain(g, ids[..k] + [p] + ids[k..])
  {
    var js := ids[..k] + [p] + ids[k..];
    forall i | 0 <= i < |js| ensures js[i] != NULL && js[i] in g && g[js[i]].next == At(js, i + 1) {
      if i < k { assert js[i] == ids[i]; }
      if i > k { assert js[i] == ids[i - 1]; }
    }
  }

  lemma {:induction false} EventsInsert(h: Heap, g: Heap, ids: seq<Ptr>, k: nat, p: Ptr)
    requires Chain(h, ids) && k <= |ids| && p !in ids && p in g
    requires forall i :: 0 <= i < |ids| ==> ids[i] in g && g[ids[i]].event == h[ids[i]].event
    ensures Events(g, ids[..k] + [p] + ids[k..]) == Events(h, ids)[..k] + [g[p].event] + Events(h, ids)[k..]
  {
  }

  /** What InsertAfter does to the heap. */
  lemma {:induction false} InsertAfterHeap(h: Heap, q: Queue, ids: seq<Ptr>, k: nat, p: Ptr, v: Event)
    requires Lists(h, q, ids) && k <= |ids| && p != NULL && p !in ids
    ensures var last := LastOf(ids, k);
            (last != NULL ==> last in h) && (k > 0 ==> last != NULL && (last == q.tail <==> k == |ids|)) &&
            var g := InsertAfter(h, q, last, p, v).0;
            && Confined(h, g, ids, p) && p in g && g[p] == Node(v, At(ids, k))
            && forall i :: 0 <= i < |ids| ==>
                 ids[i] in g && g[ids[i]] == Node(h[ids[i]].event, if i + 1 == k then p else h[ids[i]].next)
  {
    assert k > 0 ==> ids[k - 1] in h && h[ids[k - 1]].next == At(ids, k);
  }

  lemma {:induction false} InsertAfterOk(h: Heap, q: Queue, ids: seq<Ptr>, k: nat, p: Ptr, v: Event)
    requires Lists(h, q, ids) && k <= |ids| && p != NULL && p !in ids
    ensures var last := LastOf(ids, k);
            (last != NULL ==> last in h) &&
            var (g, r) := InsertAfter(h, q, last, p, v);
            && Lists(g, r, ids[..k] + [p] + ids[k..]) && Confined(h, g, ids, p)
            && Events(g, ids[..k] + [p] + ids[k..]) == Events(h, ids)[..k] + [v] + Events(h, ids)[k..]
  {
    hide Chain, Confined;
    InsertAfterHeap(h, q, ids, k, p, v);
    var g := InsertAfter(h, q, LastOf(ids, k), p, v).0;
    ChainInsert(h, g, ids, k, p);
    EventsInsert(h, g, ids, k, p);
  }

  // ---------------------------------------------------------------------------------------------
  // The queues

  /** Reads before writes. */
  predicate Ordered(vs: seq<Event>, nr: nat) {
    nr <= |vs| && forall i :: 0 <= i < |vs| ==> vs[i].ioType == if i < nr then READ else WRITE
  }

  function ReadCount(vs: seq<Event>): nat {
    if vs == [] then 0 else (if vs[0].ioType == READ then 1 else 0) + ReadCount(vs[1..])
  }

  lemma {:induction false} ReadCountOrdered(vs: seq<Event>, nr: nat)
    requires Ordered(vs, nr)
    ensures ReadCount(vs) == nr
  {
    if vs != [] { ReadCountOrdered(vs[1..], if nr > 0 then nr - 1 else 0); }
  }

  lemma {:induction false} OrderedTail(vs: seq<Event>, nr: nat)
    requires Ordered(vs, nr) && nr > 0
    ensures vs != [] && Ordered(vs[1..], nr - 1)
  {
  }

  predicate Apart(a: seq<Ptr>, b: seq<Ptr>) {
    forall p :: p in a ==> p !in b
  }

  /** Every allocated entry is in a queue. */
  predicate Owned(h: Heap, brk: Ptr, a: seq<Ptr>, b: seq<Ptr>) {
    brk != NULL && forall p :: p in h ==> p < brk && (p in a || p in b)
  }

  /** The first pending entry moves behind the completed ones. */
  lemma {:induction false} MoveOk(h: Heap, e: Queue, c: Queue, a: seq<Ptr>, b: seq<Ptr>, v: Event)
    requires Lists(h, e, a) && Lists(h, c, b) && Apart(a, b) && a != []
    ensures e.head == a[0] && e.head in h && h[e.head].event == Events(h, a)[0] && (c.entryNb != 0 ==> c.tail in h)
    ensures var (g, r) := PushBack(h, c, a[0], v);
            && Lists(g, PopFront(h, e), a[1..]) && Events(g, a[1..]) == Events(h, a)[1..]
            && Lists(g, r, b + [a[0]]) && Events(g, b + [a[0]]) == Events(h, b) + [v]
            && Apart(a[1..], b + [a[0]]) && g.Keys == h.Keys
  {
    var p := a[0];
    assert p != NULL && p in h && p !in b;
    hide Chain, PopFront, PushBack, Events;
    PopFrontOk(h, e, a);
    PushBackOk(h, c, b, p, v);
    var (g, r) := PushBack(h, c, p, v);
    forall x | x in a[1..] ensures x in g && g[x] == h[x] {
      assert x in a && x in h;
    }
    Untouched(h, g, PopFront(h, e), a[1..]);
  }

  lemma {:induction false} MoveOwned(h: Heap, g: Heap, brk: Ptr, a: seq<Ptr>, b: seq<Ptr>)
    requires Owned(h, brk, a, b) && a != [] && g.Keys == h.Keys
    ensures Owned(g, brk, a[1..], b + [a[0]])
  {
  }

  /** The first entry of one queue is unlinked and freed. */
  lemma {:induction false} FreeOk(h: Heap, q: Queue, r: Queue, a: seq<Ptr>, b: seq<Ptr>)
    requires Lists(h, q, a) && Lists(h, r, b) && (Apart(a, b) || Apart(b, a)) && a != []
    ensures q.head == a[0] && q.head in h && h[q.head].event == Events(h, a)[0]
    ensures var g := h - {a[0]};
            && Lists(g, PopFront(h, q), a[1..]) && Events(g, a[1..]) == Events(h, a)[1..]
            && Lists(g, r, b) && Events(g, b) == Events(h, b)
            && forall x :: x in g <==> x in h && x != a[0]
  {
    var p, g := a[0], h - {a[0]};
    assert p in h;
    assert forall x :: x in a ==> x in h;
    assert forall x :: x in b ==> x in h;
    hide Chain, PopFront, Events;
    PopFrontOk(h, q, a);
    Untouched(h, g, PopFront(h, q), a[1..]);
    Untouched(h, g, r, b);
  }

  /** A new entry is linked into one queue; the other does not notice. */
  lemma {:induction false} OtherQueue(h: Heap, g: Heap, ids: seq<Ptr>, p: Ptr, r: Queue, b: seq<Ptr>)
    requires Confined(h, g, ids, p) && Lists(h, r, b) && Apart(ids, b) && p !in h
    ensures Lists(g, r, b) && Events(g, b) == Events(h, b) && p !in b
  {
    assert forall x :: x in b ==> x in h && x !in ids;
    hide Chain;
    Untouched(h, g, r, b);
  }

  /** An entry changes and keeps its link. */
  lemma {:induction false} UpdateOk(h: Heap, q: Queue, ids: seq<Ptr>, i: nat, v: Event)
    requires Lists(h, q, ids) && i < |ids|
    ensures ids[i] in h
    ensures var g := h[ids[i] := Node(v, h[ids[i]].next)];
            Lists(g, q, ids) && Events(g, ids) == Events(h, ids)[i := v]
  {
  }

  lemma {:induction false} InHeap(h: Heap, q: Queue, ids: seq<Ptr>)
    requires Lists(h, q, ids)
    ensures forall x :: x in ids ==> x in h
  {
  }

  lemma {:induction false} NewAddress(h: Heap, brk: Ptr, q: Queue, a: seq<Ptr>, b: seq<Ptr>)
    requires Owned(h, brk, a, b) && Lists(h, q, a)
    ensures brk != NULL && brk !in h && brk !in a
  {
  }

  lemma {:induction false} LastOfTail(h: Heap, q: Queue, ids: seq<Ptr>, k: nat)
    requires Lists(h, q, ids) && 0 < k <= |ids|
    ensures LastOf(ids[1..], k - 1) == if LastOf(ids, k) == ids[0] then NULL else LastOf(ids, k)
  {
    assert k > 1 ==> ids[k - 1] != ids[0];
  }

  class HostQueues {
    var heap: Heap
    /** The next address calloc returns. */
    var brk: Ptr
    /** e_queue, c_e_queue and last_read_entry */
    var e: Queue
    var c: Queue
    var lastRead: Ptr
    /** The entries of the two queues, and how many of the pending ones are reads. */
    ghost var eIds: seq<Ptr>
    ghost var cIds: seq<Ptr>
    ghost var nr: nat

    /** The pending events are reads, then writes; last_read_entry is the last read or null; every
        allocated entry is in exactly one queue. */
    ghost predicate Valid()
      reads this
    {
      && Lists(heap, e, eIds) && Lists(heap, c, cIds) && Apart(eIds, cIds)
      && Owned(heap, brk, eIds, cIds)
      && Ordered(Events(heap, eIds), nr) && lastRead == LastOf(eIds, nr)
    }

    ghost function Pending(): (vs: seq<Event>)
      requires Valid()
      reads this
      ensures |vs| == |eIds|
    {
      Events(heap, eIds)
    }

    ghost function Done(): (vs: seq<Event>)
      requires Valid()
      reads this
      ensures |vs| == |cIds|
    {
      Events(heap, cIds)
    }

    constructor ()
      ensures Valid() && Pending() == [] && Done() == [] && nr == 0
    {
      heap, brk, e, c, lastRead := map[], 1, Queue(NULL, NULL, 0), Queue(NULL, NULL, 0), NULL;
      eIds, cIds, nr := [], [], 0;
    }

    /** What the first pending entry holds. */
    method Head() returns (v: Event)
      requires Valid() && eIds != []
      ensures v == Pending()[0]
    {
      v := heap[e.head].event;
    }

    /** The first read leaves the pending queue for the completed one (DEQUEUE_IO); it gets `at` as its
        buffer position if it has none. */
    method CompleteRead(at: nat)
      requires Valid() && nr > 0
      modifies this
      ensures Valid() && nr == old(nr) - 1
      ensures Pending() == old(Pending())[1..]
      ensures Done() == old(Done()) + [Placed(old(Pending())[0], at)]
    {
      hide Chain, Lists, PopFront, PushBack, Events, Apart, Owned, Ordered, LastOf, Placed;
      OrderedTail(Pending(), nr);
      MoveOk(heap, e, c, eIds, cIds, Placed(Pending()[0], at));
      LastOfTail(heap, e, eIds, nr);
      var p := e.head;
      var v := Placed(heap[p].event, at);
      var (g, r) := PushBack(heap, c, p, v);
      MoveOwned(heap, g, brk, eIds, cIds);
      e, heap, c := PopFront(heap, e), g, r;
      if p == lastRead { lastRead := NULL; }
      eIds, cIds, nr := eIds[1..], cIds + [p], nr - 1;
    }

    /** The first pending write is unlinked and freed (DEQUEUE_IO). */
    method DropWrite() returns (v: Event)
      requires Valid() && nr == 0 && eIds != []
      modifies this
      ensures Valid() && nr == 0 && v == old(Pending())[0]
      ensures Pending() == old(Pending())[1..] && Done() == old(Done())
    {
      hide Chain, Lists, PopFront, Events;
      FreeOk(heap, e, c, eIds, cIds);
      var p := e.head;
      v := heap[p].event;
      e, heap := PopFront(heap, e), heap - {p};
      eIds := eIds[1..];
    }

    /** The first completed read is unlinked and freed (DEQUEUE_COMPLETED_READ). */
    method DropDone() returns (v: Event)
      requires Valid() && cIds != []
      modifies this
      ensures Valid() && nr == old(nr) && v == old(Done())[0]
      ensures Done() == old(Done())[1..] && Pending() == old(Pending()) && |eIds| == old(|eIds|)
    {
      hide Chain, Lists, PopFront, Events;
      FreeOk(heap, c, e, cIds, eIds);
      var p := c.head;
      v := heap[p].event;
      c, heap := PopFront(heap, c), heap - {p};
      cIds := cIds[1..];
    }

    /** A new read is linked behind the queued reads (ENQUEUE_READ). */
    method AddRead(v: Event)
      requires Valid() && v.ioType == READ
      modifies this
      ensures Valid() && nr == old(nr) + 1
      ensures Pending() == old(Pending()[..nr] + [v] + Pending()[nr..]) && Done() == old(Done())
    {
      hide Chain, Lists, InsertAfter, Events;
      var p := brk;
      NewAddress(heap, brk, e, eIds, cIds);
      InsertAfterOk(heap, e, eIds, nr, p, v);
      var (g, r) := InsertAfter(heap, e, lastRead, p, v);
      OtherQueue(heap, g, eIds, p, c, cIds);
      heap, e, brk, lastRead := g, r, brk + 1, p;
      eIds, nr := eIds[..nr] + [p] + eIds[nr..], nr + 1;
    }

    /** A new write is linked behind the last entry (ENQUEUE_WRITE). */
    method AddWrite(v: Event)
      requires Valid() && v.ioType == WRITE
      modifies this
      ensures Valid() && nr == old(nr)
      ensures Pending() == old(Pending()) + [v] && Done() == old(Done())
    {
      hide Chain, Lists, PushBack, Events;
      var p := brk;
      NewAddress(heap, brk, e, eIds, cIds);
      PushBackOk(heap, e, eIds, p, v);
      var (g, r) := PushBack(heap, e, p, v);
      OtherQueue(heap, g, eIds, p, c, cIds);
      heap, e, brk := g, r, brk + 1;
      eIds := eIds + [p];
    }

    /** Entry `p`, the i-th pending one, is changed in place. */
    method Update(p: Ptr, v: Event, ghost i: nat)
      requires Valid() && i < |eIds| && p == eIds[i] && v.ioType == Pending()[i].ioType
      modifies this`heap
      ensures Valid() && Pending() == old(Pending())[i := v] && Done() == old(Done())
    {
      hide Chain, Lists, Events;
      ghost var h := heap;
      UpdateOk(heap, e, eIds, i, v);
      heap := heap[p := Node(v, heap[p].next)];
      InHeap(h, c, cIds);
      Untouched(h, heap, c, cIds);
    }

    /** The first pending write, where the scans of ENQUEUE_WRITE and CHECK_IO_DEPENDENCY_FOR_READ start. */
    method FirstWrite() returns (p: Ptr)
      requires Valid()
      ensures p == At(eIds, nr)
    {
      p := if lastRead != NULL then heap[lastRead].next else e.head;
    }

    /** What entry `p`, the i-th pending one, holds, and the entry after it. */
    lemma {:induction false} EntryAt(p: Ptr, i: nat)
      requires Valid() && i < |eIds| && p == eIds[i]
      ensures p != NULL && p in heap && heap[p] == Node(Pending()[i], At(eIds, i + 1))
    {
    }

    lemma {:induction false} TypeAt(i: nat)
      requires Valid() && i < |eIds|
      ensures nr <= |eIds| && Pending()[i].ioType == if i < nr then READ else WRITE
    {
    }

    lemma {:induction false} AtNull(i: nat)
      requires Valid()
      ensures At(eIds, i) == NULL <==> i >= |eIds|
      ensures i < |eIds| ==> At(eIds, i) == eIds[i]
    {
    }

    /** Counts the entries from the head to `p`, as FLUSH_EVENT_QUEUE_UNTIL and COUNT_READ_EVENT do. */
    method CountUntil(p: Ptr, ghost k: nat) returns (count: int)
      requires Valid() && k < |eIds| && p == eIds[k]
      ensures count == k + 1
    {
      count := 1;
      var t := e.head;
      ghost var i := 0;
      while t != p
        invariant 0 <= i <= k && t == eIds[i] && count == i + 1
        decreases k - i
      {
        count := count + 1;
        t := heap[t].next;
        i := i + 1;
      }
    }

    /** How many entries FLUSH_EVENT_QUEUE_UNTIL takes for entry `p`, the k-th pending one. */
    method CountThrough(p: Ptr, ghost k: nat) returns (count: int)
      requires Valid() && k < |eIds| && p == eIds[k]
      ensures count == k + 1
    {
      if p == e.tail {
        count := e.entryNb;
      } else {
        count := CountUntil(p, k);
      }
    }

    lemma {:induction false} Heads()
      requires Valid()
      ensures e.head == NULL <==> eIds == []
      ensures c.head == NULL <==> cIds == []
      ensures e.entryNb == |eIds| && c.entryNb == |cIds|
      ensures e.tail == LastOf(eIds, |eIds|) && (e.tail == NULL <==> eIds == [])
    {
    }

    lemma {:induction false} LastReadIs()
      requires Valid()
      ensures nr <= |eIds| && (lastRead == NULL <==> nr == 0) && (nr > 0 ==> lastRead == eIds[nr - 1])
    {
    }

    /** COUNT_READ_EVENT: the number of queued reads. */
    method CountReads() returns (count: int)
      requires Valid()
      ensures count == ReadCount(Pending())
    {
      ReadCountOrdered(Pending(), nr);
      assert nr > 0 ==> lastRead == eIds[nr - 1] != NULL;
      if lastRead == NULL {
        count := 0;
      } else {
        count := CountUntil(lastRead, nr - 1);
      }
    }
  }
}
