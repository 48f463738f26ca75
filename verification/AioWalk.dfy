/** What the AIO handlers mean to the callbacks: the registry as a map, and the walk that dispatches to it, without the
    list it is kept in. */
module AioWalk {
  import opened AioList

  /** A call of qemu_aio_set_fd_handler. */
  datatype Call = Call(fd: int, handler: Handler)

  /** A callback invoked: which descriptor, for reading or writing, and with what data. */
  datatype Event = Event(fd: int, reading: bool, data: int)

  /** Callbacks have only been added to the log, and each was for a descriptor that was ready. */
  ghost predicate Ready(before: seq<Event>, after: seq<Event>, rd: set<int>, wr: set<int>) {
    && |before| <= |after| && after[..|before|] == before
    && (forall e | e in after[|before|..] :: e.fd in if e.reading then rd else wr)
  }

  function EventOf(n: Node, reading: bool, ready: set<int>): seq<Event> {
    if !n.deleted && n.fd in ready && (if reading then n.read else n.write) then [Event(n.fd, reading, n.data)] else []
  }

  function EventsOf(n: Node, rd: set<int>, wr: set<int>): seq<Event> {
    EventOf(n, true, rd) + EventOf(n, false, wr)
  }

  function Expected(heap: Heap, order: seq<Ptr>, rd: set<int>, wr: set<int>): seq<Event>
    requires forall p | p in order :: p in heap
  {
    if order == [] then []
    else Expected(heap, order[..|order| - 1], rd, wr) + EventsOf(heap[order[|order| - 1]], rd, wr)
  }

  lemma {:induction false} ReadyTwice(a: seq<Event>, b: seq<Event>, c: seq<Event>, rd: set<int>, wr: set<int>)
    requires Ready(a, b, rd, wr) && Ready(b, c, rd, wr)
    ensures Ready(a, c, rd, wr)
  {
  }

  lemma {:induction false} ReadyOne(a: seq<Event>, e: Event, rd: set<int>, wr: set<int>)
    requires e.fd in if e.reading then rd else wr
    ensures Ready(a, a + [e], rd, wr) && Ready(a, a, rd, wr)
  {
  }

  lemma {:induction false} ReadyNone(a: seq<Event>, rd: set<int>, wr: set<int>)
    ensures Ready(a, a, rd, wr)
  {
  }

  // ---------------------------------------------------------------------------------------------
  // The registry as a map, and how the callbacks change it

  type Registry = map<int, Handler>

  ghost predicate Represents(heap: Heap, reg: Registry) {
    forall fd, h :: Handles(heap, fd, h) <==> fd in reg && reg[fd] == h
  }

  function SetReg(reg: Registry, c: Call): Registry {
    if c.handler.read || c.handler.write then reg[c.fd := c.handler] else reg - {c.fd}
  }

  function SetRegs(reg: Registry, calls: seq<Call>): Registry {
    if calls == [] then reg else SetReg(SetRegs(reg, calls[..|calls| - 1]), calls[|calls| - 1])
  }

  /** The registry after callbacks from, from+1, ... have run, n of them. */
  function RegAt(script: nat -> seq<Call>, reg: Registry, from: nat, n: nat): Registry {
    if n == 0 then reg else SetRegs(RegAt(script, reg, from, n - 1), script(from + n - 1))
  }

  lemma {:induction false} RegAtPlus(script: nat -> seq<Call>, reg: Registry, from: nat, m: nat, n: nat)
    ensures RegAt(script, RegAt(script, reg, from, m), from + m, n) == RegAt(script, reg, from, m + n)
    decreases n
  {
    hide SetRegs;
    if n > 0 {
      RegAtPlus(script, reg, from, m, n - 1);
    }
  }

  /** The event is a callback of the handler the descriptor has. */
  predicate Owner(reg: Registry, e: Event) {
    && e.fd in reg && reg[e.fd].data == e.data
    && (if e.reading then reg[e.fd].read else reg[e.fd].write)
  }

  /** Every callback logged since `before` was one of the handler its descriptor had when it ran, and the
      registry is now what those callbacks have made of it. */
  ghost predicate Follows(script: nat -> seq<Call>, reg: Registry, from: nat, before: seq<Event>,
                          after: seq<Event>, now: Registry, invoked: nat) {
    && |before| <= |after| && after[..|before|] == before && invoked == from + |after| - |before|
    && now == RegAt(script, reg, from, |after| - |before|)
    && (forall j | |before| <= j < |after| :: Owner(RegAt(script, reg, from, j - |before|), after[j]))
  }

  lemma {:induction false} FollowsNone(script: nat -> seq<Call>, reg: Registry, from: nat, log: seq<Event>)
    ensures Follows(script, reg, from, log, log, reg, from)
  {
  }

  lemma {:induction false} FollowsOne(script: nat -> seq<Call>, reg: Registry, from: nat, log: seq<Event>, e: Event)
    requires Owner(reg, e)
    ensures Follows(script, reg, from, log, log + [e], SetRegs(reg, script(from)), from + 1)
  {
    hide SetRegs, Owner;
    assert RegAt(script, reg, from, 0) == reg;
    assert RegAt(script, reg, from, 1) == SetRegs(RegAt(script, reg, from, 0), script(from + 1 - 1));
  }

  lemma {:induction false} FollowsTwice(script: nat -> seq<Call>, reg: Registry, from: nat, a: seq<Event>,
                                        b: seq<Event>, mid: Registry, k: nat, c: seq<Event>, now: Registry, invoked: nat)
    requires Follows(script, reg, from, a, b, mid, k) && Follows(script, mid, k, b, c, now, invoked)
    ensures Follows(script, reg, from, a, c, now, invoked)
  {
    hide RegAt, Owner;
    var m := |b| - |a|;
    RegAtPlus(script, reg, from, m, |c| - |b|);
    forall j | |a| <= j < |c|
      ensures Owner(RegAt(script, reg, from, j - |a|), c[j])
    {
      if j < |b| {
        assert c[j] == c[..|b|][j] == b[j];
      } else {
        RegAtPlus(script, reg, from, m, j - |b|);
      }
    }
    assert c[..|a|] == c[..|b|][..|a|];
  }

  lemma {:induction false} FollowsCount(script: nat -> seq<Call>, reg: Registry, from: nat, a: seq<Event>, b: seq<Event>,
                                        now: Registry, invoked: nat)
    requires Follows(script, reg, from, a, b, now, invoked)
    ensures from <= invoked && invoked - from == |b| - |a| && now == RegAt(script, reg, from, invoked - from)
  {
  }

  /** The registry a stretch of callbacks leaves, counted from an earlier start. */
  lemma {:induction false} FollowsReg(script: nat -> seq<Call>, reg: Registry, from: nat, mid: Registry, k: nat, a: seq<Event>,
                                      b: seq<Event>, now: Registry, invoked: nat)
    requires from <= k && mid == RegAt(script, reg, from, k - from) && Follows(script, mid, k, a, b, now, invoked)
    ensures k <= invoked && invoked - k == |b| - |a| && now == RegAt(script, reg, from, invoked - from)
  {
    hide RegAt, Owner;
    RegAtPlus(script, reg, from, k - from, invoked - k);
  }

  /** A live node is the handler of its descriptor. */
  lemma {:induction false} NodeOwns(heap: Heap, reg: Registry, p: Ptr, reading: bool)
    requires Represents(heap, reg) && p in heap && !heap[p].deleted
    requires if reading then heap[p].read else heap[p].write
    ensures Owner(reg, Event(heap[p].fd, reading, heap[p].data))
  {
    assert Handles(heap, heap[p].fd, HandlerOf(heap[p]));
  }

  // ---------------------------------------------------------------------------------------------
  // The walk without the list

  predicate Unregisters(c: Call, fd: int) {
    c.fd == fd && !c.handler.read && !c.handler.write
  }

  ghost predicate Drops(calls: seq<Call>, fd: int) {
    exists c | c in calls :: Unregisters(c, fd)
  }

  /** One of the callbacks from, from+1, ..., to-1 has unregistered the descriptor. */
  ghost predicate Dropped(script: nat -> seq<Call>, from: nat, to: nat, fd: int) {
    exists k: nat | from <= k < to :: Drops(script(k), fd)
  }

  /** The callback that is due for a node of the descriptor once k callbacks have run: none if the node is gone, because
      it was when the walk began or because a callback has unregistered it; else that of the descriptor's handler. */
  ghost function Due(script: nat -> seq<Call>, reg: Registry, from: nat, k: nat, fd: int, gone: bool, reading: bool,
                     ready: set<int>): seq<Event> {
    var now := RegAt(script, reg, from, k);
    if !gone && !Dropped(script, from, from + k, fd) && fd in ready && fd in now && (if reading then now[fd].read else now[fd].write)
    then [Event(fd, reading, now[fd].data)] else []
  }

  /** The callbacks of a walk over the nodes: for each in turn, what is due for reading and then for writing. */
  ghost function Walk(script: nat -> seq<Call>, reg: Registry, from: nat, heap: Heap, order: seq<Ptr>, rd: set<int>,
                      wr: set<int>): seq<Event>
    requires forall p | p in order :: p in heap
  {
    if order == [] then []
    else
      var es, n := Walk(script, reg, from, heap, order[..|order| - 1], rd, wr), heap[order[|order| - 1]];
      var es2 := es + Due(script, reg, from, |es|, n.fd, n.deleted, true, rd);
      es2 + Due(script, reg, from, |es2|, n.fd, n.deleted, false, wr)
  }

  lemma {:induction false} DroppedSplit(script: nat -> seq<Call>, from: nat, mid: nat, to: nat, fd: int)
    requires from <= mid <= to
    ensures Dropped(script, from, to, fd) <==> Dropped(script, from, mid, fd) || Dropped(script, mid, to, fd)
  {
    hide Drops;
  }

  lemma {:induction false} DroppedNone(script: nat -> seq<Call>, k: nat, fd: int)
    ensures !Dropped(script, k, k, fd)
  {
  }

  lemma {:induction false} DroppedOne(script: nat -> seq<Call>, k: nat, fd: int)
    ensures Dropped(script, k, k + 1, fd) <==> Drops(script(k), fd)
  {
    hide Drops;
    if Drops(script(k), fd) {
      assert k <= k < k + 1;
    }
  }

  lemma {:induction false} WalkNone(script: nat -> seq<Call>, reg: Registry, from: nat, heap: Heap, order: seq<Ptr>,
                                    rd: set<int>, wr: set<int>)
    ensures Walk(script, reg, from, heap, order[..0], rd, wr) == []
  {
  }

  lemma {:induction false} WalkNext(script: nat -> seq<Call>, reg: Registry, from: nat, heap: Heap, order: seq<Ptr>, i: nat,
                                    rd: set<int>, wr: set<int>)
    requires i < |order| && forall p | p in order :: p in heap
    ensures var es, n := Walk(script, reg, from, heap, order[..i], rd, wr), heap[order[i]];
            var first := Due(script, reg, from, |es|, n.fd, n.deleted, true, rd);
            Walk(script, reg, from, heap, order[..i + 1], rd, wr) ==
            es + (first + Due(script, reg, from, |es| + |first|, n.fd, n.deleted, false, wr))
  {
    hide Due;
    assert order[..i + 1][..i] == order[..i];
  }

  // ---------------------------------------------------------------------------------------------
  // Descriptors that no callback registers for

  ghost predicate Untouched(script: nat -> seq<Call>, fd: int) {
    forall k: nat, c | c in script(k) :: c.fd != fd
  }

  /** The events of the untouched descriptors. */
  ghost function Kept(script: nat -> seq<Call>, es: seq<Event>): seq<Event> {
    if es == [] then []
    else Kept(script, es[..|es| - 1]) + (if Untouched(script, es[|es| - 1].fd) then [es[|es| - 1]] else [])
  }

  lemma {:induction false} KeptConcat(script: nat -> seq<Call>, a: seq<Event>, b: seq<Event>)
    ensures Kept(script, a + b) == Kept(script, a) + Kept(script, b)
    decreases |b|
  {
    hide Untouched;
    if b == [] {
      assert a + b == a;
    } else {
      assert (a + b)[..|a + b| - 1] == a + b[..|b| - 1];
      KeptConcat(script, a, b[..|b| - 1]);
    }
  }

  lemma {:induction false} KeptAll(script: nat -> seq<Call>, es: seq<Event>)
    requires forall k: nat :: script(k) == []
    ensures Kept(script, es) == es
  {
    if es != [] {
      KeptAll(script, es[..|es| - 1]);
      assert Untouched(script, es[|es| - 1].fd);
    }
  }

  lemma {:induction false} KeptNone(script: nat -> seq<Call>, es: seq<Event>, fd: int)
    requires !Untouched(script, fd) && forall e | e in es :: e.fd == fd
    ensures Kept(script, es) == []
  {
    hide Untouched;
    if es != [] {
      assert es[|es| - 1] in es;
      KeptNone(script, es[..|es| - 1], fd);
    }
  }

  lemma {:induction false} UntouchedCalls(calls: seq<Call>, reg: Registry, fd: int)
    requires forall c | c in calls :: c.fd != fd
    ensures var r := SetRegs(reg, calls); (fd in r <==> fd in reg) && (fd in reg ==> r[fd] == reg[fd])
  {
    if calls != [] {
      var last := calls[|calls| - 1];
      assert last in calls;
      UntouchedCalls(calls[..|calls| - 1], reg, fd);
    }
  }

  lemma {:induction false} UntouchedReg(script: nat -> seq<Call>, reg: Registry, from: nat, n: nat, fd: int)
    requires Untouched(script, fd)
    ensures var r := RegAt(script, reg, from, n); (fd in r <==> fd in reg) && (fd in reg ==> r[fd] == reg[fd])
    ensures !Dropped(script, from, from + n, fd)
  {
    hide SetRegs;
    if n > 0 {
      UntouchedReg(script, reg, from, n - 1, fd);
      UntouchedCalls(script(from + n - 1), RegAt(script, reg, from, n - 1), fd);
    }
  }

  /** What is due for an untouched descriptor is what was due at the start. */
  lemma {:induction false} DueIsEvent(script: nat -> seq<Call>, reg: Registry, from: nat, k: nat, heap: Heap, p: Ptr,
                                      reading: bool, ready: set<int>)
    requires p in heap && Untouched(script, heap[p].fd) && Represents(heap, reg)
    ensures Due(script, reg, from, k, heap[p].fd, heap[p].deleted, reading, ready) == EventOf(heap[p], reading, ready)
  {
    hide Untouched, Dropped, RegAt;
    UntouchedReg(script, reg, from, k, heap[p].fd);
    if !heap[p].deleted {
      assert Handles(heap, heap[p].fd, HandlerOf(heap[p]));
    }
  }

  /** The untouched descriptors get exactly the callbacks due at the start, in order. */
  lemma {:induction false} WalkKept(script: nat -> seq<Call>, reg: Registry, from: nat, heap: Heap, order: seq<Ptr>, rd: set<int>, wr: set<int>)
    requires (forall p | p in order :: p in heap) && Represents(heap, reg)
    ensures Kept(script, Walk(script, reg, from, heap, order, rd, wr)) == Kept(script, Expected(heap, order, rd, wr))
  {
    hide Untouched, Kept, Due, EventOf, Represents;
    if order != [] {
      var before, p := order[..|order| - 1], order[|order| - 1];
      WalkKept(script, reg, from, heap, before, rd, wr);
      var es, n := Walk(script, reg, from, heap, before, rd, wr), heap[p];
      var first := Due(script, reg, from, |es|, n.fd, n.deleted, true, rd);
      var second := Due(script, reg, from, |es + first|, n.fd, n.deleted, false, wr);
      KeptConcat(script, es, first);
      KeptConcat(script, es + first, second);
      KeptConcat(script, Expected(heap, before, rd, wr), EventsOf(n, rd, wr));
      KeptConcat(script, EventOf(n, true, rd), EventOf(n, false, wr));
      KeptOne(script, reg, from, |es|, heap, p, true, rd);
      KeptOne(script, reg, from, |es + first|, heap, p, false, wr);
    }
  }

  /** With callbacks that register nothing, exactly the callbacks due at the start are made. */
  lemma {:induction false} WalkQuiet(script: nat -> seq<Call>, reg: Registry, from: nat, heap: Heap, order: seq<Ptr>, rd: set<int>, wr: set<int>)
    requires (forall p | p in order :: p in heap) && Represents(heap, reg) && forall k: nat :: script(k) == []
    ensures Walk(script, reg, from, heap, order, rd, wr) == Expected(heap, order, rd, wr)
  {
    hide Kept, Walk, Expected, Represents;
    WalkKept(script, reg, from, heap, order, rd, wr);
    KeptAll(script, Walk(script, reg, from, heap, order, rd, wr));
    KeptAll(script, Expected(heap, order, rd, wr));
  }

  lemma {:induction false} KeptOne(script: nat -> seq<Call>, reg: Registry, from: nat, k: nat, heap: Heap, p: Ptr,
                                   reading: bool, ready: set<int>)
    requires p in heap && Represents(heap, reg)
    ensures Kept(script, Due(script, reg, from, k, heap[p].fd, heap[p].deleted, reading, ready)) ==
            Kept(script, EventOf(heap[p], reading, ready))
  {
    hide Untouched, Kept, Represents, Dropped, RegAt;
    var n := heap[p];
    if Untouched(script, n.fd) {
      DueIsEvent(script, reg, from, k, heap, p, reading, ready);
    } else {
      KeptNone(script, Due(script, reg, from, k, n.fd, n.deleted, reading, ready), n.fd);
      KeptNone(script, EventOf(n, reading, ready), n.fd);
    }
  }
}
