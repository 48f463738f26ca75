/** The buffered migration file: a flow-controlled stream over a backend that may answer anything. */
module BufferedFiles {
  import opened Words

  const EAGAIN := 11
  const EINVAL := 22

  // ---------------------------------------------------------------------------------------------
  // Offering bytes to the backend

  datatype End = Done | Held | Again | Failed

  /** What becomes of bytes offered again and again: how many are taken, the calls made, and how it ends. */
  datatype Outcome = Outcome(taken: nat, calls: nat, end: End)

  /** Offering n bytes from call k on, where reply k is what the backend answers to call k: EAGAIN, an error,
    * or how many bytes it takes at most. Limited offers stop when more than limit bytes have been counted. */
  function Offer(reply: nat -> int, k: nat, n: nat, limited: bool, xfer: nat, limit: nat): (o: Outcome)
    ensures o.taken <= n && k <= o.calls
    ensures o.end == Done <==> o.taken == n
    ensures o.end == Held ==> limited
    decreases n
  {
    if n == 0 then Outcome(0, k, Done)
    else if limited && xfer > limit then Outcome(0, k, Held)
    else if reply(k) == -EAGAIN then Outcome(0, k + 1, Again)
    else if reply(k) <= 0 then Outcome(0, k + 1, Failed)
    else
      var t := if reply(k) > n then n else reply(k);
      After(t, Offer(reply, k + 1, n - t, limited, if limited then xfer + t else xfer, limit))
  }

  /** An outcome after t bytes have gone. */
  function After(t: nat, o: Outcome): Outcome {
    Outcome(t + o.taken, o.calls, o.end)
  }

  // ---------------------------------------------------------------------------------------------
  // The file as a state and its steps

  datatype State = State(hasError: bool, frozen: bool, xfer: nat, limit: nat, held: seq<Byte>, out: seq<Byte>, calls: nat)

  datatype Step = Put(bytes: seq<Byte>) | Tick | Limit(rate: nat)

  function FlushOutcome(reply: nat -> int, s: State): (o: Outcome)
    ensures o.taken <= |s.held|
  {
    Offer(reply, s.calls, |s.held|, false, 0, 0)
  }

  /** The held bytes are offered until the backend puts them off or fails. */
  function Flushed(reply: nat -> int, s: State): State {
    if s.hasError then s
    else
      var o := FlushOutcome(reply, s);
      s.(hasError := o.end == Failed, frozen := s.frozen || o.end == Again, held := s.held[o.taken..],
         out := s.out + s.held[..o.taken], calls := o.calls)
  }

  function DirectOutcome(reply: nat -> int, s: State, buf: seq<Byte>): (o: Outcome)
    ensures o.taken <= |buf|
  {
    if s.frozen then Outcome(0, s.calls, if buf == [] then Done else Again)
    else Offer(reply, s.calls, |buf|, true, s.xfer, s.limit)
  }

  /** New bytes are offered directly. */
  function Directly(reply: nat -> int, s: State, buf: seq<Byte>): State {
    var o := DirectOutcome(reply, s, buf);
    s.(hasError := s.hasError || o.end == Failed, frozen := s.frozen || o.end == Again, xfer := s.xfer + o.taken,
       out := s.out + buf[..o.taken], calls := o.calls)
  }

  /** A put: what is held goes first, then the new bytes; what is left of them is held. */
  function Putting(reply: nat -> int, s: State, buf: seq<Byte>): (State, int) {
    if s.hasError then (s, -EINVAL)
    else
      var f := Flushed(reply, s.(frozen := false));
      var o := DirectOutcome(reply, f, buf);
      var g := Directly(reply, f, buf);
      if o.end == Failed then (g, -EINVAL) else (g.(held := g.held + buf[o.taken..]), |buf|)
  }

  function Ticking(reply: nat -> int, s: State): State {
    if s.hasError || s.frozen then s else Flushed(reply, s.(xfer := 0))
  }

  function Limiting(s: State, rate: nat): State {
    if s.hasError then s else s.(limit := rate / 10)
  }

  function Apply(reply: nat -> int, s: State, step: Step): State {
    match step
    case Put(bytes) => Putting(reply, s, bytes).0
    case Tick => Ticking(reply, s)
    case Limit(rate) => Limiting(s, rate)
  }

  function Run(reply: nat -> int, s: State, steps: seq<Step>): State {
    if steps == [] then s else Apply(reply, Run(reply, s, steps[..|steps| - 1]), steps[|steps| - 1])
  }

  /** The bytes of all puts. */
  function AllPut(steps: seq<Step>): seq<Byte> {
    if steps == [] then []
    else
      var last := steps[|steps| - 1];
      AllPut(steps[..|steps| - 1]) + (if last.Put? then last.bytes else [])
  }

  // ---------------------------------------------------------------------------------------------
  // Nothing is lost, doubled or reordered while there is no error

  ghost predicate Conserved(s: State, accepted: seq<Byte>) {
    s.hasError || s.out + s.held == accepted
  }

  lemma {:induction false} FlushConserves(reply: nat -> int, s: State, accepted: seq<Byte>)
    requires Conserved(s, accepted)
    ensures Conserved(Flushed(reply, s), accepted)
    ensures !s.hasError ==> var f := Flushed(reply, s); f.out + f.held == accepted
    ensures var f := Flushed(reply, s); f.hasError || f.frozen || f.held == []
  {
  }

  lemma {:induction false} PutConserves(reply: nat -> int, s: State, buf: seq<Byte>, accepted: seq<Byte>)
    requires Conserved(s, accepted)
    ensures Conserved(Putting(reply, s, buf).0, accepted + buf)
  {
    hide Offer, Flushed, FlushOutcome;
    if !s.hasError {
      var f := Flushed(reply, s.(frozen := false));
      FlushConserves(reply, s.(frozen := false), accepted);
      var o := DirectOutcome(reply, f, buf);
      if !f.hasError && o.end != Failed {
        PutInOrder(f.out, f.held, buf, o.taken);
      }
    }
  }

  lemma {:induction false} PutInOrder(out: seq<Byte>, held: seq<Byte>, buf: seq<Byte>, taken: nat)
    requires taken <= |buf| && (held == [] || taken == 0)
    ensures out + buf[..taken] + (held + buf[taken..]) == out + held + buf
  {
  }

  /** In every run over every backend: what is out and what is held is what was put, as long as no error is set. */
  lemma {:induction false} RunConserves(reply: nat -> int, s: State, steps: seq<Step>)
    requires !s.hasError && s.out == [] && s.held == []
    ensures Conserved(Run(reply, s, steps), AllPut(steps))
  {
    hide Flushed, Putting;
    if steps != [] {
      var before, last := steps[..|steps| - 1], steps[|steps| - 1];
      RunConserves(reply, s, before);
      var t, accepted := Run(reply, s, before), AllPut(before);
      match last {
        case Put(bytes) =>
          PutConserves(reply, t, bytes, accepted);
        case Tick =>
          FlushConserves(reply, t.(xfer := 0), accepted);
          assert accepted + [] == accepted;
        case Limit(rate) =>
          assert accepted + [] == accepted;
      }
    }
  }

  // ---------------------------------------------------------------------------------------------
  // An error is set exactly when a call of the backend has failed

  /** The reply is an error: neither some bytes taken nor a request to try again. */
  predicate Fails(reply: int) {
    reply <= 0 && reply != -EAGAIN
  }

  /** One of the calls from, from+1, ..., to-1 has failed. */
  ghost predicate AnyFails(reply: nat -> int, from: nat, to: nat) {
    exists k: nat | from <= k < to :: Fails(reply(k))
  }

  lemma {:induction false} AnyFailsSplit(reply: nat -> int, from: nat, mid: nat, to: nat)
    requires from <= mid <= to
    ensures AnyFails(reply, from, to) <==> AnyFails(reply, from, mid) || AnyFails(reply, mid, to)
  {
    hide Fails;
  }

  lemma {:induction false} AnyFailsFirst(reply: nat -> int, from: nat, to: nat)
    requires from < to
    ensures AnyFails(reply, from, to) <==> Fails(reply(from)) || AnyFails(reply, from + 1, to)
  {
    hide Fails;
  }

  lemma {:induction false} OfferFails(reply: nat -> int, k: nat, n: nat, limited: bool, xfer: nat, limit: nat)
    ensures var o := Offer(reply, k, n, limited, xfer, limit); o.end == Failed <==> AnyFails(reply, k, o.calls)
    decreases n
  {
    hide AnyFails;
    var o := Offer(reply, k, n, limited, xfer, limit);
    if o.calls == k {
      assert !AnyFails(reply, k, k) by { NoneFails(reply, k); }
    } else {
      AnyFailsFirst(reply, k, o.calls);
      if reply(k) > 0 {
        var t := if reply(k) > n then n else reply(k);
        OfferFails(reply, k + 1, n - t, limited, if limited then xfer + t else xfer, limit);
      } else {
        NoneFails(reply, k + 1);
      }
    }
  }

  lemma {:induction false} NoneFails(reply: nat -> int, k: nat)
    ensures !AnyFails(reply, k, k)
  {
  }

  lemma {:induction false} FlushFails(reply: nat -> int, s: State)
    ensures var f := Flushed(reply, s); s.calls <= f.calls && (f.hasError <==> s.hasError || AnyFails(reply, s.calls, f.calls))
  {
    hide Offer, AnyFails;
    OfferFails(reply, s.calls, |s.held|, false, 0, 0);
    NoneFails(reply, s.calls);
  }

  lemma {:induction false} PutFails(reply: nat -> int, s: State, buf: seq<Byte>)
    ensures var r := Putting(reply, s, buf).0;
            s.calls <= r.calls && (r.hasError <==> s.hasError || AnyFails(reply, s.calls, r.calls))
    ensures Putting(reply, s, buf).1 == |buf| || Putting(reply, s, buf).1 == -EINVAL
  {
    hide Offer, AnyFails, Flushed;
    if !s.hasError {
      var f := Flushed(reply, s.(frozen := false));
      FlushFails(reply, s.(frozen := false));
      if f.frozen {
        NoneFails(reply, f.calls);
      } else {
        OfferFails(reply, f.calls, |buf|, true, f.xfer, f.limit);
      }
      AnyFailsSplit(reply, s.calls, f.calls, Directly(reply, f, buf).calls);
    } else {
      NoneFails(reply, s.calls);
    }
  }

  /** Over every run: the error is set if and only if it was, or a call made meanwhile has failed. */
  lemma {:induction false} RunFails(reply: nat -> int, s: State, steps: seq<Step>)
    ensures var r := Run(reply, s, steps);
            s.calls <= r.calls && (r.hasError <==> s.hasError || AnyFails(reply, s.calls, r.calls))
  {
    hide AnyFails, Flushed, Putting;
    if steps == [] {
      NoneFails(reply, s.calls);
    } else {
      var before, last := steps[..|steps| - 1], steps[|steps| - 1];
      RunFails(reply, s, before);
      var t := Run(reply, s, before);
      StepFails(reply, t, last);
      AnyFailsSplit(reply, s.calls, t.calls, Apply(reply, t, last).calls);
    }
  }

  lemma {:induction false} StepFails(reply: nat -> int, s: State, step: Step)
    ensures var r := Apply(reply, s, step);
            s.calls <= r.calls && (r.hasError <==> s.hasError || AnyFails(reply, s.calls, r.calls))
  {
    hide AnyFails, Flushed, Putting;
    NoneFails(reply, s.calls);
    match step
    case Put(bytes) => PutFails(reply, s, bytes);
    case Tick => FlushFails(reply, s.(xfer := 0));
    case Limit(_) =>
  }

  // ---------------------------------------------------------------------------------------------
  // The rate limit

  lemma {:induction false} OfferWithin(reply: nat -> int, k: nat, n: nat, xfer: nat, limit: nat, chunk: nat)
    requires forall j | j >= k :: reply(j) <= chunk
    ensures var t := Offer(reply, k, n, true, xfer, limit).taken; t == 0 || xfer + t <= limit + chunk
    decreases n
  {
    if n > 0 && xfer <= limit && reply(k) > 0 {
      var t := if reply(k) > n then n else reply(k);
      OfferWithin(reply, k + 1, n - t, xfer + t, limit, chunk);
    }
  }

  /** The counter counts the bytes a put sends of its own, and no put starts an offer over the limit: with a backend that
    * takes at most `chunk` bytes at a time, what has been sent since the last tick stays within limit + chunk. */
  lemma {:induction false} PutWithinLimit(reply: nat -> int, s: State, buf: seq<Byte>, chunk: nat)
    requires !s.hasError && forall j | j >= s.calls :: reply(j) <= chunk
    ensures var r, f := Putting(reply, s, buf).0, Flushed(reply, s.(frozen := false));
            && r.xfer - s.xfer == |r.out| - |f.out|
            && (r.xfer == s.xfer || r.xfer <= s.limit + chunk)
  {
    hide Offer;
    var f := Flushed(reply, s.(frozen := false));
    OfferWithin(reply, f.calls, |buf|, f.xfer, f.limit, chunk);
  }

  lemma {:induction false} OfferTakesAll(reply: nat -> int, k: nat, n: nat, limited: bool, xfer: nat, limit: nat)
    requires (forall j | j >= k :: reply(j) > 0) && (limited ==> n > 0 ==> xfer + n <= limit + 1)
    ensures var o := Offer(reply, k, n, limited, xfer, limit); o.taken == n && o.end == Done
    decreases n
  {
    if n > 0 {
      var t := if reply(k) > n then n else reply(k);
      OfferTakesAll(reply, k + 1, n - t, limited, if limited then xfer + t else xfer, limit);
    }
  }

  /** A put takes a file out of its freeze: within the budget and with a backend that takes what it is offered, what was
    * held and what is put go out entirely. */
  lemma {:induction false} PutGoesOut(reply: nat -> int, s: State, buf: seq<Byte>)
    requires !s.hasError && (buf == [] || s.xfer + |buf| <= s.limit + 1) && forall j | j >= s.calls :: reply(j) > 0
    ensures var r := Putting(reply, s, buf);
            r.0.out == s.out + s.held + buf && r.0.held == [] && !r.0.frozen && !r.0.hasError && r.1 == |buf|
  {
    hide Offer;
    OfferTakesAll(reply, s.calls, |s.held|, false, 0, 0);
    var f := Flushed(reply, s.(frozen := false));
    assert f.held == [] && f.out == s.out + s.held;
    OfferTakesAll(reply, f.calls, |buf|, true, f.xfer, f.limit);
  }

  /** A tick renews the budget: whatever was sent before it, a put within the limit goes out entirely after it. */
  lemma {:induction false} TickRenews(reply: nat -> int, s: State, buf: seq<Byte>)
    requires !s.hasError && !s.frozen && |buf| <= s.limit + 1 && forall j | j >= s.calls :: reply(j) > 0
    ensures var r := Putting(reply, Ticking(reply, s), buf); r.0.out == s.out + s.held + buf && r.0.held == [] && r.1 == |buf|
  {
    hide Offer, Putting;
    OfferTakesAll(reply, s.calls, |s.held|, false, 0, 0);
    var t := Ticking(reply, s);
    assert t.held == [] && t.out == s.out + s.held;
    PutGoesOut(reply, t, buf);
    assert t.out + t.held == s.out + s.held;
  }

  /** A tick does nothing to a file that is frozen or has failed, and otherwise only flushes. */
  lemma {:induction false} TickFlushes(reply: nat -> int, s: State)
    ensures var t := Ticking(reply, s);
            if s.hasError || s.frozen then t == s
            else t.xfer == 0 && t.limit == s.limit && t.out + t.held == s.out + s.held && (t.hasError || t.frozen || t.held == [])
  {
    hide Offer, FlushOutcome, Flushed;
    if !s.hasError && !s.frozen {
      FlushConserves(reply, s.(xfer := 0), s.out + s.held);
      FlushKeepsBudget(reply, s.(xfer := 0));
    }
  }

  lemma {:induction false} FlushKeepsBudget(reply: nat -> int, s: State)
    ensures Flushed(reply, s).xfer == s.xfer && Flushed(reply, s).limit == s.limit
  {
  }

  // ---------------------------------------------------------------------------------------------
  // When a put keeps the order

  /** A put that does not fail in its flush has only sent bytes in their order; one that does has sent its first
    * bytes after what the flush had sent, and keeps the order only if they happen to be the ones held back. */
  lemma {:induction false} OrderKeptIff(reply: nat -> int, s: State, buf: seq<Byte>)
    requires !s.hasError
    ensures var f := Flushed(reply, s.(frozen := false));
            var taken := DirectOutcome(reply, f, buf).taken;
            && f.out + f.held == s.out + s.held
            && Putting(reply, s, buf).0.out == f.out + buf[..taken]
            && (Putting(reply, s, buf).0.out <= s.out + s.held + buf <==> !f.hasError || buf[..taken] <= f.held + buf)
  {
    hide Offer, Flushed, FlushOutcome;
    var f := Flushed(reply, s.(frozen := false));
    FlushConserves(reply, s.(frozen := false), s.out + s.held);
    var t := DirectOutcome(reply, f, buf).taken;
    assert f.out + f.held + buf == f.out + (f.held + buf);
    SamePrefix(f.out, buf[..t], f.held + buf);
    if !f.hasError {
      if f.held == [] {
        assert f.held + buf == buf;
      } else {
        assert buf[..t] == [];
      }
    }
  }

  lemma {:induction false} SamePrefix(out: seq<Byte>, a: seq<Byte>, b: seq<Byte>)
    ensures out + a <= out + b <==> a <= b
  {
    if out + a <= out + b {
      assert forall i | 0 <= i < |a| :: a[i] == (out + a)[|out| + i] == (out + b)[|out| + i] == b[i];
    }
  }

  /** The put sends nothing of its own: all its bytes are held behind the ones that were. */
  ghost predicate HoldsAll(reply: nat -> int, s: State, buf: seq<Byte>)
    requires !s.hasError
  {
    var r, f := Putting(reply, s, buf).0, Flushed(reply, s.(frozen := false));
    r.out == f.out && r.held == f.held + buf && r.out <= s.out + s.held
  }

  lemma {:induction false} OverLimitHolds(reply: nat -> int, s: State, buf: seq<Byte>)
    requires !s.hasError && s.xfer > s.limit
    ensures HoldsAll(reply, s, buf)
  {
    hide FlushOutcome;
    var f := Flushed(reply, s.(frozen := false));
    FlushConserves(reply, s.(frozen := false), s.out + s.held);
    assert DirectOutcome(reply, f, buf).taken == 0;
    assert buf[..0] == [] && buf[0..] == buf;
  }

  /** A backend that fails on call k and takes single bytes otherwise. */
  function FailsAt(k: nat): nat -> int {
    i => if i == k then -1 else 1
  }

  function Repeated(b: Byte, n: nat): (r: seq<Byte>)
    ensures |r| == n && forall i | 0 <= i < n :: r[i] == b
  {
    seq(n, _ => b)
  }

  /** With bytes held, bytes to put and the limit not passed, a flush that fails is overtaken. */
  lemma {:induction false} CanOvertake(s: State, n: nat)
    requires !s.hasError && s.held != [] && n > 0 && s.xfer <= s.limit
    ensures var held, buf := Repeated(Byte(0), |s.held|), Repeated(Byte(1), n);
            !(Putting(FailsAt(s.calls), s.(held := held), buf).0.out <= s.out + held + buf)
  {
    hide Repeated;
    var held, buf := Repeated(Byte(0), |s.held|), Repeated(Byte(1), n);
    var reply, t := FailsAt(s.calls), s.(held := held);
    var f := Flushed(reply, t.(frozen := false));
    assert FlushOutcome(reply, t) == Outcome(0, s.calls + 1, Failed);
    assert f.held == held;
    var o := DirectOutcome(reply, f, buf);
    OfferStep(reply, f.calls, n, true, s.xfer, s.limit);
    assert o.taken > 0;
    OrderKeptIff(reply, t, buf);
    assert buf[..o.taken][0] == Byte(1) && (held + buf)[0] == Byte(0);
  }

  /** Exactly when a caller can count on the order, whatever the backend answers and whatever the bytes are: nothing
    * is held, nothing is put, or the limit is passed. */
  lemma {:induction false} OrderSafeIff(s: State, n: nat)
    requires !s.hasError
    ensures (forall reply: nat -> int, held: seq<Byte>, buf: seq<Byte> | |held| == |s.held| && |buf| == n ::
               Putting(reply, s.(held := held), buf).0.out <= s.out + held + buf) <==>
            s.held == [] || n == 0 || s.xfer > s.limit
  {
    hide Putting, Repeated, FailsAt;
    if s.held == [] || n == 0 || s.xfer > s.limit {
      forall reply: nat -> int, held: seq<Byte>, buf: seq<Byte> | |held| == |s.held| && |buf| == n
        ensures Putting(reply, s.(held := held), buf).0.out <= s.out + held + buf
      {
        SafePut(reply, s.(held := held), buf);
      }
    } else {
      CanOvertake(s, n);
      var held, buf := Repeated(Byte(0), |s.held|), Repeated(Byte(1), n);
      assert !(Putting(FailsAt(s.calls), s.(held := held), buf).0.out <= s.out + held + buf);
    }
  }

  lemma {:induction false} SafePut(reply: nat -> int, s: State, buf: seq<Byte>)
    requires !s.hasError && (s.held == [] || buf == [] || s.xfer > s.limit)
    ensures Putting(reply, s, buf).0.out <= s.out + s.held + buf
  {
    hide Putting;
    OrderKeptIff(reply, s, buf);
    if s.xfer > s.limit {
      OverLimitHolds(reply, s, buf);
    }
  }

  /** A flush that fails does not stop the put. From a file just opened: the first byte is put off, the flush of the
    * second put fails, and the second byte goes out before the first while the put reports success. */
  lemma {:induction false} Overtaking(reply: nat -> int, limit: nat, x: Byte, y: Byte)
    requires reply(0) == -EAGAIN && reply(1) == -1 && reply(2) == 1
    ensures var start := State(false, false, 0, limit, [], [], 0);
            var one := Run(reply, start, [Put([x])]);
            var two := Run(reply, start, [Put([x]), Put([y])]);
            && two.out == [y] && two.held == [x] && two.hasError
            && Putting(reply, one, [y]) == (two, 1)
  {
    hide Putting, Ticking;
    var start := State(false, false, 0, limit, [], [], 0);
    var a, b := Put([x]), Put([y]);
    assert [a][..0] == [] && [a, b][..1] == [a];
    assert Run(reply, start, []) == start;
    FirstIsHeld(reply, limit, x);
    assert Run(reply, start, [a]) == Putting(reply, start, [x]).0;
    SecondOvertakes(reply, limit, x, y);
    assert Run(reply, start, [a, b]) == Putting(reply, Run(reply, start, [a]), [y]).0;
  }

  lemma {:induction false} FirstIsHeld(reply: nat -> int, limit: nat, x: Byte)
    requires reply(0) == -EAGAIN
    ensures Putting(reply, State(false, false, 0, limit, [], [], 0), [x]).0 == State(false, true, 0, limit, [x], [], 1)
  {
    var s := State(false, false, 0, limit, [], [], 0);
    assert Flushed(reply, s) == s;
    assert Offer(reply, 0, 1, true, 0, limit) == Outcome(0, 1, Again);
    assert [x][0..] == [x] && [] + [x] == [x];
  }

  lemma {:induction false} SecondOvertakes(reply: nat -> int, limit: nat, x: Byte, y: Byte)
    requires reply(1) == -1 && reply(2) == 1
    ensures Putting(reply, State(false, true, 0, limit, [x], [], 1), [y]) == (State(true, false, 1, limit, [x], [y], 3), 1)
  {
    var s := State(false, false, 0, limit, [x], [], 1);
    assert FlushOutcome(reply, s) == Outcome(0, 2, Failed);
    assert Flushed(reply, s) == State(true, false, 0, limit, [x], [], 2);
    OfferStep(reply, 2, 1, true, 0, limit);
    OfferNothing(reply, 3, true, 1, limit);
    var f := State(true, false, 0, limit, [x], [], 2);
    assert DirectOutcome(reply, f, [y]) == Outcome(1, 3, Done);
    assert [y][..1] == [y] && [y][1..] == [] && [x] + [] == [x] && [] + [y] == [y];
    assert Directly(reply, f, [y]) == State(true, false, 1, limit, [x], [y], 3);
  }

  // ---------------------------------------------------------------------------------------------
  // The file itself

  class Backend {
    var delivered: seq<Byte>
    var calls: nat
    const reply: nat -> int

    constructor (replies: nat -> int)
      ensures delivered == [] && calls == 0 && reply == replies
    {
      delivered, calls, reply := [], 0, replies;
    }

    /** A positive reply takes that many bytes, or all there are; any other is handed back. */
    method Put(data: seq<Byte>) returns (ret: int)
      requires data != []
      modifies this
      ensures calls == old(calls) + 1
      ensures ret == if |data| < reply(old(calls)) then |data| else reply(old(calls))
      ensures delivered == if ret > 0 then old(delivered) + data[..ret] else old(delivered)
    {
      ret := reply(calls);
      if ret > |data| {
        ret := |data|;
      }
      if ret > 0 {
        delivered := delivered + data[..ret];
      }
      calls := calls + 1;
    }
  }

  class BufferedFile {
    var hasError: bool
    var freezeOutput: bool
    var bytesXfer: nat
    var xferLimit: nat
    var buffer: array<Byte>
    var bufferSize: nat
    const backend: Backend

    constructor (b: Backend, bytesPerSecond: nat)
      ensures Valid() && backend == b && fresh(buffer)
      ensures Snapshot() == State(false, false, 0, bytesPerSecond / 10, [], b.delivered, b.calls)
    {
      hasError, freezeOutput, bytesXfer, xferLimit := false, false, 0, bytesPerSecond / 10;
      buffer := new Byte[0];
      bufferSize := 0;
      backend := b;
    }

    /** The bytes held fit the buffer. */
    ghost predicate Valid()
      reads this
    {
      bufferSize <= buffer.Length
    }

    ghost function Snapshot(): State
      requires Valid()
      reads this, buffer, backend
    {
      State(hasError, freezeOutput, bytesXfer, xferLimit, buffer[..bufferSize], backend.delivered, backend.calls)
    }

    /** Room for more bytes, if need be in a larger buffer. */
    method Append(buf: seq<Byte>)
      requires Valid()
      modifies this`buffer, this`bufferSize, buffer
      ensures Valid() && (buffer == old(buffer) || fresh(buffer))
      ensures Snapshot() == old(Snapshot()).(held := old(Snapshot()).held + buf)
    {
      ghost var held := buffer[..bufferSize];
      if |buf| > buffer.Length - bufferSize {
        var larger := new Byte[buffer.Length + |buf| + 1024](_ => Byte(0));
        CopyTo(larger, 0, buffer[..bufferSize]);
        assert larger[..bufferSize] == held;
        buffer := larger;
      }
      CopyTo(buffer, bufferSize, buf);
      assert buffer[..bufferSize + |buf|] == held + buf;
      bufferSize := bufferSize + |buf|;
    }

    /** How much of the buffer the backend takes. */
    method FlushLoop() returns (offset: nat)
      requires Valid() && !hasError
      modifies this`hasError, this`freezeOutput, backend
      ensures var s := old(Snapshot());
              var o := FlushOutcome(backend.reply, s);
              && offset == o.taken && backend.calls == o.calls && backend.delivered == s.out + s.held[..o.taken]
              && hasError == (o.end == Failed) && freezeOutput == (s.frozen || o.end == Again)
    {
      hide Offer;
      ghost var s := Snapshot();
      ghost var o := FlushOutcome(backend.reply, s);
      offset := 0;
      while offset < bufferSize
        invariant 0 <= offset <= bufferSize
        invariant !hasError && freezeOutput == s.frozen && backend.delivered == s.out + s.held[..offset]
        invariant o == After(offset, Offer(backend.reply, backend.calls, bufferSize - offset, false, 0, 0))
      {
        OfferStep(backend.reply, backend.calls, bufferSize - offset, false, 0, 0);
        var ret := backend.Put(buffer[offset..bufferSize]);
        if ret == -EAGAIN {
          freezeOutput := true;
          return;
        }
        if ret <= 0 {
          hasError := true;
          return;
        }
        TakeMore(s.out, s.held, offset, ret);
        offset := offset + ret;
      }
      OfferNothing(backend.reply, backend.calls, false, 0, 0);
    }

    method Flush()
      requires Valid()
      modifies this`hasError, this`freezeOutput, this`bufferSize, buffer, backend
      ensures Valid() && Snapshot() == Flushed(backend.reply, old(Snapshot()))
    {
      hide Offer, FlushOutcome;
      if hasError {
        return;
      }
      ghost var s := Snapshot();
      var offset := FlushLoop();
      var left := buffer[offset..bufferSize];
      assert left == s.held[offset..];
      CopyTo(buffer, 0, left);
      bufferSize := bufferSize - offset;
      assert buffer[..bufferSize] == left;
    }

    /** How much of the new bytes the backend takes, unless it fails. */
    method PutDirectly(buf: seq<Byte>) returns (offset: int)
      requires Valid()
      modifies this`hasError, this`freezeOutput, this`bytesXfer, backend
      ensures Valid() && Snapshot() == Directly(backend.reply, old(Snapshot()), buf)
      ensures var o := DirectOutcome(backend.reply, old(Snapshot()), buf);
              offset == if o.end == Failed then -EINVAL else o.taken
    {
      hide Offer;
      ghost var s := Snapshot();
      ghost var o := DirectOutcome(backend.reply, s, buf);
      offset := 0;
      if freezeOutput {
        assert s.out + buf[..0] == s.out;
        return;
      }
      while offset < |buf|
        invariant 0 <= offset <= |buf| && Valid()
        invariant Snapshot() == s.(xfer := s.xfer + offset, out := s.out + buf[..offset], calls := backend.calls)
        invariant o == After(offset, Offer(backend.reply, backend.calls, |buf| - offset, true, bytesXfer, xferLimit))
      {
        if bytesXfer > xferLimit {
          OfferHeld(backend.reply, backend.calls, |buf| - offset, bytesXfer, xferLimit);
          return;
        }
        OfferStep(backend.reply, backend.calls, |buf| - offset, true, bytesXfer, xferLimit);
        var ret := backend.Put(buf[offset..]);
        if ret == -EAGAIN {
          freezeOutput := true;
          return;
        }
        if ret <= 0 {
          hasError := true;
          return -EINVAL;
        }
        TakeMore(s.out, buf, offset, ret);
        offset := offset + ret;
        bytesXfer := bytesXfer + ret;
      }
      OfferNothing(backend.reply, backend.calls, true, bytesXfer, xferLimit);
    }

    method PutBuffer(buf: seq<Byte>) returns (r: int)
      requires Valid()
      modifies this`hasError, this`freezeOutput, this`bytesXfer, this`bufferSize, this`buffer, buffer, backend
      ensures Valid() && (buffer == old(buffer) || fresh(buffer))
      ensures (Snapshot(), r) == Putting(backend.reply, old(Snapshot()), buf)
    {
      hide Flushed, Directly, DirectOutcome;
      if hasError {
        return -EINVAL;
      }
      freezeOutput := false;
      assert Snapshot() == old(Snapshot()).(frozen := false);
      Flush();
      ghost var f := Snapshot();
      var offset := PutDirectly(buf);
      if offset >= 0 {
        Append(buf[offset..]);
        offset := |buf|;
      }
      return offset;
    }

    /** Flushing until nothing is left; a frozen backend is waited for. Call eventually(k), not before k, is not put off. */
    method Close(ghost accepted: seq<Byte>, ghost eventually: nat -> nat)
      requires Valid() && Conserved(Snapshot(), accepted)
      requires forall k: nat :: eventually(k) >= k && backend.reply(eventually(k)) != -EAGAIN
      modifies this`hasError, this`freezeOutput, this`bufferSize, buffer, backend
      ensures Valid() && Conserved(Snapshot(), accepted)
      ensures !hasError ==> bufferSize == 0 && backend.delivered == accepted
      ensures old(backend.calls) <= backend.calls
      ensures hasError <==> old(hasError) || AnyFails(backend.reply, old(backend.calls), backend.calls)
    {
      hide Offer, FlushOutcome, AnyFails;
      ghost var goal := eventually(backend.calls);
      NoneFails(backend.reply, backend.calls);
      while !hasError && bufferSize != 0
        invariant Valid() && Conserved(Snapshot(), accepted)
        invariant goal >= backend.calls && backend.reply(goal) != -EAGAIN
        invariant old(backend.calls) <= backend.calls
        invariant hasError <==> old(hasError) || AnyFails(backend.reply, old(backend.calls), backend.calls)
        decreases !hasError, bufferSize, goal - backend.calls
      {
        ghost var s := Snapshot();
        FlushConserves(backend.reply, s, accepted);
        FlushProgress(backend.reply, s);
        FlushFails(backend.reply, s);
        Flush();
        AnyFailsSplit(backend.reply, old(backend.calls), s.calls, backend.calls);
        if hasError || bufferSize < |s.held| {
          goal := eventually(backend.calls);
        }
      }
    }

    /** The tenth-of-a-second timer: whether it is set again, and whether put_ready is called at the end. What put_ready
      * puts are the steps that follow. */
    method RateTick() returns (again: bool, ready: bool)
      requires Valid()
      modifies this`hasError, this`freezeOutput, this`bytesXfer, this`bufferSize, buffer, backend
      ensures Valid() && Snapshot() == Ticking(backend.reply, old(Snapshot()))
      ensures again == !old(hasError) && ready == (!old(hasError) && !old(freezeOutput))
    {
      hide Flushed;
      if hasError {
        return false, false;
      }
      if freezeOutput {
        return true, false;
      }
      bytesXfer := 0;
      Flush();
      return true, true;
    }

    /** The budget of a tenth of a second, for ten ticks a second. */
    method SetRateLimit(rate: nat) returns (limit: nat)
      requires Valid()
      modifies this`xferLimit
      ensures Valid() && Snapshot() == Limiting(old(Snapshot()), rate) && limit == xferLimit
      ensures if hasError then limit == old(xferLimit) else 10 * limit <= rate < 10 * (limit + 1)
    {
      if !hasError {
        xferLimit := rate / 10;
      }
      return xferLimit;
    }

    /** Nothing more may be sent now. */
    method RateLimit() returns (limited: bool)
      requires Valid()
      ensures limited <==> !hasError && (freezeOutput || bytesXfer > xferLimit)
      ensures limited && !freezeOutput ==> forall buf :: HoldsAll(backend.reply, Snapshot(), buf)
    {
      hide HoldsAll;
      if !hasError && bytesXfer > xferLimit {
        forall buf
          ensures HoldsAll(backend.reply, Snapshot(), buf)
        {
          OverLimitHolds(backend.reply, Snapshot(), buf);
        }
      }
      if hasError {
        return false;
      }
      if freezeOutput {
        return true;
      }
      return bytesXfer > xferLimit;
    }
  }

  /** A whole life of a file: opened, used in any way, and closed. */
  method UseAndClose(b: Backend, rate: nat, steps: seq<Step>, ghost eventually: nat -> nat) returns (f: BufferedFile)
    requires b.delivered == [] && forall k: nat :: eventually(k) >= k && b.reply(eventually(k)) != -EAGAIN
    modifies b
    ensures f.backend == b && f.Valid()
    ensures !f.hasError ==> b.delivered == AllPut(steps)
    ensures f.hasError <==> AnyFails(b.reply, old(b.calls), b.calls)
  {
    hide Putting, Ticking, Conserved, AnyFails;
    f := new BufferedFile(b, rate);
    ghost var start := f.Snapshot();
    var i := 0;
    assert steps[..0] == [];
    while i < |steps|
      invariant 0 <= i <= |steps|
      invariant fresh(f) && fresh(f.buffer) && f.backend == b && f.Valid()
      invariant f.Snapshot() == Run(b.reply, start, steps[..i])
    {
      assert steps[..i + 1][..i] == steps[..i];
      match steps[i] {
        case Put(bytes) =>
          var r := f.PutBuffer(bytes);
        case Tick =>
          var again, ready := f.RateTick();
        case Limit(rate) =>
          var limit := f.SetRateLimit(rate);
      }
      i := i + 1;
    }
    assert steps[..i] == steps;
    RunConserves(b.reply, start, steps);
    RunFails(b.reply, start, steps);
    ghost var k := b.calls;
    f.Close(AllPut(steps), eventually);
    AnyFailsSplit(b.reply, old(b.calls), k, b.calls);
  }

  // ---------------------------------------------------------------------------------------------
  // Steps of the loops

  lemma {:induction false} OfferStep(reply: nat -> int, k: nat, n: nat, limited: bool, xfer: nat, limit: nat)
    requires n > 0 && !(limited && xfer > limit)
    ensures var o := Offer(reply, k, n, limited, xfer, limit);
            if reply(k) == -EAGAIN then o == Outcome(0, k + 1, Again)
            else if reply(k) <= 0 then o == Outcome(0, k + 1, Failed)
            else
              var t := if reply(k) > n then n else reply(k);
              o == After(t, Offer(reply, k + 1, n - t, limited, if limited then xfer + t else xfer, limit))
  {
  }

  lemma {:induction false} OfferNothing(reply: nat -> int, k: nat, limited: bool, xfer: nat, limit: nat)
    ensures Offer(reply, k, 0, limited, xfer, limit) == Outcome(0, k, Done)
  {
  }

  lemma {:induction false} OfferHeld(reply: nat -> int, k: nat, n: nat, xfer: nat, limit: nat)
    requires n > 0 && xfer > limit
    ensures Offer(reply, k, n, true, xfer, limit) == Outcome(0, k, Held)
  {
  }

  lemma {:induction false} TakeMore(out: seq<Byte>, data: seq<Byte>, offset: nat, ret: nat)
    requires offset + ret <= |data|
    ensures out + data[..offset] + data[offset..][..ret] == out + data[..offset + ret]
  {
  }

  /** A flush without error makes the held bytes fewer, or spends one call on being put off. */
  lemma {:induction false} FlushProgress(reply: nat -> int, s: State)
    requires !s.hasError && s.held != []
    ensures var f := Flushed(reply, s);
            f.hasError || |f.held| < |s.held| || (f.calls == s.calls + 1 && reply(s.calls) == -EAGAIN)
    ensures |Flushed(reply, s).held| <= |s.held|
  {
  }

  method CopyTo(a: array<Byte>, at: nat, src: seq<Byte>)
    requires at + |src| <= a.Length
    modifies a
    ensures a[..at] == old(a[..at]) && a[at..at + |src|] == src
  {
    var i := 0;
    while i < |src|
      invariant 0 <= i <= |src|
      invariant a[..at] == old(a[..at]) && a[at..at + i] == src[..i]
    {
      a[at + i] := src[i];
      i := i + 1;
    }
  }
}
