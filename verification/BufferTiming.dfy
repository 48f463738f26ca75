/** When the firmware I/O buffer acts: which answers a request hands to the host, when it flushes and how far,
    and what a new write does to the queue. */
module BufferTiming {
  import opened Options
  import opened Disk
  import opened Frames
  import opened BufferSpec
  import opened BufferWrites
  import opened BufferTheorems

  // ---------------------------------------------------------------------------------------------
  // A new write in the queue

  /** The write lies inside the sectors [s, s+n). */
  predicate Inside(w: Write, s: nat, n: nat) {
    s <= w.sector && w.sector + w.length <= s + n
  }

  /** A write to [s, s+n) is joined to the write: it starts where that one ends, or starts behind its first sector,
      takes over at least its last two and goes on past its end. */
  predicate Joins(w: Write, s: nat, n: nat) {
    var end := w.sector + w.length;
    w.valid && (s == end || (w.sector < s && s + 2 <= end && end < s + n))
  }

  /** Exactly the valid writes inside the new one are dropped; all other writes stay as they are, but for the last,
      which takes up the new one when they join; otherwise the new write is added behind. */
  lemma {:induction false} QueueAfterWrite(c: Config, st: State, s: nat, x: seq<Value>)
    requires Shape(c, st) && 1 <= |x| && s + |x| <= c.sectors
    ensures var ws, r := st.writeQueue, EnqueueWrite(st, s, x);
            var rs, n, k := r.writeQueue, |x|, |ws| - 1;
            && r == st.(writeQueue := rs)
            && |rs| == |ws| + (if k >= 0 && Joins(ws[k], s, n) then 0 else 1)
            && (forall i | 0 <= i < |ws| && Inside(ws[i], s, n) :: !rs[i].valid && rs[i].sector == ws[i].sector && AllSuperseded(rs[i].span))
            && (forall i | 0 <= i < |ws| && !Inside(ws[i], s, n) && !(i == k && Joins(ws[k], s, n)) :: rs[i] == ws[i])
            && (if k >= 0 && Joins(ws[k], s, n)
                then rs[k].valid && rs[k].sector == ws[k].sector && rs[k].sector + rs[k].length == s + n
                else rs[|ws|] == Write(true, s, n, Fresh(x)))
  {
    hide Live, KeepFirst, SpanTotal, ReadTotal, AnswerTotal;
    var ws, n := st.writeQueue, |x|;
    var ys := Elide(ws, s, n);
    forall i | 0 <= i < |ws| && Inside(ws[i], s, n)
      ensures !ys[i].valid && ys[i].sector == ws[i].sector && AllSuperseded(ys[i].span)
    {
      assert WriteOk(ws[i], c.sectors);
      DroppedFrames(ws[i], s, n, c.sectors);
    }
    if ws != [] {
      var k := |ws| - 1;
      assert WriteOk(ws[k], c.sectors) && ys[k] == ElideOne(ws[k], s, n);
    }
  }

  lemma {:induction false} DroppedFrames(w: Write, s: nat, n: nat, sectors: nat)
    requires WriteOk(w, sectors) && Inside(w, s, n)
    ensures AllSuperseded(ElideOne(w, s, n).span) && !ElideOne(w, s, n).valid
  {
    hide Live;
    if !w.valid { NoneLive(w.span); }
  }

  // ---------------------------------------------------------------------------------------------
  // SSD_WRITE

  /** SSD_WRITE hands over exactly the reads completed before it. With room it leaves the flash, the frames left behind
      and the queued reads alone; without, everything queued goes first, and only the new write is queued after. */
  lemma {:induction false} SsdWriteHands(c: Config, st: State, s: nat, x: seq<Value>)
    requires Shape(c, st) && RequestOk(c, HostWrite(s, x))
    ensures var (r, out) := SsdWrite(c, st, s, x);
            && out == st.completed
            && (if |x| <= WriteFree(c, st)
                then r.completed == [] && r.flash == st.flash && r.leftover == st.leftover && r.readQueue == st.readQueue
                else && out + r.completed == Outstanding(c, st) && r.flash == Visible(c, st)
                     && r.leftover == [] && r.readQueue == [] && r.writeQueue == [Write(true, s, |x|, Fresh(x))])
  {
    hide Shape, Visible, Outstanding, Flush, Elide, Attach;
    DeliverEffect(c, st);
    var a := Deliver(st).0;
    assert WriteFree(c, a) == WriteFree(c, st);
    if WriteFree(c, a) < |x| {
      FlushAllEmpties(c, a);
      assert Elide([], s, |x|) == [];
      AttachFirst(s, x);
    }
  }

  lemma {:induction false} AttachFirst(s: nat, x: seq<Value>)
    ensures Attach([], s, x) == [Write(true, s, |x|, Fresh(x))]
  {
  }

  // ---------------------------------------------------------------------------------------------
  // SSD_READ

  /** SSD_READ hands over the reads completed before it, and nothing more if its own fits then; otherwise all that is
      owed. It flushes exactly the writes up to the last one that overlaps it. */
  lemma {:induction false} SsdReadHands(c: Config, st: State, s: nat, n: nat)
    requires Shape(c, st) && RequestOk(c, HostRead(s, n))
    ensures var (r, out) := SsdRead(c, st, s, n);
            && out == (if n <= c.readFrames - ReadTotal(st.readQueue) then st.completed else Outstanding(c, st))
            && FlushedUpTo(st, r, s, n)
            && r.readQueue != [] && r.readQueue[|r.readQueue| - 1].sector == s && r.readQueue[|r.readQueue| - 1].length == n
  {
    hide Shape, Visible, Outstanding, Flush, EnqueueRead, SecureRead, FlushedUpTo;
    DeliverEffect(c, st);
    var a := Deliver(st).0;
    assert ReadFree(c, a) == c.readFrames - ReadTotal(st.readQueue);
    if ReadFree(c, a) < n {
      SecureReadEffect(c, a);
      var (b, more) := SecureRead(c, a);
      SecureOwesNothing(c, a);
      EnqueueReadFlushes(c, b, s, n);
      FlushedUpToSame(st, b, EnqueueRead(c, b, s, n), s, n);
    } else {
      EnqueueReadFlushes(c, a, s, n);
      FlushedUpToSame(st, a, EnqueueRead(c, a, s, n), s, n);
    }
  }

  /** Exactly the queued writes up to the last valid one that overlaps [s, s+n) have gone to flash, if there is one. */
  ghost predicate FlushedUpTo(st: State, r: State, s: nat, n: nat) {
    exists j: nat ::
      && j <= |st.writeQueue|
      && (forall i | j <= i < |st.writeQueue| && st.writeQueue[i].valid ::
            st.writeQueue[i].sector + st.writeQueue[i].length <= s || s + n <= st.writeQueue[i].sector)
      && (j > 0 ==> var w := st.writeQueue[j - 1]; w.valid && w.sector < s + n && s < w.sector + w.length)
      && r.writeQueue == st.writeQueue[j..]
      && AllInRange(st.writeQueue[..j], |st.flash|) && r.flash == Replay(st.flash, st.writeQueue[..j])
  }

  lemma {:induction false} FlushedUpToSame(st: State, a: State, r: State, s: nat, n: nat)
    requires FlushedUpTo(a, r, s, n) && a.writeQueue == st.writeQueue && a.flash == st.flash
    ensures FlushedUpTo(st, r, s, n)
  {
  }

  lemma {:induction false} EnqueueReadFlushes(c: Config, st: State, s: nat, n: nat)
    requires Shape(c, st) && 1 <= n && s + n <= c.sectors
    ensures var r := EnqueueRead(c, st, s, n);
            && FlushedUpTo(st, r, s, n)
            && r.readQueue != [] && r.readQueue[|r.readQueue| - 1].sector == s && r.readQueue[|r.readQueue| - 1].length == n
  {
    hide Shape, Flush, CopyOut, Replay, AllInRange;
    var k := LastOverlap(st.writeQueue, s, n);
    FlushTakesPrefix(c, st, 0);
    if k < 0 {
      assert st.writeQueue[0..] == st.writeQueue && st.writeQueue[..0] == [];
      ReplayNothing(st.flash);
      Witness(st, EnqueueRead(c, st, s, n), s, n, 0);
    } else {
      FlushTakesPrefix(c, st, k + 1);
      ShapeWrite(c, st, k);
      Witness(st, EnqueueRead(c, st, s, n), s, n, k + 1);
    }
  }

  lemma {:induction false} ReplayNothing(d: seq<Value>)
    ensures Replay(d, []) == d
  {
  }

  lemma {:induction false} Witness(st: State, r: State, s: nat, n: nat, j: nat)
    requires j <= |st.writeQueue| && LastOverlap(st.writeQueue, s, n) == j - 1
    requires r.writeQueue == st.writeQueue[j..]
    requires AllInRange(st.writeQueue[..j], |st.flash|) && r.flash == Replay(st.flash, st.writeQueue[..j])
    ensures FlushedUpTo(st, r, s, n)
  {
    hide Replay, AllInRange;
    forall i | j <= i < |st.writeQueue| && st.writeQueue[i].valid
      ensures st.writeQueue[i].sector + st.writeQueue[i].length <= s || s + n <= st.writeQueue[i].sector
    {
      assert !Overlaps(st.writeQueue[i], s, n);
    }
  }

  /** After SECURE_READ_BUFFER no answer is owed. */
  lemma {:induction false} SecureOwesNothing(c: Config, st: State)
    requires Shape(c, st)
    ensures Shape(c, SecureRead(c, st).0) && Outstanding(c, SecureRead(c, st).0) == []
    ensures SecureRead(c, st).1 == Outstanding(c, st)
  {
    hide Flush, Shape;
    SecureReadEffect(c, st);
    DeliverEffect(c, st);
    var a := Deliver(st).0;
    FlushReads(c, a, |a.readQueue|);
  }

  // ---------------------------------------------------------------------------------------------
  // Whole runs

  lemma {:induction false} StepHands(c: Config, st: State, q: Request)
    requires Shape(c, st) && RequestOk(c, q)
    ensures st.completed <= Step(c, st, q).1
  {
    hide Shape, SsdRead, SsdWrite;
    match q
    case HostRead(s, n) =>
      SsdReadHands(c, st, s, n);
    case HostWrite(s, x) =>
      SsdWriteHands(c, st, s, x);
  }

  lemma {:induction false} RunSnoc(c: Config, st: State, qs: seq<Request>, q: Request)
    requires Shape(c, st) && RequestsOk(c, qs) && RequestOk(c, q) && RequestsOk(c, qs + [q])
    ensures Shape(c, Run(c, st, qs).0)
    ensures var (a, out) := Run(c, st, qs);
            var (r, more) := Step(c, a, q);
            Run(c, st, qs + [q]) == (r, out + more)
    decreases qs
  {
    hide Shape, Step, RequestOk;
    if qs == [] {
      StepEffect(c, st, q);
      assert (qs + [q])[1..] == [];
      var (r, more) := Step(c, st, q);
      assert Run(c, r, []) == (r, []) && more + [] == more && [] + more == more;
    } else {
      StepEffect(c, st, qs[0]);
      assert (qs + [q])[1..] == qs[1..] + [q];
      var (b, first) := Step(c, st, qs[0]);
      RunSnoc(c, b, qs[1..], q);
      var (a, out) := Run(c, b, qs[1..]);
      var more := Step(c, a, q).1;
      assert first + (out + more) == first + out + more;
    }
  }

  /** Nothing completed is kept back: in every run, the answers handed over by the end of a request begin with all that
      were handed over or completed before it. */
  lemma {:induction false} CompletedAreHanded(c: Config, st: State, qs: seq<Request>, q: Request)
    requires Shape(c, st) && RequestsOk(c, qs) && RequestOk(c, q) && RequestsOk(c, qs + [q])
    ensures var (a, out) := Run(c, st, qs); out + a.completed <= Run(c, st, qs + [q]).1
  {
    hide Shape, Step, Run;
    RunSnoc(c, st, qs, q);
    var (a, out) := Run(c, st, qs);
    StepHands(c, a, q);
    assert Step(c, a, q).1 == a.completed + Step(c, a, q).1[|a.completed|..];
    assert out + Step(c, a, q).1 == out + a.completed + Step(c, a, q).1[|a.completed|..];
  }
}
