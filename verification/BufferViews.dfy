/** What the linked queues must look like for a given abstract state. */
module BufferViews {
  import opened Options
  import opened Disk
  import opened Frames
  import opened BufferSpec
  import opened BufferWrites
  import opened WriteRings
  import opened EventQueues

  function ReadView(r: Read, p: nat): Event {
    Event(READ, true, r.sector, r.length, if r.copied.Some? then Some(p) else None)
  }

  /** The queued reads; a read answered at arrival has its data at read-buffer position `p`. */
  function ReadViews(rs: seq<Read>, p: nat): (vs: seq<Event>)
    ensures |vs| == |rs| && forall i :: 0 <= i < |rs| ==> vs[i] == ReadView(rs[i], p)
  {
    seq(|rs|, i requires 0 <= i < |rs| => ReadView(rs[i], p))
  }

  function WriteView(w: Write, p: nat): Event {
    Event(WRITE, w.valid, w.sector, w.length, Some(p))
  }

  /** The queued writes; their spans follow each other on the ring from position `at` on. */
  function WriteViews(ws: seq<Write>, size: nat, at: nat): (vs: seq<Event>)
    ensures |vs| == |ws|
    ensures forall i :: 0 <= i < |ws| ==> vs[i] == WriteView(ws[i], Wrap(size, at + SpanTotal(ws[..i])))
  {
    seq(|ws|, i requires 0 <= i < |ws| => WriteView(ws[i], Wrap(size, at + SpanTotal(ws[..i]))))
  }

  /** Where the ring pointers are: the write ring's size and limit, the read ring's size and SATA pointer. */
  datatype Pointers = Pointers(wsize: nat, limit: nat, rsize: nat, sata: nat)

  /** The event queue: reads, then writes. */
  function QueueViews(st: State, p: Pointers): seq<Event> {
    ReadViews(st.readQueue, Wrap(p.rsize, p.sata + AnswerTotal(st.completed)))
    + WriteViews(st.writeQueue, p.wsize, p.limit + |st.leftover|)
  }

  /** The completed queue: the data of each read follows the previous one's in the read buffer. */
  function DoneViews(xs: seq<Answer>, size: nat, at: nat): (vs: seq<Event>)
    ensures |vs| == |xs|
    ensures forall i :: 0 <= i < |xs| ==> vs[i] == DoneView(xs[i], Wrap(size, at + AnswerTotal(xs[..i])))
  {
    seq(|xs|, i requires 0 <= i < |xs| => DoneView(xs[i], Wrap(size, at + AnswerTotal(xs[..i]))))
  }

  function DoneView(a: Answer, p: nat): Event {
    Event(READ, true, a.sector, a.length, Some(p))
  }

  /** The sectors held in the read buffer. */
  function Datas(xs: seq<Answer>): seq<Value> {
    if xs == [] then [] else xs[0].data + Datas(xs[1..])
  }

  function Copied(rs: seq<Read>): seq<Value> {
    if rs != [] && rs[0].copied.Some? then rs[0].copied.value else []
  }

  lemma {:induction false} DatasSnoc(xs: seq<Answer>, a: Answer)
    ensures Datas(xs + [a]) == Datas(xs) + a.data
  {
    if xs == [] {
      assert (xs + [a])[1..] == [];
    } else {
      DatasSnoc(xs[1..], a);
      assert (xs + [a])[1..] == xs[1..] + [a];
      assert xs[0].data + (Datas(xs[1..]) + a.data) == xs[0].data + Datas(xs[1..]) + a.data;
    }
  }

  lemma {:induction false} DatasLength(xs: seq<Answer>)
    requires AnswersOk(xs)
    ensures |Datas(xs)| == AnswerTotal(xs)
  {
    if xs != [] {
      assert AnswerOk(xs[0]);
      DatasLength(xs[1..]);
    }
  }

  // ---------------------------------------------------------------------------------------------
  // How the views change

  /** Only the first queued read can have its data already. */
  lemma {:induction false} ReadViewsTail(rs: seq<Read>, p: nat, q: nat)
    requires rs != [] && forall i :: 1 <= i < |rs| ==> rs[i].copied.None?
    ensures ReadViews(rs[1..], q) == ReadViews(rs, p)[1..]
  {
  }

  lemma {:induction false} ReadViewsSnoc(rs: seq<Read>, r: Read, p: nat)
    ensures ReadViews(rs + [r], p) == ReadViews(rs, p) + [ReadView(r, p)]
  {
  }

  lemma {:induction false} DoneViewsSnoc(xs: seq<Answer>, a: Answer, size: nat, at: nat)
    ensures DoneViews(xs + [a], size, at) == DoneViews(xs, size, at) + [DoneView(a, Wrap(size, at + AnswerTotal(xs)))]
  {
    hide AnswerTotal, DoneView;
    var ys := xs + [a];
    var l, r := DoneViews(ys, size, at), DoneViews(xs, size, at) + [DoneView(a, Wrap(size, at + AnswerTotal(xs)))];
    assert ys[..|xs|] == xs;
    forall i | 0 <= i < |l| ensures l[i] == r[i] {
      if i < |xs| { assert ys[..i] == xs[..i]; }
    }
  }

  /** Delivering the first answer moves the SATA pointer past its data. */
  lemma {:induction false} DoneViewsTail(xs: seq<Answer>, size: nat, at: nat)
    requires xs != [] && at < size && AnswerTotal(xs) <= size
    ensures DoneViews(xs[1..], size, Wrap(size, at + xs[0].length)) == DoneViews(xs, size, at)[1..]
  {
    var l, r := DoneViews(xs[1..], size, Wrap(size, at + xs[0].length)), DoneViews(xs, size, at)[1..];
    forall i | 0 <= i < |l| ensures l[i] == r[i] {
      AnswerTotalShift(xs, i);
      assert xs[1..][i] == xs[i + 1];
    }
  }

  lemma {:induction false} AnswerTotalShift(xs: seq<Answer>, i: nat)
    requires i < |xs|
    ensures AnswerTotal(xs[..i + 1]) == xs[0].length + AnswerTotal(xs[1..][..i]) <= AnswerTotal(xs)
  {
    assert xs[..i + 1][1..] == xs[1..][..i];
    AnswerTotalPrefix(xs, i + 1);
  }

  lemma {:induction false} AnswerTotalPrefix(xs: seq<Answer>, i: nat)
    requires i <= |xs|
    ensures AnswerTotal(xs[..i]) <= AnswerTotal(xs)
  {
    if i > 0 {
      AnswerTotalPrefix(xs[1..], i - 1);
      assert xs[..i][1..] == xs[1..][..i - 1];
    }
  }

  lemma {:induction false} SpanTotalPrefix(ws: seq<Write>, i: nat)
    requires i <= |ws|
    ensures SpanTotal(ws) == SpanTotal(ws[..i]) + SpanTotal(ws[i..])
  {
    hide SpanTotal, Spans;
    SpansConcat(ws[..i], ws[i..]);
    assert ws == ws[..i] + ws[i..];
  }

  lemma {:induction false} WriteViewsTail(ws: seq<Write>, size: nat, at: nat)
    requires ws != []
    ensures WriteViews(ws[1..], size, at + |ws[0].span|) == WriteViews(ws, size, at)[1..]
  {
    var l, r := WriteViews(ws[1..], size, at + |ws[0].span|), WriteViews(ws, size, at)[1..];
    forall i | 0 <= i < |l| ensures l[i] == r[i] {
      assert ws[..i + 1][1..] == ws[1..][..i];
    }
  }

  /** Positions do not change when the ring is counted from a later pointer. */
  lemma {:induction false} WriteViewsRebase(ws: seq<Write>, size: nat, limit: nat, skip: nat)
    requires limit < size && skip + SpanTotal(ws) <= size
    ensures WriteViews(ws, size, Wrap(size, limit + skip)) == WriteViews(ws, size, limit + skip)
  {
    hide SpanTotal;
    var l, r := WriteViews(ws, size, Wrap(size, limit + skip)), WriteViews(ws, size, limit + skip);
    forall i | 0 <= i < |l| ensures l[i] == r[i] {
      SpanTotalPrefix(ws, i);
    }
  }

  /** What dequeueing a read does to the queues and the read buffer. */
  lemma {:induction false} DequeueReadFacts(c: Config, st: State)
    requires Shape(c, st) && st.readQueue != []
    ensures Shape(c, DequeueIo(c, st)) && |st.flash| == c.sectors && ReadOk(st.readQueue[0], c.sectors)
    ensures forall i :: 1 <= i < |st.readQueue| ==> st.readQueue[i].copied.None?
    ensures var r := st.readQueue[0];
            var a := Answered(r, st.flash);
            && DequeueIo(c, st) == st.(readQueue := st.readQueue[1..], completed := st.completed + [a])
            && |a.data| == r.length && |Datas(st.completed)| == AnswerTotal(st.completed)
            && AnswerTotal(st.completed) + r.length <= c.readFrames
            && Datas(st.completed + [a]) == Datas(st.completed) + a.data && Copied(st.readQueue[1..]) == []
            && a.data == (if r.copied.Some? then Copied(st.readQueue) else st.flash[r.sector..r.sector + r.length])
            && ReadTotal(st.readQueue) == r.length + ReadTotal(st.readQueue[1..])
  {
    hide WritesOk, Live, Put, AnswerTotal, Datas, SpanTotal;
    DequeueKeepsShape(c, st);
    var r := st.readQueue[0];
    assert ReadOk(r, c.sectors);
    assert |st.readQueue| > 1 ==> st.readQueue[1].copied.None?;
    DatasSnoc(st.completed, Answered(r, st.flash));
    DatasLength(st.completed);
  }

  lemma {:induction false} DequeueReadViews(st: State, a: Answer, p: Pointers)
    requires st.readQueue != [] && a.sector == st.readQueue[0].sector && a.length == st.readQueue[0].length
    requires forall i :: 1 <= i < |st.readQueue| ==> st.readQueue[i].copied.None?
    ensures var z := st.(readQueue := st.readQueue[1..], completed := st.completed + [a]);
            var at := Wrap(p.rsize, p.sata + AnswerTotal(st.completed));
            && |QueueViews(st, p)| == |st.readQueue| + |st.writeQueue|
            && QueueViews(st, p)[0] == ReadView(st.readQueue[0], at)
            && QueueViews(z, p) == QueueViews(st, p)[1..]
            && DoneViews(z.completed, p.rsize, p.sata) == DoneViews(st.completed, p.rsize, p.sata) + [DoneView(a, at)]
  {
    hide DoneViews, WriteViews, AnswerTotal, SpanTotal, ReadView, ReadViews, WriteView, DoneView;
    DoneViewsSnoc(st.completed, a, p.rsize, p.sata);
    ReadViewsTail(st.readQueue, Wrap(p.rsize, p.sata + AnswerTotal(st.completed)),
                  Wrap(p.rsize, p.sata + AnswerTotal(st.completed + [a])));
  }

  /** What dequeueing a write does to the queues and the write buffer. */
  lemma {:induction false} DequeueWriteFacts(c: Config, st: State)
    requires Shape(c, st) && st.readQueue == [] && st.writeQueue != []
    ensures Shape(c, DequeueIo(c, st)) && |st.flash| == c.sectors && WriteOk(st.writeQueue[0], c.sectors)
    ensures var w := st.writeQueue[0];
            && DequeueIo(c, st) ==
                 (if w.valid then st.(writeQueue := st.writeQueue[1..], leftover := [], flash := Put(st.flash, w.sector, Live(w.span)))
                  else st.(writeQueue := st.writeQueue[1..], leftover := st.leftover + w.span))
            && Spans(st.writeQueue) == w.span + Spans(st.writeQueue[1..])
            && Live(st.leftover + w.span) == Live(w.span)
            && |st.leftover| + |w.span| + SpanTotal(st.writeQueue[1..]) <= c.writeFrames
  {
    hide Live, Put, AnswerTotal, ReadsOk, AnswersOk;
    DequeueKeepsShape(c, st);
    var w := st.writeQueue[0];
    assert WriteOk(w, c.sectors);
    LiveNone(st.leftover);
    LiveConcat(st.leftover, w.span);
  }

  lemma {:induction false} DequeueWriteViews(ws: seq<Write>, size: nat, limit: nat, left: nat)
    requires ws != [] && limit < size && left + |ws[0].span| + SpanTotal(ws[1..]) <= size
    ensures var at := limit + left;
            && WriteViews(ws, size, at)[0] == WriteView(ws[0], Wrap(size, at))
            && WriteViews(ws[1..], size, at + |ws[0].span|) == WriteViews(ws, size, at)[1..]
            && WriteViews(ws[1..], size, Wrap(size, at + |ws[0].span|)) == WriteViews(ws, size, at)[1..]
  {
    hide WriteView;
    WriteViewsTail(ws, size, limit + left);
    WriteViewsRebase(ws[1..], size, limit, left + |ws[0].span|);
    assert ws[..0] == [];
  }

  // ---------------------------------------------------------------------------------------------
  // The rings and queues of the implementation, against the abstract state

  /** The implementation's write ring, read ring, queues and flash, as values. */
  datatype Snapshot = Snapshot(win: seq<Frame>, handed: nat, limit: nat,
                               content: seq<Value>, reserved: int, sata: nat,
                               pending: seq<Event>, done: seq<Event>, nr: nat, flash: seq<Value>)

  /** The write ring holds the leftover frames, the span of each queued write and then `extra`; the read
      ring holds the data of the answered reads; the queues hold the events of the abstract ones. */
  predicate Agrees(c: Config, st: State, n: Snapshot, extra: seq<Frame>) {
    && n.handed == 0 && n.limit < c.writeFrames && n.sata < c.readFrames
    && n.win == st.leftover + Spans(st.writeQueue) + extra
    && n.content == Datas(st.completed) + Copied(st.readQueue)
    && n.reserved + |Copied(st.readQueue)| == ReadTotal(st.readQueue)
    && n.pending == QueueViews(st, Pointers(c.writeFrames, n.limit, c.readFrames, n.sata))
    && n.done == DoneViews(st.completed, c.readFrames, n.sata)
    && n.nr == |st.readQueue| && n.flash == st.flash
  }

  /** Dequeueing a read: `at` is the FTL pointer of the read ring. */
  lemma {:induction false} DequeueReadAgrees(c: Config, st: State, n: Snapshot)
    requires Shape(c, st) && Agrees(c, st, n, []) && st.readQueue != []
    ensures Shape(c, DequeueIo(c, st))
    ensures var r := st.readQueue[0];
            && n.pending != [] && n.nr > 0 && r.sector + r.length <= |n.flash|
            && (n.pending[0].buf.None? <==> r.copied.None?)
            && n.pending[0].sector == r.sector && n.pending[0].length == r.length
            && (r.copied.None? ==> |n.content| + r.length <= c.readFrames) &&
            var x := if r.copied.None? then n.flash[r.sector..r.sector + r.length] else [];
            var at := Wrap(c.readFrames, n.sata + |n.content|);
            var v := n.pending[0];
            Agrees(c, DequeueIo(c, st),
                   n.(content := n.content + x, reserved := n.reserved - |x|, pending := n.pending[1..],
                      done := n.done + [Placed(v, at)], nr := n.nr - 1), [])
  {
    hide Shape, DequeueIo, AnswerTotal, Datas, Spans, ReadTotal, WriteViews, DoneViews, QueueViews;
    DequeueReadFacts(c, st);
    DequeueReadViews(st, Answered(st.readQueue[0], st.flash), Pointers(c.writeFrames, n.limit, c.readFrames, n.sata));
  }

  lemma {:induction false} OnlyWriteViews(st: State, p: Pointers)
    requires st.readQueue == []
    ensures QueueViews(st, p) == WriteViews(st.writeQueue, p.wsize, p.limit + |st.leftover|)
  {
  }

  lemma {:induction false} WinSplit(win: seq<Frame>, left: seq<Frame>, span: seq<Frame>, rest: seq<Frame>)
    requires win == left + (span + rest) + []
    ensures var len := |left| + |span|;
            win[..len] == left + span && win[len..] == [] + rest + [] && win == left + span + rest + []
  {
  }

  /** Dequeueing a write: `len` frames leave the ring if it is valid. */
  lemma {:induction false} DequeueWriteAgrees(c: Config, st: State, n: Snapshot)
    requires Shape(c, st) && Agrees(c, st, n, []) && st.readQueue == [] && st.writeQueue != []
    ensures Shape(c, DequeueIo(c, st)) && WriteOk(st.writeQueue[0], c.sectors) && |st.flash| == c.sectors
    ensures var w := st.writeQueue[0];
            var len := |st.leftover| + |w.span|;
            && n.pending != [] && n.nr == 0 && n.handed == 0 && len <= |n.win| && n.flash == st.flash
            && n.pending[0] == WriteView(w, Wrap(c.writeFrames, n.limit + |st.leftover|))
            && n.win[..len] == st.leftover + w.span && Live(n.win[..len]) == Live(w.span) &&
            Agrees(c, DequeueIo(c, st),
                   if w.valid then n.(win := n.win[len..], limit := Wrap(c.writeFrames, n.limit + len),
                                      pending := n.pending[1..], flash := Put(n.flash, w.sector, Live(w.span)))
                   else n.(pending := n.pending[1..]), [])
  {
    hide Shape, DequeueIo, AnswerTotal, Datas, Spans, SpanTotal, ReadTotal, WriteViews, QueueViews, DoneViews, Live,
         Put, WriteOk;
    var w := st.writeQueue[0];
    var z := DequeueIo(c, st);
    var p := Pointers(c.writeFrames, n.limit, c.readFrames, n.sata);
    DequeueWriteFacts(c, st);
    DequeueWriteViews(st.writeQueue, c.writeFrames, n.limit, |st.leftover|);
    OnlyWriteViews(st, p);
    OnlyWriteViews(z, if w.valid then p.(limit := Wrap(c.writeFrames, n.limit + |st.leftover| + |w.span|)) else p);
    WinSplit(n.win, st.leftover, w.span, Spans(st.writeQueue[1..]));
  }

  /** The state after the first completed read was delivered. */
  function DeliverOne(st: State): State
    requires st.completed != []
  {
    st.(completed := st.completed[1..])
  }

  lemma {:induction false} DeliverFacts(c: Config, st: State)
    requires Shape(c, st) && st.completed != []
    ensures Shape(c, DeliverOne(st)) && AnswerOk(st.completed[0])
    ensures AnswerTotal(st.completed) == st.completed[0].length + AnswerTotal(st.completed[1..]) <= c.readFrames
    ensures Datas(st.completed) == st.completed[0].data + Datas(st.completed[1..])
  {
  }

  /** Delivering a read: the SATA pointer stands at its data and moves past it. */
  lemma {:induction false} DeliverAgrees(c: Config, st: State, n: Snapshot)
    requires Shape(c, st) && Agrees(c, st, n, []) && st.completed != []
    ensures Shape(c, DeliverOne(st)) && n.done != [] && n.done[0] == DoneView(st.completed[0], n.sata)
    ensures var a := st.completed[0];
            && |a.data| == a.length <= |n.content| && n.content[..a.length] == a.data &&
            Agrees(c, DeliverOne(st),
                   n.(content := n.content[a.length..], sata := Wrap(c.readFrames, n.sata + a.length), done := n.done[1..]), [])
  {
    hide Shape, AnswerTotal, Datas, Spans, SpanTotal, ReadTotal, WriteViews, DoneViews, ReadViews;
    var a := st.completed[0];
    var xs := st.completed;
    DeliverFacts(c, st);
    DoneViewsTail(xs, c.readFrames, n.sata);
    FirstDone(xs, c.readFrames, n.sata);
    assert n.content == a.data + (Datas(xs[1..]) + Copied(st.readQueue));
  }

  lemma {:induction false} FirstDone(xs: seq<Answer>, size: nat, at: nat)
    requires xs != [] && at < size
    ensures DoneViews(xs, size, at) != [] && DoneViews(xs, size, at)[0] == DoneView(xs[0], at)
  {
  }
}
