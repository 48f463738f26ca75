/** How the scans of ENQUEUE_WRITE and CHECK_IO_DEPENDENCY_FOR_READ see the queued writes. */
module BufferScans {
  import opened Options
  import opened Disk
  import opened Frames
  import opened BufferSpec
  import opened BufferWrites
  import opened WriteRings
  import opened EventQueues
  import opened BufferViews
  import opened BufferTheorems

  lemma {:induction false} SpansAt(ws: seq<Write>, i: nat)
    requires i < |ws|
    ensures Spans(ws) == Spans(ws[..i]) + ws[i].span + Spans(ws[i + 1..])
    ensures SpanTotal(ws[..i]) + |ws[i].span| + SpanTotal(ws[i + 1..]) == SpanTotal(ws)
  {
    hide Spans, SpanTotal;
    SpansSnoc(ws[..i], ws[i]);
    SpansConcat(ws[..i] + [ws[i]], ws[i + 1..]);
    assert ws == ws[..i] + [ws[i]] + ws[i + 1..];
  }

  /** The i-th queued write: its entry, its frames on the ring, and where they start. */
  lemma {:induction false} WriteEntry(c: Config, st: State, n: Snapshot, extra: seq<Frame>, i: nat)
    requires Agrees(c, st, n, extra) && i < |st.writeQueue|
    ensures var at := |st.leftover| + SpanTotal(st.writeQueue[..i]);
            var w := st.writeQueue[i];
            && n.nr == |st.readQueue| && n.nr + i < |n.pending| == n.nr + |st.writeQueue|
            && n.pending[n.nr + i] == WriteView(w, Wrap(c.writeFrames, n.limit + at))
            && at + |w.span| <= |n.win| && n.win[at..at + |w.span|] == w.span
            && n.limit < c.writeFrames
  {
    hide Spans, SpanTotal, Datas, AnswerTotal, ReadTotal;
    var ws := st.writeQueue;
    var at := |st.leftover| + SpanTotal(ws[..i]);
    SpansAt(ws, i);
    assert n.win == (st.leftover + Spans(ws[..i])) + ws[i].span + (Spans(ws[i + 1..]) + extra);
  }

  lemma {:induction false} NoWrites(c: Config, st: State, n: Snapshot, extra: seq<Frame>)
    requires Agrees(c, st, n, extra)
    ensures n.nr == |st.readQueue| && |n.pending| == n.nr + |st.writeQueue|
  {
  }

  // ---------------------------------------------------------------------------------------------
  // One write changes

  lemma {:induction false} PrefixTotals(ws: seq<Write>, i: nat, w: Write, j: nat)
    requires i < |ws| && j <= |ws| && (j <= i || |w.span| == |ws[i].span|)
    ensures SpanTotal(ws[i := w][..j]) == SpanTotal(ws[..j])
  {
    hide SpanTotal;
    var vs := ws[i := w];
    if j <= i {
      assert vs[..j] == ws[..j];
    } else {
      SpansAt(ws[..j], i);
      SpansAt(vs[..j], i);
      assert vs[..j][..i] == ws[..j][..i] && vs[..j][i + 1..] == ws[..j][i + 1..];
    }
  }

  lemma {:induction false} WriteViewsUpdate(ws: seq<Write>, i: nat, w: Write, size: nat, at: nat)
    requires i < |ws| && (i == |ws| - 1 || |w.span| == |ws[i].span|)
    ensures WriteViews(ws[i := w], size, at) ==
            WriteViews(ws, size, at)[i := WriteView(w, Wrap(size, at + SpanTotal(ws[..i])))]
  {
    hide SpanTotal, WriteView;
    var l, r := WriteViews(ws[i := w], size, at), WriteViews(ws, size, at)[i := WriteView(w, Wrap(size, at + SpanTotal(ws[..i])))];
    forall j | 0 <= j < |l| ensures l[j] == r[j] {
      PrefixTotals(ws, i, w, j);
    }
  }

  lemma {:induction false} SpansUpdate(ws: seq<Write>, i: nat, w: Write)
    requires i < |ws|
    ensures Spans(ws[i := w]) == Spans(ws[..i]) + w.span + Spans(ws[i + 1..])
  {
    hide Spans, SpanTotal;
    var vs := ws[i := w];
    SpansAt(vs, i);
    assert vs[..i] == ws[..i] && vs[i + 1..] == ws[i + 1..];
  }

  /** The i-th write changes, with its entry and its frames; the frames behind it stay where they are. */
  lemma {:induction false} UpdateAgrees(c: Config, st: State, n: Snapshot, extra: seq<Frame>, i: nat, w: Write)
    requires Agrees(c, st, n, extra) && i < |st.writeQueue|
    requires |w.span| == |st.writeQueue[i].span|
    ensures var at := |st.leftover| + SpanTotal(st.writeQueue[..i]);
            at + |w.span| <= |n.win| && n.nr + i < |n.pending| &&
            Agrees(c, st.(writeQueue := st.writeQueue[i := w]),
                   n.(win := n.win[..at] + w.span + n.win[at + |w.span|..],
                      pending := n.pending[n.nr + i := WriteView(w, Wrap(c.writeFrames, n.limit + at))]), extra)
  {
    hide Spans, SpanTotal, Datas, AnswerTotal, ReadTotal, QueueViews, DoneViews, WriteView;
    var ws := st.writeQueue;
    WriteEntry(c, st, n, extra, i);
    QueueViewsUpdate(st, Pointers(c.writeFrames, n.limit, c.readFrames, n.sata), i, w);
    WinUpdate(n.win, st.leftover, ws, extra, i, w);
  }

  lemma {:induction false} QueueViewsUpdate(st: State, p: Pointers, i: nat, w: Write)
    requires i < |st.writeQueue| && (i == |st.writeQueue| - 1 || |w.span| == |st.writeQueue[i].span|)
    ensures var nr := |st.readQueue|;
            && |QueueViews(st, p)| == nr + |st.writeQueue|
            && QueueViews(st.(writeQueue := st.writeQueue[i := w]), p) ==
               QueueViews(st, p)[nr + i := WriteView(w, Wrap(p.wsize, p.limit + |st.leftover| + SpanTotal(st.writeQueue[..i])))]
  {
    hide SpanTotal, AnswerTotal, WriteView, ReadViews, WriteViews;
    WriteViewsUpdate(st.writeQueue, i, w, p.wsize, p.limit + |st.leftover|);
  }

  lemma {:induction false} WinUpdate(win: seq<Frame>, left: seq<Frame>, ws: seq<Write>, extra: seq<Frame>, i: nat, w: Write)
    requires win == left + Spans(ws) + extra && i < |ws| && |w.span| == |ws[i].span|
    ensures var at := |left| + SpanTotal(ws[..i]);
            at + |w.span| <= |win| &&
            win[..at] + w.span + win[at + |w.span|..] == left + Spans(ws[i := w]) + extra
  {
    hide Spans, SpanTotal;
    SpansAt(ws, i);
    SpansUpdate(ws, i, w);
    var a, b, d := left + Spans(ws[..i]), ws[i].span, Spans(ws[i + 1..]) + extra;
    assert win == a + b + d;
    Resplice(win, a, b, d, w.span);
    assert a + w.span + d == left + (Spans(ws[..i]) + w.span + Spans(ws[i + 1..])) + extra;
  }

  lemma {:induction false} Resplice(win: seq<Frame>, a: seq<Frame>, b: seq<Frame>, d: seq<Frame>, b': seq<Frame>)
    requires win == a + b + d && |b'| == |b|
    ensures win[..|a|] + b' + win[|a| + |b|..] == a + b' + d
  {
  }

  /** The extra frames join the last write. */
  lemma {:induction false} ExtendAgrees(c: Config, st: State, n: Snapshot, extra: seq<Frame>, t: Write)
    requires Agrees(c, st, n, extra) && st.writeQueue != []
    requires var w := st.writeQueue[|st.writeQueue| - 1];
             t.valid == w.valid && t.sector == w.sector && t.span == w.span + extra
    ensures var k := |st.writeQueue| - 1;
            var at := |st.leftover| + SpanTotal(st.writeQueue[..k]);
            n.nr + k < |n.pending| &&
            Agrees(c, st.(writeQueue := st.writeQueue[..k] + [t]),
                   n.(pending := n.pending[n.nr + k := WriteView(t, Wrap(c.writeFrames, n.limit + at))]), [])
  {
    hide Spans, SpanTotal, Datas, AnswerTotal, ReadTotal, WriteViews, ReadViews, DoneViews, WriteView;
    var ws := st.writeQueue;
    var k := |ws| - 1;
    WriteEntry(c, st, n, extra, k);
    WriteViewsUpdate(ws, k, t, c.writeFrames, n.limit + |st.leftover|);
    SpansSnoc(ws[..k], ws[k]);
    SpansSnoc(ws[..k], t);
    assert ws == ws[..k] + [ws[k]];
    assert ws[k := t] == ws[..k] + [t];
  }

  /** The extra frames become a new write. */
  lemma {:induction false} AppendAgrees(c: Config, st: State, n: Snapshot, w: Write)
    requires Agrees(c, st, n, w.span)
    ensures Agrees(c, st.(writeQueue := st.writeQueue + [w]),
                   n.(pending := n.pending + [WriteView(w, Wrap(c.writeFrames, n.limit + |st.leftover| + SpanTotal(st.writeQueue)))]), [])
  {
    hide Spans, SpanTotal, Datas, AnswerTotal, ReadTotal, WriteViews, ReadViews, DoneViews, WriteView;
    SpansSnoc(st.writeQueue, w);
    WriteViewsSnoc(st.writeQueue, w, c.writeFrames, n.limit + |st.leftover|);
  }

  lemma {:induction false} WriteViewsSnoc(ws: seq<Write>, w: Write, size: nat, at: nat)
    ensures WriteViews(ws + [w], size, at) == WriteViews(ws, size, at) + [WriteView(w, Wrap(size, at + SpanTotal(ws)))]
  {
    hide SpanTotal, WriteView;
    var vs := ws + [w];
    var l, r := WriteViews(vs, size, at), WriteViews(ws, size, at) + [WriteView(w, Wrap(size, at + SpanTotal(ws)))];
    assert vs[..|ws|] == ws;
    forall i | 0 <= i < |l| ensures l[i] == r[i] {
      if i < |ws| { assert vs[..i] == ws[..i]; }
    }
  }

  /** New frames at the end of the ring. */
  lemma {:induction false} ExtraAgrees(c: Config, st: State, n: Snapshot, extra: seq<Frame>)
    requires Agrees(c, st, n, [])
    ensures Agrees(c, st, n.(win := n.win + extra), extra)
    ensures |n.win| == |st.leftover| + SpanTotal(st.writeQueue)
  {
    hide SpanTotal, Datas, AnswerTotal, ReadTotal, QueueViews, DoneViews;
  }

  // ---------------------------------------------------------------------------------------------
  // A read arrives

  lemma {:induction false} AddReadViews(st: State, r: Read, p: Pointers)
    ensures var nr := |st.readQueue|;
            var v := QueueViews(st, p);
            |v| >= nr &&
            QueueViews(st.(readQueue := st.readQueue + [r]), p) ==
            v[..nr] + [ReadView(r, Wrap(p.rsize, p.sata + AnswerTotal(st.completed)))] + v[nr..]
  {
    hide SpanTotal, AnswerTotal, WriteViews, ReadView;
    ReadViewsSnoc(st.readQueue, r, Wrap(p.rsize, p.sata + AnswerTotal(st.completed)));
  }

  /** A read joins the queue; one that is answered at once brings its data. */
  lemma {:induction false} AddReadAgrees(c: Config, st: State, n: Snapshot, r: Read)
    requires Agrees(c, st, n, []) && AnswersOk(st.completed)
    requires r.copied.Some? ==> st.readQueue == [] && |r.copied.value| == r.length
    ensures var x := if r.copied.Some? then r.copied.value else [];
            && n.nr <= |n.pending| && (st.readQueue == [] ==> |n.content| == AnswerTotal(st.completed)) &&
            Agrees(c, st.(readQueue := st.readQueue + [r]),
                   n.(content := n.content + x, reserved := n.reserved + r.length - |x|,
                      pending := n.pending[..n.nr] + [ReadView(r, Wrap(c.readFrames, n.sata + AnswerTotal(st.completed)))] + n.pending[n.nr..],
                      nr := n.nr + 1), [])
  {
    hide Spans, SpanTotal, Datas, AnswerTotal, ReadTotal, QueueViews, DoneViews, AnswersOk, ReadView;
    AddReadViews(st, r, Pointers(c.writeFrames, n.limit, c.readFrames, n.sata));
    ReadTotalSnoc(st.readQueue, r);
    DatasLength(st.completed);
    NoReads([r]);
    if st.readQueue == [] {
      NoReads([]);
    }
  }

  lemma {:induction false} NoReads(rs: seq<Read>)
    ensures rs == [] ==> ReadTotal(rs) == 0
  {
  }
}
