/** What queued writes mean: replaying the valid ones over the flash is the same as executing every
    accepted write, however the queue drops or merges them. */
module BufferWrites {
  import opened Disk
  import opened Frames
  import opened BufferSpec

  lemma {:induction false} WritesInRange(ws: seq<Write>, sectors: nat)
    requires WritesOk(ws, sectors)
    ensures AllInRange(ws, sectors)
  {
  }

  // ---------------------------------------------------------------------------------------------
  // Replay

  lemma {:induction false} ReplaySplit(d: seq<Value>, a: seq<Write>, b: seq<Write>)
    requires AllInRange(a, |d|) && AllInRange(b, |d|)
    ensures AllInRange(a + b, |d|)
    ensures Replay(d, a + b) == Replay(Replay(d, a), b)
    decreases a
  {
    hide Put, Live;
    if a == [] {
      assert a + b == b;
    } else {
      assert InRange(a[0], |d|);
      ReplaySplit(Put(d, a[0].sector, Live(a[0].span)), a[1..], b);
      assert (a + b)[1..] == a[1..] + b;
    }
  }

  lemma {:induction false} ReplayOne(d: seq<Value>, w: Write)
    requires InRange(w, |d|)
    ensures Replay(d, [w]) == Put(d, w.sector, Live(w.span))
  {
  }

  lemma {:induction false} ReplaySnoc(d: seq<Value>, ws: seq<Write>, w: Write)
    requires AllInRange(ws, |d|) && InRange(w, |d|)
    ensures AllInRange(ws + [w], |d|)
    ensures Replay(d, ws + [w]) == Put(Replay(d, ws), w.sector, Live(w.span))
  {
    hide Put, Live, Replay;
    ReplaySplit(d, ws, [w]);
    ReplayOne(Replay(d, ws), w);
  }

  /** Writes that do not overlap a range leave it alone. */
  lemma {:induction false} ReplayOutside(d: seq<Value>, ws: seq<Write>, s: nat, n: nat)
    requires WritesOk(ws, |d|) && s + n <= |d|
    requires forall i :: 0 <= i < |ws| ==> !(ws[i].valid && Overlaps(ws[i], s, n))
    ensures AllInRange(ws, |d|)
    ensures Replay(d, ws)[s..s + n] == d[s..s + n]
    decreases ws
  {
    hide Put, Live;
    WritesInRange(ws, |d|);
    if ws != [] {
      assert WriteOk(ws[0], |d|) && !(ws[0].valid && Overlaps(ws[0], s, n));
      var e := Put(d, ws[0].sector, Live(ws[0].span));
      ReplayOutside(e, ws[1..], s, n);
      PutSectors(d, ws[0].sector, Live(ws[0].span));
      assert e[s..s + n] == d[s..s + n];
    }
  }

  lemma {:induction false} ElideOneOk(w: Write, s: nat, n: nat, sectors: nat)
    requires WriteOk(w, sectors)
    ensures WriteOk(ElideOne(w, s, n), sectors) && |ElideOne(w, s, n).span| == |w.span|
  {
    LiveNone(Mark(w.span, 'I'));
  }

  lemma {:induction false} ElideOk(ws: seq<Write>, s: nat, n: nat, sectors: nat)
    requires WritesOk(ws, sectors)
    ensures WritesOk(Elide(ws, s, n), sectors)
  {
    hide ElideOne;
    var r := Elide(ws, s, n);
    forall i | 0 <= i < |r| ensures WriteOk(r[i], sectors) {
      ElideOneOk(ws[i], s, n, sectors);
    }
  }

  /** One step of ElideSameOutside. */
  lemma {:induction false} ElideOneSameOutside(d: seq<Value>, e: seq<Value>, w: Write, s: nat, n: nat)
    requires SameOutside(d, e, s, n) && WriteOk(w, |d|)
    ensures var y := ElideOne(w, s, n);
            WriteOk(y, |d|) && InRange(w, |d|) && InRange(y, |d|) &&
            SameOutside(Put(d, w.sector, Live(w.span)), Put(e, y.sector, Live(y.span)), s, n)
  {
    hide Live;
    ElideOneOk(w, s, n, |d|);
  }

  /** Dropping writes that lie inside [s, s+n) changes the disk at most there. */
  lemma {:induction false} ElideSameOutside(d: seq<Value>, e: seq<Value>, ws: seq<Write>, s: nat, n: nat)
    requires SameOutside(d, e, s, n) && WritesOk(ws, |d|)
    ensures AllInRange(ws, |d|) && AllInRange(Elide(ws, s, n), |d|)
    ensures SameOutside(Replay(d, ws), Replay(e, Elide(ws, s, n)), s, n)
    decreases ws
  {
    hide Put, Live, ElideOne, WriteOk;
    var ys := Elide(ws, s, n);
    ElideOk(ws, s, n, |d|);
    WritesInRange(ws, |d|);
    WritesInRange(ys, |d|);
    if ws != [] {
      ElideOneSameOutside(d, e, ws[0], s, n);
      ElideSameOutside(Put(d, ws[0].sector, Live(ws[0].span)), Put(e, ys[0].sector, Live(ys[0].span)), ws[1..], s, n);
      assert ys[1..] == Elide(ws[1..], s, n);
    }
  }

  // ---------------------------------------------------------------------------------------------
  // The frames of the queue

  lemma {:induction false} SpansConcat(a: seq<Write>, b: seq<Write>)
    ensures Spans(a + b) == Spans(a) + Spans(b)
  {
    if a == [] {
      assert a + b == b;
    } else {
      calc {
        Spans(a + b);
        { assert (a + b)[1..] == a[1..] + b; }
        a[0].span + Spans(a[1..] + b);
        { SpansConcat(a[1..], b); }
        a[0].span + (Spans(a[1..]) + Spans(b));
        (a[0].span + Spans(a[1..])) + Spans(b);
      }
    }
  }

  lemma {:induction false} SpansSnoc(ws: seq<Write>, w: Write)
    ensures SpanTotal(ws + [w]) == SpanTotal(ws) + |w.span|
    ensures Spans(ws + [w]) == Spans(ws) + w.span
  {
    SpansConcat(ws, [w]);
    assert [w][1..] == [];
  }

  lemma {:induction false} ElideTotal(ws: seq<Write>, s: nat, n: nat)
    ensures SpanTotal(Elide(ws, s, n)) == SpanTotal(ws)
  {
    if ws != [] {
      ElideTotal(ws[1..], s, n);
      assert Elide(ws, s, n)[1..] == Elide(ws[1..], s, n);
    }
  }

  // ---------------------------------------------------------------------------------------------
  // Merging

  /** A merged write is well formed, takes |x| more frames and carries the leading old data, then the new. */
  lemma {:induction false} MergedOk(t: Write, s: nat, x: seq<Value>, sectors: nat)
    requires WriteOk(t, sectors) && x != [] && s + |x| <= sectors
    requires Sequential(t, s) || RearOverlap(t, s, |x|)
    ensures var u := Merged(t, s, x);
            WriteOk(u, sectors) && u.valid && |u.span| == |t.span| + |x| && u.sector == t.sector &&
            s - t.sector <= |Live(t.span)| && Live(u.span) == Live(t.span)[..s - t.sector] + x
  {
    hide Live, KeepFirst;
    LiveFresh(x);
    if Sequential(t, s) {
      LiveConcat(t.span, Fresh(x));
    } else {
      LiveKeepFirst(t.span, s - t.sector);
      LiveConcat(KeepFirst(t.span, s - t.sector), Fresh(x));
    }
  }

  lemma {:induction false} MergeEffect(d: seq<Value>, ws: seq<Write>, t: Write, s: nat, x: seq<Value>)
    requires WritesOk(ws, |d|) && WriteOk(t, |d|) && x != [] && s + |x| <= |d|
    requires Sequential(t, s) || RearOverlap(t, s, |x|)
    ensures var u := Merged(t, s, x);
            WriteOk(u, |d|) && u.valid && AllInRange(ws + [t], |d|) && AllInRange(ws + [u], |d|) &&
            SpanTotal(ws + [u]) == SpanTotal(ws + [t]) + |x| &&
            Replay(d, ws + [u]) == Put(Replay(d, ws + [t]), s, x)
  {
    hide Live, Put, Replay, Merged;
    MergedOk(t, s, x, |d|);
    WritesInRange(ws, |d|);
    var u := Merged(t, s, x);
    ReplaySnoc(d, ws, t);
    ReplaySnoc(d, ws, u);
    SpansSnoc(ws, t);
    SpansSnoc(ws, u);
    PutMerge(Replay(d, ws), t.sector, Live(t.span), s, x);
  }

  lemma {:induction false} AppendEffect(d: seq<Value>, ws: seq<Write>, s: nat, x: seq<Value>)
    requires WritesOk(ws, |d|) && x != [] && s + |x| <= |d|
    ensures var u := Write(true, s, |x|, Fresh(x));
            WriteOk(u, |d|) && AllInRange(ws, |d|) && AllInRange(ws + [u], |d|) &&
            SpanTotal(ws + [u]) == SpanTotal(ws) + |x| &&
            Replay(d, ws + [u]) == Put(Replay(d, ws), s, x)
  {
    hide Live, Put, Replay;
    LiveFresh(x);
    WritesInRange(ws, |d|);
    var u := Write(true, s, |x|, Fresh(x));
    ReplaySnoc(d, ws, u);
    SpansSnoc(ws, u);
  }

  /** Attaching a write, merged or not, acts as that one write. */
  lemma {:induction false} AttachEffect(d: seq<Value>, ws: seq<Write>, s: nat, x: seq<Value>)
    requires WritesOk(ws, |d|) && x != [] && s + |x| <= |d|
    ensures var r := Attach(ws, s, x);
            WritesOk(r, |d|) && r != [] && r[|r| - 1].valid &&
            SpanTotal(r) == SpanTotal(ws) + |x| &&
            AllInRange(ws, |d|) && AllInRange(r, |d|) &&
            Replay(d, r) == Put(Replay(d, ws), s, x)
  {
    hide Live, Put, Replay, WriteOk, SpanTotal, Merged, Sequential, RearOverlap;
    if ws != [] && (Sequential(ws[|ws| - 1], s) || RearOverlap(ws[|ws| - 1], s, |x|)) {
      var k := |ws| - 1;
      assert ws == ws[..k] + [ws[k]];
      MergeEffect(d, ws[..k], ws[k], s, x);
    } else {
      AppendEffect(d, ws, s, x);
    }
  }
}
